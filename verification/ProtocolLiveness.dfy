/** Requests finish, and what an uninterrupted commit amounts to. */
module ProtocolLiveness {
  import opened Prelude
  import opened BlobStore
  import opened Protocol
  import opened ProtocolInvariants
  import opened ProtocolTheorems

  // ---------------------------------------------------------------- potential

  /** Steps a request may still take, where writing a record pays in advance for its eviction. */
  function Weight(pc: Pc): nat
  {
    match pc
    case Done(_) => 0
    case VerifyMark(_) => 1
    case GiveBack(_, next) => 1 + Weight(next)
    case CallUnpin(_, next) => 2 + Weight(next)
    case Streaming(_, _, _) => 3
    case StreamTouch(_, _, _) => 4
    case StreamMark(_, _, _) => 5
    case Reopen(_, _, _) => 6
    case VerifyOpen(_, _) => 7
    case VerifyPin(_) => 8
    case InspectMark(_, _, next) => 3 + Weight(next)
    case InspectOpen(_) => 12
    case ReuseGet(_) => 13
    case ReuseTouch(_) => 14
    case ReusePin => 15
    case IngestRecord(_, _) => 15
    case IngestPin(_) => 16
    case RecordMismatch => 3
    case Evicting(_, _) => 17
    case MakingRoom => 18
    case PutCommit => 18
    case PutStat => 19
    case IngestHas => 20
    case Start => 21
  }

  ghost function Weights(qs: map<nat, Request>): nat
  {
    if qs == map[] then 0 else
      var r :| r in qs;
      Weight(qs[r].pc) + Weights(qs - {r})
  }

  lemma {:induction false} WeightsSplit(qs: map<nat, Request>, r: nat)
    requires r in qs
    ensures Weights(qs) == Weight(qs[r].pc) + Weights(qs - {r})
    decreases |qs|
  {
    var o :| o in qs && Weights(qs) == Weight(qs[o].pc) + Weights(qs - {o});
    if o != r {
      WeightsSplit(qs - {o}, r);
      WeightsSplit(qs - {r}, o);
      assert qs - {o} - {r} == qs - {r} - {o};
    }
  }

  lemma WeightsUpdate(qs: map<nat, Request>, r: nat, q: Request)
    ensures Weights(qs[r := q]) == Weights(qs - {r}) + Weight(q.pc)
    ensures r in qs ==> Weights(qs) == Weights(qs - {r}) + Weight(qs[r].pc)
    ensures r !in qs ==> qs - {r} == qs
  {
    WeightsSplit(qs[r := q], r);
    assert qs[r := q] - {r} == qs - {r};
    if r in qs {
      WeightsSplit(qs, r);
    } else {
      assert qs - {r} == qs;
    }
  }

  lemma {:induction false} WeightsAgree(qs: map<nat, Request>, ps: map<nat, Request>)
    requires qs.Keys == ps.Keys && forall r :: r in qs ==> Weight(qs[r].pc) == Weight(ps[r].pc)
    ensures Weights(qs) == Weights(ps)
    decreases |qs|
  {
    if qs != map[] {
      var r :| r in qs;
      WeightsSplit(qs, r);
      WeightsSplit(ps, r);
      WeightsAgree(qs - {r}, ps - {r});
    } else {
      assert ps == map[];
    }
  }

  /** What is left to do, counting each record as one eviction that may have to be made. */
  ghost function Potential(w: World): nat
  {
    2 * |w.shared.store.records| + Weights(w.requests)
  }

  /** What a step costs in weight, by its operation. */
  lemma WeightStep(env: Env, job: Job, pc: Pc, reply: Reply)
    requires !pc.Done? && Answers(OpOf(job, pc), reply)
    ensures var op, after := OpOf(job, pc), Weight(After(env, job, pc, reply));
      if op.PutMeta? then after + 3 <= Weight(pc)
      else if op.EvictPicked? then after <= Weight(pc) + 1
      else after < Weight(pc)
  {
  }

  lemma RecordsStep(env: Env, owner: nat, op: Op, a: Shared, b: Shared, reply: Reply)
    requires Exec(env, owner, op, a, b, reply)
    requires op.EvictPicked? ==> op.victim in a.store.records
    ensures var before, after := |a.store.records|, |b.store.records|;
      if op.PutMeta? then after <= before + 1
      else if op.EvictPicked? then after + 1 == before
      else after == before
  {
    match op
    case PutMeta(rec, _) => CountAfterUpdate(a.store.records, rec.digest, b.store.records[rec.digest]);
    case EvictPicked(k, _) =>
      assert b.store.records.Keys == a.store.records.Keys - {k};
      assert |a.store.records.Keys| == |a.store.records| && |b.store.records.Keys| == |b.store.records|;
    case TouchMeta(k, _) => assert b.store.records.Keys == a.store.records.Keys;
      assert |a.store.records.Keys| == |a.store.records| && |b.store.records.Keys| == |b.store.records|;
    case MarkMeta(k, _) => assert b.store.records.Keys == a.store.records.Keys;
      assert |a.store.records.Keys| == |a.store.records| && |b.store.records.Keys| == |b.store.records|;
    case _ =>
  }

  lemma CountAfterUpdate(m: map<Key, Record>, k: Key, r: Record)
    ensures |m[k := r]| <= |m| + 1
  {
    assert m[k := r].Keys == m.Keys + {k};
    assert |m.Keys| == |m| && |m[k := r].Keys| == |m[k := r]|;
  }

  /** Every step of an unfinished request uses up potential, the rounds of the eviction loop included. */
  lemma ActLowersPotential(env: Env, w: World, r: nat, w': World)
    requires Base(env, w) && Next(env, w, Act(r), w') && !w.requests[r].pc.Done?
    ensures Potential(w') < Potential(w)
  {
    var reply :| ActOutcome(env, w, r, w', reply);
    var q := w.requests[r];
    var op := OpOf(q.job, q.pc);
    assert LocalOk(env, q.job, q.pc);
    CommitOps(env, q.job, q.pc, reply);
    hide LocalOk, Exec, OpOf, After, LeasesOk, PinsOk, WindowOk, MutexOk;
    assert op.EvictPicked? ==> op.victim in w.shared.store.records;
    WeightStep(env, q.job, q.pc, reply);
    RecordsStep(env, r, op, w.shared, w'.shared, reply);
    WeightsUpdate(w.requests, r, w'.requests[r]);
  }

  lemma DoneStaysDone(env: Env, w: World, r: nat, w': World)
    requires Next(env, w, Act(r), w') && w.requests[r].pc.Done?
    ensures w' == w
  {
  }

  lemma OverwriteKeepsPotential(w: World, k: Key, data: Bytes, hit: set<nat>, w': World)
    requires OverwriteStep(w, k, data, hit, w')
    ensures Potential(w') == Potential(w)
  {
    WeightsAgree(w.requests, w'.requests);
  }

  lemma DeleteKeepsPotential(w: World, k: Key)
    ensures |Delete(w.shared.store, k).records| <= |w.shared.store.records|
  {
    var a, b := w.shared.store.records, Delete(w.shared.store, k).records;
    assert b == a || b.Keys == a.Keys - {k};
    assert |a.Keys| == |a| && |b.Keys| == |b|;
  }

  /** No other event adds potential, but for the arrival of a request. */
  lemma OthersKeepPotential(env: Env, w: World, ev: Event, w': World)
    requires Next(env, w, ev, w') && (ev.Act? ==> w.requests[ev.r].pc.Done?)
    ensures Potential(w') <= Potential(w) + if ev.Arrive? then Weight(Start) else 0
  {
    hide Exec, OverwriteStep, RunsClosure;
    match ev
    case Arrive(r, job) => WeightsUpdate(w.requests, r, Request(job, Start));
    case CallAgain(l) => CallAgainChangesNothing(env, w, l, w');
    case DeleteBlob(k) => DeleteKeepsPotential(w, k);
    case Overwrite(k, data, hit) => OverwriteKeepsPotential(w, k, data, hit, w');
    case Act(r) => DoneStaysDone(env, w, r, w');
    case Replace(_, _) =>
  }

  // -------------------------------------------------------------- bounded runs

  /** The steps unfinished requests took in the first `n` events. */
  ghost function StepsTaken(ws: seq<World>, evs: seq<Event>, n: nat): nat
    requires |ws| == |evs| + 1 && n <= |evs|
  {
    if n == 0 then 0 else
      var ev := evs[n - 1];
      var counts := ev.Act? && ev.r in ws[n - 1].requests && !ws[n - 1].requests[ev.r].pc.Done?;
      StepsTaken(ws, evs, n - 1) + if counts then 1 else 0
  }

  function Arrivals(evs: seq<Event>, n: nat): nat
    requires n <= |evs|
  {
    if n == 0 then 0 else Arrivals(evs, n - 1) + if evs[n - 1].Arrive? then 1 else 0
  }

  lemma {:induction false} PotentialAlongRun(env: Env, ws: seq<World>, evs: seq<Event>, n: nat)
    requires IsRun(env, ws, evs) && QuietRun(ws, evs) && n <= |evs|
    ensures StepsTaken(ws, evs, n) + Potential(ws[n]) <= Potential(ws[0]) + 21 * Arrivals(evs, n)
  {
    hide Next, Potential, Base, Quiet;
    if n > 0 {
      PotentialAlongRun(env, ws, evs, n - 1);
      RunKeepsBase(env, ws, evs, n - 1);
      var w, ev := ws[n - 1], evs[n - 1];
      ActIsOfRequest(env, w, ev, ws[n]);
      if ev.Act? && !w.requests[ev.r].pc.Done? {
        ActLowersPotential(env, w, ev.r, ws[n]);
      } else {
        OthersKeepPotential(env, w, ev, ws[n]);
      }
    }
  }

  lemma ActIsOfRequest(env: Env, w: World, ev: Event, w': World)
    requires Next(env, w, ev, w')
    ensures ev.Act? ==> ev.r in w.requests
  {
  }

  /**
   In every run the requests together take at most 21 steps for each of them, and two for each record
   there was at the start, however they interfere with one another's eviction loops.
   */
  lemma RunsAreBounded(env: Env, ws: seq<World>, evs: seq<Event>)
    requires IsRun(env, ws, evs) && QuietRun(ws, evs)
    ensures StepsTaken(ws, evs, |evs|) <= 21 * Arrivals(evs, |evs|) + 2 * |ws[0].shared.store.records|
  {
    PotentialAlongRun(env, ws, evs, |evs|);
    assert Weights(ws[0].requests) == 0;
  }

  // ---------------------------------------------------------------- no deadlock

  lemma {:induction false} SomeFreshLease(ls: set<nat>) returns (l: nat)
    ensures forall x :: x in ls ==> x < l
    decreases ls
  {
    if ls == {} {
      l := 0;
    } else {
      var x :| x in ls;
      var m := SomeFreshLease(ls - {x});
      l := if x < m then m else x + 1;
      forall y | y in ls ensures y < l {
        if y != x {
          assert y in ls - {x};
        }
      }
    }
  }

  lemma {:induction false} LeastOf(s: Store, ks: set<Key>) returns (k: Key)
    requires ks != {} && ks <= s.records.Keys
    ensures k in ks && forall j :: j in ks ==> s.records[k].lastAccessedAt <= s.records[j].lastAccessedAt
    decreases ks
  {
    var x :| x in ks;
    k := x;
    if ks != {x} {
      var m := LeastOf(s, ks - {x});
      if s.records[m].lastAccessedAt <= s.records[x].lastAccessedAt {
        k := m;
      }
      forall j | j in ks ensures s.records[k].lastAccessedAt <= s.records[j].lastAccessedAt {
        assert j == x || j in ks - {x};
      }
    }
  }

  /** When there is a candidate for eviction, there is an oldest one. */
  lemma OldestExists(s: Store) returns (k: Key)
    requires exists j :: Candidate(s, j)
    ensures Oldest(s, k)
  {
    var ks := set j | j in s.records && !IsPinned(s, j);
    var j :| Candidate(s, j);
    assert j in ks;
    k := LeastOf(s, ks);
    forall i | Candidate(s, i) ensures i in ks {}
  }

  /** Every operation that may run has an outcome. */
  lemma EveryOpAnswers(env: Env, owner: nat, op: Op, a: Shared) returns (b: Shared, reply: Reply)
    requires MayRun(owner, op, a)
    ensures Exec(env, owner, op, a, b, reply)
  {
    b, reply := a, Nothing;
    match op
    case Stat(k) => reply := Size(if k in a.store.blobs then Some(|a.store.blobs[k]|) else None);
    case Open(k) => reply := Content(if k in a.store.blobs then Some(a.store.blobs[k]) else None);
    case TakePin(k) =>
      reply := Leased(None);
      if k in a.store.blobs {
        var l := SomeFreshLease(a.leases.Keys);
        assert l !in a.leases;
        reply := Leased(Some(l));
        b := a.(store := Pin(a.store, k), leases := a.leases[l := Lease(k, owner, Unclosed)]);
      }
    case TryCommit(_, _, _) => b, reply := CommitAnswers(env, owner, op, a);
    case EvictPicked(k, listed) => b := a.(store := EvictListed(a.store, k, listed));
    case FirstCall(l) =>
      var won := l in a.leases && a.leases[l].state == Unclosed;
      reply := Won(won);
      if won {
        b := a.(leases := a.leases[l := a.leases[l].(state := Closing)]);
      }
    case DropPin(l) =>
      if l in a.leases {
        b := a.(store := Unpin(a.store, a.leases[l].key), leases := a.leases[l := a.leases[l].(state := Closed)]);
      }
    case PutMeta(rec, wall) => b := a.(store := PutRecord(a.store, rec, wall));
    case TouchMeta(k, at) => b := a.(store := Touch(a.store, k, at));
    case MarkMeta(k, status) => b := a.(store := SetStatus(a.store, k, status));
    case _ =>
  }

  lemma CommitAnswers(env: Env, owner: nat, op: Op, a: Shared) returns (b: Shared, reply: Reply)
    requires op.TryCommit?
    ensures Answers(op, reply) && CommitRound(env, owner, op, a, b, reply)
  {
    var s := a.store;
    if !op.resumed && op.key in s.blobs {
      b, reply := a, Size(Some(|s.blobs[op.key]|));
    } else if s.currentBytes + |op.data| <= env.maxBytes {
      b, reply := a.(store := AddBlob(s, op.key, op.data), holder := None), Size(Some(|op.data|));
    } else if exists k :: Candidate(s, k) {
      var k := OldestExists(s);
      b, reply := a.(holder := Some(owner)), Picked(k, s.records[k].size);
    } else {
      b, reply := a.(holder := None), Size(None);
    }
  }

  /** As long as some request has not been answered, some unanswered request can take a step. */
  lemma NoDeadlock(env: Env, w: World, r: nat) returns (o: nat, w': World)
    requires Base(env, w) && r in w.requests && !w.requests[r].pc.Done?
    ensures o in w.requests && !w.requests[o].pc.Done? && Next(env, w, Act(o), w')
  {
    o := if w.shared.holder.Some? then w.shared.holder.value else r;
    var q := w.requests[o];
    hide LocalOk, Exec, OpOf, After, LeasesOk, PinsOk, WindowOk;
    var b, reply := EveryOpAnswers(env, o, OpOf(q.job, q.pc), w.shared);
    AnswerFits(env, o, OpOf(q.job, q.pc), w.shared, b, reply);
    w' := World(b, w.requests[o := q.(pc := After(env, q.job, q.pc, reply))]);
    assert ActOutcome(env, w, o, w', reply);
  }

  lemma AnswerFits(env: Env, owner: nat, op: Op, a: Shared, b: Shared, reply: Reply)
    requires Exec(env, owner, op, a, b, reply)
    ensures Answers(op, reply)
  {
  }

  // ------------------------------------------------------ a commit by itself

  /** One record picked and evicted, with nothing in between. */
  ghost predicate Round(env: Env, owner: nat, try: Op, a: Shared, k: Key, b: Shared)
    requires try.TryCommit?
  {
    exists picked: Shared, listed: nat ::
      Exec(env, owner, try, a, picked, Picked(k, listed)) && Exec(env, owner, EvictPicked(k, listed), picked, b, Nothing)
  }

  lemma RoundIsEviction(env: Env, owner: nat, try: Op, a: Shared, k: Key, b: Shared)
    requires try.TryCommit? && (try.resumed || try.key !in a.store.blobs) && Round(env, owner, try, a, k, b)
    ensures a.store.currentBytes + |try.data| > env.maxBytes && Oldest(a.store, k) && b.store == Evict(a.store, k)
  {
  }

  /** From `a` the owner picked and evicted the records `ks` one by one, and nobody else did anything. */
  ghost predicate Rounds(env: Env, owner: nat, key: Key, data: Bytes, a: Shared, ks: seq<Key>, b: Shared)
    decreases |ks|
  {
    if ks == [] then b == a else
      var init, last, try := ks[..|ks| - 1], ks[|ks| - 1], TryCommit(key, data, |ks| > 1);
      exists before :: Rounds(env, owner, key, data, a, init, before) && Round(env, owner, try, before, last, b)
  }

  lemma {:induction false} RoundsAreTrace(env: Env, owner: nat, key: Key, data: Bytes, a: Shared, ks: seq<Key>, b: Shared)
    requires key !in a.store.blobs && Rounds(env, owner, key, data, a, ks, b)
    ensures LruTrace(a.store, ks, |data|, env.maxBytes) && b.store == EvictAll(a.store, ks)
    decreases |ks|
  {
    hide Round, Oldest, Evict;
    if ks != [] {
      var init, last := ks[..|ks| - 1], ks[|ks| - 1];
      var try := TryCommit(key, data, |ks| > 1);
      var before :| Rounds(env, owner, key, data, a, init, before) && Round(env, owner, try, before, last, b);
      RoundsAreTrace(env, owner, key, data, a, init, before);
      RoundIsEviction(env, owner, try, before, last, b);
      assert ks == init + [last];
      ExtendTrace(a.store, init, last, |data|, env.maxBytes);
    }
  }

  /** Left to itself, the loop of the step system is the commit section of the store. */
  lemma UninterruptedCommit(env: Env, owner: nat, key: Key, data: Bytes, a: Shared, ks: seq<Key>, b: Shared, c: Shared, reply: Reply)
    requires key !in a.store.blobs && Rounds(env, owner, key, data, a, ks, b)
    requires Exec(env, owner, TryCommit(key, data, ks != []), b, c, reply) && reply.Size?
    ensures Commits(a.store, key, data, env.maxBytes, ks, c.store, reply.size.Some?)
  {
    RoundsAreTrace(env, owner, key, data, a, ks, b);
  }
}
