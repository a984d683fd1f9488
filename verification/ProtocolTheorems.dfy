/** The guarantees of the quarantine path, for every run of the step system. */
module ProtocolTheorems {
  import opened Prelude
  import opened BlobStore
  import opened Digest
  import opened Protocol
  import opened ProtocolInvariants

  ghost predicate Untampered(evs: seq<Event>)
  {
    forall i :: 0 <= i < |evs| ==> Internal(evs[i])
  }

  /** Every outside write of the run leaves alone what is being released. */
  ghost predicate QuietRun(ws: seq<World>, evs: seq<Event>)
    requires |ws| == |evs| + 1
  {
    forall i :: 0 <= i < |evs| ==> Quiet(ws[i], evs[i])
  }

  lemma UntamperedIsQuiet(ws: seq<World>, evs: seq<Event>)
    requires |ws| == |evs| + 1 && Untampered(evs)
    ensures QuietRun(ws, evs)
  {
    forall i | 0 <= i < |evs| ensures Quiet(ws[i], evs[i]) {
      assert Internal(evs[i]);
    }
  }

  lemma {:induction false} RunKeepsBase(env: Env, ws: seq<World>, evs: seq<Event>, i: nat)
    requires IsRun(env, ws, evs) && QuietRun(ws, evs) && i < |ws|
    ensures Base(env, ws[i])
  {
    hide Next, Quiet;
    if i > 0 {
      RunKeepsBase(env, ws, evs, i - 1);
      NextKeepsBase(env, ws[i - 1], evs[i - 1], ws[i]);
    } else {
      assert forall k :: Unreturned(ws[0].shared.leases, k) == {};
    }
  }

  lemma {:induction false} RunKeepsExact(env: Env, ws: seq<World>, evs: seq<Event>, i: nat)
    requires IsRun(env, ws, evs) && Untampered(evs) && i < |ws|
    ensures Exact(env, ws[i])
  {
    hide Next, Accounted;
    if i > 0 {
      RunKeepsExact(env, ws, evs, i - 1);
      NextKeepsExact(env, ws[i - 1], evs[i - 1], ws[i]);
    } else {
      UntamperedIsQuiet(ws, evs);
      RunKeepsBase(env, ws, evs, 0);
    }
  }

  lemma {:induction false} RunKeepsFull(env: Env, ws: seq<World>, evs: seq<Event>, i: nat)
    requires IsRun(env, ws, evs) && Untampered(evs) && i < |ws|
    requires AllAuthentic(env, ws[0].shared.store)
    ensures Full(env, ws[i])
  {
    hide Next, Exact;
    if i > 0 {
      RunKeepsFull(env, ws, evs, i - 1);
      NextKeepsFull(env, ws[i - 1], evs[i - 1], ws[i]);
    } else {
      RunKeepsExact(env, ws, evs, 0);
    }
  }

  /**
   In every state of every run in which nobody else writes to the blobs directory, the pin
   count of each key is the number of leases on it that were not returned, every such lease's
   blob is on disk, the byte counter is the exact sum of the blob sizes, and so a deletion
   never drives it below zero.  That includes the states in the middle of a commit, when other
   requests have written and touched records since it listed them.
   */
  lemma AccountingIsExact(env: Env, ws: seq<World>, evs: seq<Event>, i: nat)
    requires IsRun(env, ws, evs) && Untampered(evs) && i < |ws|
    ensures var s := ws[i].shared;
      && (forall k :: PinCount(s.store.pins, k) == |Unreturned(s.leases, k)|)
      && (forall l :: l in s.leases && s.leases[l].state != Closed ==> s.leases[l].key in s.store.blobs)
      && s.store.currentBytes == Total(s.store.blobs)
      && (forall k :: k in s.store.blobs ==> s.store.currentBytes - |s.store.blobs[k]| >= 0)
  {
    RunKeepsExact(env, ws, evs, i);
    var store := ws[i].shared.store;
    forall k | k in store.blobs ensures store.currentBytes - |store.blobs[k]| >= 0 {
      DeleteAccounted(store, k);
    }
  }

  lemma RunIsAccounted(env: Env, ws: seq<World>, evs: seq<Event>, i: nat)
    requires IsRun(env, ws, evs) && Untampered(evs) && i < |ws|
    ensures Accounted(ws[i].shared.store)
  {
    RunKeepsExact(env, ws, evs, i);
  }

  lemma StepWithinBudget(env: Env, w: World, ev: Event, w': World)
    requires Accounted(w.shared.store) && Next(env, w, ev, w') && Internal(ev)
    requires w.shared.store.currentBytes <= env.maxBytes
    ensures w'.shared.store.currentBytes <= env.maxBytes
  {
    match ev
    case DeleteBlob(k) => DeleteAccounted(w.shared.store, k);
    case CallAgain(l) => CallAgainChangesNothing(env, w, l, w');
    case _ =>
  }

  /** A store opened within its budget stays within it. */
  lemma {:induction false} BudgetIsRespected(env: Env, ws: seq<World>, evs: seq<Event>, i: nat)
    requires IsRun(env, ws, evs) && Untampered(evs) && i < |ws|
    requires ws[0].shared.store.currentBytes <= env.maxBytes
    ensures ws[i].shared.store.currentBytes <= env.maxBytes
  {
    hide Next, Accounted;
    if i > 0 {
      BudgetIsRespected(env, ws, evs, i - 1);
      RunIsAccounted(env, ws, evs, i - 1);
      StepWithinBudget(env, ws[i - 1], evs[i - 1], ws[i]);
    }
  }

  // ----------------------------------------------------------------- release

  /**
   Whatever else runs, and whatever an outside process writes into the blobs directory, the body of
   a successful response has the digest the request expected, as long as the outside process does
   not replace a file between its second hash and the opening of its stream, and does not write over
   it in place from that hash until the stream is delivered.
   */
  lemma ServedBodyHasExpectedDigest(env: Env, ws: seq<World>, evs: seq<Event>, i: nat, r: nat)
    requires IsRun(env, ws, evs) && QuietRun(ws, evs) && i < |ws| && r in ws[i].requests
    requires ws[i].requests[r].pc.Done? && ws[i].requests[r].pc.response.Served?
    ensures var q := ws[i].requests[r];
      && q.job.integrity.Some? && ParseDigest(q.job.integrity.value).Ok?
      && var d := ParseDigest(q.job.integrity.value).value;
         env.hash(d.algorithm, q.pc.response.body) == d.bytes
  {
    RunKeepsBase(env, ws, evs, i);
    JobsAreParsed(env, ws, evs, i, r);
  }

  /** The second proviso is needed: bytes written over a file while it is streamed are what the client gets. */
  lemma OverwrittenBytesAreDelivered(env: Env, w: World, r: nat, data: Bytes, w': World)
    requires r in w.requests && w.requests[r].pc.Streaming?
    requires Next(env, w, Overwrite(KeyOf(w.requests[r].job), data, {r}), w')
    ensures var q := w'.requests[r];
      After(env, q.job, q.pc, Nothing) == CallUnpin(q.pc.lease, Done(Served(q.pc.accepted, data)))
  {
  }

  lemma {:induction false} JobsAreParsed(env: Env, ws: seq<World>, evs: seq<Event>, i: nat, r: nat)
    requires IsRun(env, ws, evs) && i < |ws| && r in ws[i].requests
    ensures JobOk(ws[i].requests[r].job)
  {
    if i > 0 {
      JobStays(env, ws[i - 1], evs[i - 1], ws[i], r);
      if r in ws[i - 1].requests {
        JobsAreParsed(env, ws, evs, i - 1, r);
      }
    }
  }

  lemma JobStays(env: Env, w: World, ev: Event, w': World, r: nat)
    requires Next(env, w, ev, w') && r in w'.requests
    ensures if r in w.requests then w'.requests[r].job == w.requests[r].job else JobOk(w'.requests[r].job)
  {
    hide Exec, JobOk, RunsClosure;
  }

  /** Two different contents with one digest. */
  predicate Collision(env: Env, algo: string, x: Bytes, y: Bytes)
  {
    x != y && env.hash(algo, x) == env.hash(algo, y)
  }

  ghost predicate CollisionFree(env: Env)
  {
    forall algo, x, y :: !Collision(env, algo, x, y)
  }

  /**
   With the blobs directory left alone, and holding at the start only blobs that have the digest
   they are stored under, a served body is exactly the content this request's inspection accepted,
   or the two are a collision of the hash; the inspection found no dangerous script, and neither
   policy check answered Block or ApprovalRequired.
   */
  lemma ServedBodyIsTheInspectedOne(env: Env, ws: seq<World>, evs: seq<Event>, i: nat, r: nat)
    requires IsRun(env, ws, evs) && Untampered(evs) && i < |ws| && r in ws[i].requests
    requires AllAuthentic(env, ws[0].shared.store)
    requires ws[i].requests[r].pc.Done? && ws[i].requests[r].pc.response.Served?
    ensures var job, resp := ws[i].requests[r].job, ws[i].requests[r].pc.response;
      && job.digest.Some?
      && (resp.body == resp.accepted || Collision(env, job.digest.value.algorithm, resp.accepted, resp.body))
      && (CollisionFree(env) ==> resp.body == resp.accepted)
      && env.inspect(resp.accepted).Report? && !env.inspect(resp.accepted).dangerous
      && (job.pkg != "" && job.pre.Document? ==> job.pre.verdict == Allow || job.pre.verdict == Warn)
      && (job.post.Document? ==> job.post.verdict == Allow || job.post.verdict == Warn)
  {
    var q := ws[i].requests[r];
    assert LocalOk(env, q.job, q.pc) && ReliedOk(env, q) by {
      RunKeepsFull(env, ws, evs, i);
    }
    var x, y := q.pc.response.accepted, q.pc.response.body;
    assert x == y || Collision(env, q.job.digest.value.algorithm, x, y);
  }

  // ------------------------------------------------------- who gets what answer

  /**
   Every response has its cause: the verdict of a policy check, the answer of upstream, the missing or
   unusable integrity, the upload, or the content inspected or released.  (`Explained` spells out each.)
   */
  lemma ResponsesAreExplained(env: Env, ws: seq<World>, evs: seq<Event>, i: nat, r: nat)
    requires IsRun(env, ws, evs) && QuietRun(ws, evs) && i < |ws| && r in ws[i].requests && ws[i].requests[r].pc.Done?
    ensures JobOk(ws[i].requests[r].job) && Explained(env, ws[i].requests[r].job, ws[i].requests[r].pc.response)
  {
    hide Explained, JobOk, IsRun, LeasesOk, PinsOk, MutexOk, VictimsOk, WindowOk;
    RunKeepsBase(env, ws, evs, i);
    JobsAreParsed(env, ws, evs, i, r);
    assert LocalOk(env, ws[i].requests[r].job, ws[i].requests[r].pc);
  }

  /**
   With the blobs directory left alone, and authentic at the start, content is only ever refused that
   has the digest the request expects; no blob is missing at inspection, and no second check fails.
   */
  lemma RefusedContentIsAuthentic(env: Env, ws: seq<World>, evs: seq<Event>, i: nat, r: nat)
    requires IsRun(env, ws, evs) && Untampered(evs) && i < |ws| && r in ws[i].requests
    requires AllAuthentic(env, ws[0].shared.store)
    requires ws[i].requests[r].pc.Done? && ws[i].requests[r].pc.response.Forbidden?
    ensures var job, f := ws[i].requests[r].job, ws[i].requests[r].pc.response.refusal;
      && !f.SecondMismatch?
      && (f.Uninspectable? ==> f.read.Some? && HasDigest(env, job, f.read.value))
      && (f.Dangerous? ==> HasDigest(env, job, f.content))
  {
    RunKeepsFull(env, ws, evs, i);
    assert ReliedOk(env, ws[i].requests[r]);
    hide Exact, IsRun, AllAuthentic, Full;
    ReliedWhenDone(env, ws[i].requests[r]);
  }

  lemma ReliedWhenDone(env: Env, q: Request)
    requires ReliedOk(env, q) && q.pc.Done? && q.pc.response.Forbidden?
    ensures var f := q.pc.response.refusal;
      && !f.SecondMismatch?
      && (f.Uninspectable? ==> f.read.Some? && HasDigest(env, q.job, f.read.value))
      && (f.Dangerous? ==> HasDigest(env, q.job, f.content))
  {
    hide HasDigest, JobOk;
  }

  // The two answers that depend on what else happens in the store.

  /** The blob was there and was taken away before state `n`. */
  ghost predicate Removed(ws: seq<World>, n: nat, k: Key)
    requires n < |ws|
  {
    exists m :: 0 <= m < n && k in ws[m].shared.store.blobs && k !in ws[m + 1].shared.store.blobs
  }

  ghost predicate WasStored(ws: seq<World>, n: nat, k: Key)
    requires n < |ws|
  {
    exists m :: 0 <= m <= n && k in ws[m].shared.store.blobs
  }

  lemma {:induction false} GoneMeansRemoved(ws: seq<World>, n: nat, k: Key)
    requires n < |ws| && WasStored(ws, n, k) && k !in ws[n].shared.store.blobs
    ensures Removed(ws, n, k)
  {
    if k in ws[n - 1].shared.store.blobs {
      assert k !in ws[n - 1 + 1].shared.store.blobs;
    } else {
      var m :| 0 <= m <= n && k in ws[m].shared.store.blobs;
      assert m != n && m != n - 1;
      GoneMeansRemoved(ws, n - 1, k);
      var j :| 0 <= j < n - 1 && k in ws[j].shared.store.blobs && k !in ws[j + 1].shared.store.blobs;
    }
  }

  lemma {:induction false} LaterToo(ws: seq<World>, n: nat, k: Key)
    requires 0 < n < |ws|
    ensures WasStored(ws, n - 1, k) ==> WasStored(ws, n, k)
    ensures Removed(ws, n - 1, k) ==> Removed(ws, n, k)
  {
    if WasStored(ws, n - 1, k) {
      var m :| 0 <= m <= n - 1 && k in ws[m].shared.store.blobs;
    }
    if Removed(ws, n - 1, k) {
      var m :| 0 <= m < n - 1 && k in ws[m].shared.store.blobs && k !in ws[m + 1].shared.store.blobs;
    }
  }

  /** The request has seen its blob in the store. */
  predicate Seen(pc: Pc)
  {
    match pc
    case Start => false
    case IngestHas => false
    case PutStat => false
    case PutCommit => false
    case Evicting(_, _) => false
    case MakingRoom => false
    case RecordMismatch => false
    case Done(_) => false
    case _ => true
  }

  /** The step that sees the blob. */
  lemma SeenStep(env: Env, r: nat, job: Job, pc: Pc, a: Shared, b: Shared, reply: Reply)
    requires Exec(env, r, OpOf(job, pc), a, b, reply) && Seen(After(env, job, pc, reply)) && !Seen(pc)
    ensures KeyOf(job) in a.store.blobs || KeyOf(job) in b.store.blobs
  {
    hide HasDigest, AfterInspection, AfterSecondHash;
  }

  /** The step that misses it. */
  lemma MissStep(env: Env, r: nat, job: Job, pc: Pc, a: Shared, b: Shared, reply: Reply)
    requires Exec(env, r, OpOf(job, pc), a, b, reply)
    requires Decided(After(env, job, pc, reply)) == Some(BadGateway(Vanished)) != Decided(pc)
    ensures Seen(pc) && KeyOf(job) !in a.store.blobs
  {
    hide HasDigest, CommitRound, Staged;
    StagedNeverMisses(env, job);
  }

  lemma StagedNeverMisses(env: Env, job: Job)
    ensures Decided(Staged(env, job)) != Some(BadGateway(Vanished))
  {
    hide HasDigest;
  }

  /** A request that missed its blob had it taken away after it was there. */
  lemma {:induction false} VanishedMeansRemoved(env: Env, ws: seq<World>, evs: seq<Event>, i: nat, r: nat)
    requires IsRun(env, ws, evs) && i < |ws| && r in ws[i].requests
    ensures var q := ws[i].requests[r];
      && (Seen(q.pc) ==> WasStored(ws, i, KeyOf(q.job)))
      && (Decided(q.pc) == Some(BadGateway(Vanished)) ==> Removed(ws, i, KeyOf(q.job)))
  {
    hide Next, JobOk;
    if i > 0 {
      var w, ev, q := ws[i - 1], evs[i - 1], ws[i].requests[r];
      StepOf(env, w, ev, ws[i], r);
      if r in w.requests {
        VanishedMeansRemoved(env, ws, evs, i - 1, r);
        LaterToo(ws, i, KeyOf(q.job));
        if ev == Act(r) {
          var reply :| ActOutcome(env, w, r, ws[i], reply);
          if Seen(q.pc) && !Seen(w.requests[r].pc) {
            SeenStep(env, r, q.job, w.requests[r].pc, w.shared, ws[i].shared, reply);
          }
          if Decided(q.pc) == Some(BadGateway(Vanished)) != Decided(w.requests[r].pc) {
            MissStep(env, r, q.job, w.requests[r].pc, w.shared, ws[i].shared, reply);
          }
          if KeyOf(q.job) !in w.shared.store.blobs && WasStored(ws, i - 1, KeyOf(q.job)) {
            GoneMeansRemoved(ws, i - 1, KeyOf(q.job));
          }
          hide Exec, After, OpOf;
        }
      }
    }
  }

  /** What an event does to one request: its own step, or nothing that shows. */
  lemma StepOf(env: Env, w: World, ev: Event, w': World, r: nat)
    requires Next(env, w, ev, w') && r in w'.requests
    ensures r !in w.requests ==> w'.requests[r].pc == Start
    ensures r in w.requests ==> w'.requests[r].job == w.requests[r].job
    ensures r in w.requests && ev == Act(r) ==> exists reply :: ActOutcome(env, w, r, w', reply)
    ensures r in w.requests && ev != Act(r) ==>
      Seen(w'.requests[r].pc) == Seen(w.requests[r].pc) && Decided(w'.requests[r].pc) == Decided(w.requests[r].pc)
  {
    hide Exec, JobOk, RunsClosure;
  }

  /** Room is what a blob needs beside the ones no eviction can remove. */
  ghost predicate LacksRoom(env: Env, w: World, n: nat)
  {
    n + Total(Protected(w.shared.store)) > env.maxBytes
  }

  lemma FullStep(env: Env, r: nat, job: Job, pc: Pc, a: Shared, b: Shared, reply: Reply)
    requires Exec(env, r, OpOf(job, pc), a, b, reply)
    requires Decided(After(env, job, pc, reply)) == Some(BadGateway(NoRoom)) != Decided(pc)
    ensures a.store.currentBytes + |BodyOf(job)| > env.maxBytes && forall k :: !Candidate(a.store, k)
  {
    hide HasDigest, AfterInspection, AfterSecondHash, Candidate;
    StagedHasRoom(env, job);
  }

  lemma StagedHasRoom(env: Env, job: Job)
    ensures Decided(Staged(env, job)) != Some(BadGateway(NoRoom))
    ensures forall l, d :: Decided(AfterInspection(env, job, l, d)) != Some(BadGateway(NoRoom))
    ensures forall b, l, d :: Decided(AfterSecondHash(env, job, b, l, d)) != Some(BadGateway(NoRoom))
  {
    hide HasDigest;
  }

  lemma FullStore(env: Env, w: World, n: nat)
    requires Accounted(w.shared.store) && w.shared.store.currentBytes + n > env.maxBytes
    requires forall k :: !Candidate(w.shared.store, k)
    ensures LacksRoom(env, w, n)
  {
    var s := w.shared.store;
    assert Protected(s) == s.blobs by {
      forall k | k in s.blobs ensures k in Protected(s) {
        assert !Candidate(s, k);
      }
    }
  }

  /** A request that found no room came when its body did not fit beside the protected blobs. */
  lemma {:induction false} NoRoomMeansFull(env: Env, ws: seq<World>, evs: seq<Event>, i: nat, r: nat)
    requires IsRun(env, ws, evs) && Untampered(evs) && i < |ws| && r in ws[i].requests
    requires Decided(ws[i].requests[r].pc) == Some(BadGateway(NoRoom))
    ensures exists m :: 0 <= m < i && LacksRoom(env, ws[m], |BodyOf(ws[i].requests[r].job)|)
  {
    hide Next, JobOk, LacksRoom;
    if i > 0 {
      var w, ev, q := ws[i - 1], evs[i - 1], ws[i].requests[r];
      StepOf(env, w, ev, ws[i], r);
      if r in w.requests {
        if Decided(w.requests[r].pc) == Decided(q.pc) {
          NoRoomMeansFull(env, ws, evs, i - 1, r);
        } else {
          var reply :| ActOutcome(env, w, r, ws[i], reply);
          RunKeepsExact(env, ws, evs, i - 1);
          FullStep(env, r, q.job, w.requests[r].pc, w.shared, ws[i].shared, reply);
          FullStore(env, w, |BodyOf(q.job)|);
        }
      }
    }
  }

  /**
   A request that deserves its tarball: both policy checks let it pass, upstream delivers the whole
   tarball with the expected digest and within the budget, and inspection has nothing against content
   of that digest.
   */
  ghost predicate Deserves(env: Env, job: Job)
  {
    && (job.pkg == "" || job.pre in {NoEvaluator, NoDocument, Document(Allow), Document(Warn)})
    && job.post in {NoEvaluator, NoDocument, Document(Allow), Document(Warn)}
    && job.upstream.Tarball? && !job.upstream.broken && |job.upstream.body| <= env.maxBytes && !job.hashReadFails
    && job.integrity.Some? && ParseDigest(job.integrity.value).Ok?
    && (var d := ParseDigest(job.integrity.value).value; env.hash(d.algorithm, job.upstream.body) == d.bytes)
    && forall b :: HasDigest(env, job, b) ==> env.inspect(b).Report? && !env.inspect(b).dangerous
  }

  /** The causes that remain for a deserving request. */
  lemma DeservingOutcome(env: Env, job: Job, resp: Response)
    requires JobOk(job) && Deserves(env, job) && Explained(env, job, resp)
    requires resp.Forbidden? ==> var f := resp.refusal;
      && !f.SecondMismatch? && (f.Uninspectable? ==> f.read.Some? && HasDigest(env, job, f.read.value))
      && (f.Dangerous? ==> HasDigest(env, job, f.content))
    ensures resp.Served? || resp == BadGateway(Vanished) || resp == BadGateway(NoRoom)
  {
    hide ParseDigest;
    EmptyIsNoDigest();
  }

  lemma EmptyIsNoDigest()
    ensures ParseDigest("").Err?
  {
  }

  lemma DeservingNarrowed(env: Env, ws: seq<World>, evs: seq<Event>, i: nat, r: nat)
    requires IsRun(env, ws, evs) && Untampered(evs) && i < |ws| && r in ws[i].requests
    requires AllAuthentic(env, ws[0].shared.store) && ws[i].requests[r].pc.Done? && Deserves(env, ws[i].requests[r].job)
    ensures var resp := ws[i].requests[r].pc.response;
      resp.Served? || resp == BadGateway(Vanished) || resp == BadGateway(NoRoom)
  {
    UntamperedIsQuiet(ws, evs);
    hide Explained, Deserves, IsRun, AllAuthentic, JobOk, HasDigest, Quiet, Untampered, QuietRun;
    ResponsesAreExplained(env, ws, evs, i, r);
    if ws[i].requests[r].pc.response.Forbidden? {
      RefusedContentIsAuthentic(env, ws, evs, i, r);
    }
    DeservingOutcome(env, ws[i].requests[r].job, ws[i].requests[r].pc.response);
  }

  /**
   Everyone who deserves it is served: a finished request whose blob was not taken away meanwhile, and
   for whose body there was always room beside the protected blobs, got the tarball, and with a
   collision-free hash exactly the bytes upstream delivered.
   */
  lemma DeservingAreServed(env: Env, ws: seq<World>, evs: seq<Event>, i: nat, r: nat)
    requires IsRun(env, ws, evs) && Untampered(evs) && i < |ws| && r in ws[i].requests
    requires AllAuthentic(env, ws[0].shared.store) && ws[i].requests[r].pc.Done? && Deserves(env, ws[i].requests[r].job)
    requires !Removed(ws, i, KeyOf(ws[i].requests[r].job))
    requires forall m :: 0 <= m < i ==> !LacksRoom(env, ws[m], |ws[i].requests[r].job.upstream.body|)
    ensures var job, resp := ws[i].requests[r].job, ws[i].requests[r].pc.response;
      resp.Served? && (CollisionFree(env) ==> resp == Served(job.upstream.body, job.upstream.body))
  {
    assert BodyOf(ws[i].requests[r].job) == ws[i].requests[r].job.upstream.body;
    hide Deserves, LacksRoom, Removed, IsRun, AllAuthentic, CollisionFree, Untampered, BodyOf, KeyOf;
    DeservingNarrowed(env, ws, evs, i, r);
    NotTurnedAway(env, ws, evs, i, r);
    if CollisionFree(env) {
      ServedIsUpload(env, ws, evs, i, r);
    }
  }

  lemma NotTurnedAway(env: Env, ws: seq<World>, evs: seq<Event>, i: nat, r: nat)
    requires IsRun(env, ws, evs) && Untampered(evs) && i < |ws| && r in ws[i].requests && ws[i].requests[r].pc.Done?
    requires !Removed(ws, i, KeyOf(ws[i].requests[r].job))
    requires forall m :: 0 <= m < i ==> !LacksRoom(env, ws[m], |BodyOf(ws[i].requests[r].job)|)
    ensures ws[i].requests[r].pc.response != BadGateway(Vanished) && ws[i].requests[r].pc.response != BadGateway(NoRoom)
  {
    hide LacksRoom, Removed, IsRun, WasStored, Seen, Untampered, BodyOf, KeyOf;
    VanishedMeansRemoved(env, ws, evs, i, r);
    if ws[i].requests[r].pc.response == BadGateway(NoRoom) {
      NoRoomMeansFull(env, ws, evs, i, r);
    }
  }

  lemma ServedIsUpload(env: Env, ws: seq<World>, evs: seq<Event>, i: nat, r: nat)
    requires IsRun(env, ws, evs) && Untampered(evs) && i < |ws| && r in ws[i].requests && CollisionFree(env)
    requires AllAuthentic(env, ws[0].shared.store) && ws[i].requests[r].pc.Done? && Deserves(env, ws[i].requests[r].job)
    requires ws[i].requests[r].pc.response.Served?
    ensures var job := ws[i].requests[r].job;
      ws[i].requests[r].pc.response == Served(job.upstream.body, job.upstream.body)
  {
    hide ParseDigest;
    var q := ws[i].requests[r];
    UntamperedIsQuiet(ws, evs);
    ResponsesAreExplained(env, ws, evs, i, r);
    ServedBodyIsTheInspectedOne(env, ws, evs, i, r);
    assert !Collision(env, q.job.digest.value.algorithm, q.pc.response.body, q.job.upstream.body);
  }

  // ------------------------------------------------------------------ records

  /** What a request writes into the metadata: its own package and version, and a status that is true. */
  lemma RecordsTellTheTruth(env: Env, w: World, r: nat)
    requires Base(env, w) && r in w.requests
    ensures var q := w.requests[r];
      match OpOf(q.job, q.pc)
      case PutMeta(rec, _) =>
        && rec.digest == KeyOf(q.job) && rec.pkg == q.job.pkg && rec.version == q.job.version
        && rec.createdAt == rec.lastAccessedAt == q.job.ingestClock
        && (if q.pc.RecordMismatch? then rec.size == 0 && rec.status == Blocked
            else q.pc.IngestRecord? && rec.size == q.pc.size && rec.status == Quarantined)
      case MarkMeta(k, status) =>
        && k == KeyOf(q.job)
        && (status == Blocked <==> Decided(q.pc).Some? && ForContent(Decided(q.pc).value))
        && (status == Released <==> q.pc.StreamMark?)
        && (status == Inspected || status == Blocked || status == Released)
      case TouchMeta(k, at) =>
        k == KeyOf(q.job) && at == if q.pc.StreamTouch? then q.job.releaseClock else q.job.ingestClock
      case _ => true
  {
    assert LocalOk(env, w.requests[r].job, w.requests[r].pc);
    hide Explained, LeasesOk, PinsOk, MutexOk, VictimsOk, WindowOk, HasDigest, Accepted, UploadOk;
  }

  function Rest(pc: Pc): Pc
  {
    match pc
    case CallUnpin(_, next) => Rest(next)
    case GiveBack(_, next) => Rest(next)
    case _ => pc
  }

  /** The status a request has left behind for the answer it gives. */
  function Marks(pc: Pc): Option<Status>
  {
    var p := Rest(pc);
    if p.Done? && ForContent(p.response) then Some(Blocked)
    else if (p.Done? && p.response.Served?) || p.StreamTouch? || p.Streaming? then Some(Released)
    else None
  }

  /** The steps that leave a status behind. */
  lemma MarkingSteps(env: Env, job: Job, pc: Pc, reply: Reply)
    requires LocalOk(env, job, pc) && Answers(OpOf(job, pc), reply)
    requires Marks(After(env, job, pc, reply)).Some? && Marks(pc) != Marks(After(env, job, pc, reply))
    ensures var op, status := OpOf(job, pc), Marks(After(env, job, pc, reply)).value;
      op == MarkMeta(KeyOf(job), status) || (op.PutMeta? && op.rec.digest == KeyOf(job) && op.rec.status == status)
  {
    if Undecided(pc) {
      NoMarkYet(env, job, pc, reply);
    } else {
      hide Explained, HasDigest, Accepted, UploadOk, Admitted, Staged, AfterInspection, AfterSecondHash;
      assert forall resp :: Rest(Done(resp)) == Done(resp);
      if pc.InspectMark? {
        assert Rest(pc.next) == pc.next;
      }
    }
  }

  predicate Undecided(pc: Pc)
  {
    pc.Start? || pc.PutStat? || pc.InspectOpen? || pc.VerifyOpen? || pc.VerifyPin? || (Ingesting(pc) && !pc.RecordMismatch?)
  }

  lemma NoMarkYet(env: Env, job: Job, pc: Pc, reply: Reply)
    requires Undecided(pc) && Answers(OpOf(job, pc), reply)
    ensures Marks(After(env, job, pc, reply)).None?
  {
    NoMarkInBranches(env, job);
    hide Admitted, Staged, AfterInspection, AfterSecondHash;
  }

  lemma NoMarkInBranches(env: Env, job: Job)
    ensures Marks(Admitted(job)).None? && Marks(Staged(env, job)).None?
    ensures forall l, d :: Marks(AfterInspection(env, job, l, d)).None?
    ensures forall b, l, d :: Marks(AfterSecondHash(env, job, b, l, d)).None?
  {
    hide HasDigest;
    assert forall resp :: Rest(Done(resp)) == Done(resp);
    assert forall b :: Rest(VerifyMark(b)) == VerifyMark(b);
  }

  lemma MarkStep(env: Env, r: nat, job: Job, pc: Pc, a: Shared, b: Shared, reply: Reply)
    requires Exec(env, r, OpOf(job, pc), a, b, reply) && LocalOk(env, job, pc)
    requires Marks(After(env, job, pc, reply)).Some? && Marks(pc) != Marks(After(env, job, pc, reply))
    ensures KeyOf(job) in b.store.records ==> Some(b.store.records[KeyOf(job)].status) == Marks(After(env, job, pc, reply))
  {
    MarkingSteps(env, job, pc, reply);
    hide LocalOk, OpOf, After, Marks;
  }

  /** At some step of its own the request had set the record of its blob, if there was one, to `status`. */
  ghost predicate MarkedBefore(ws: seq<World>, evs: seq<Event>, n: nat, r: nat, k: Key, status: Status)
    requires |ws| == |evs| + 1 && n <= |evs|
  {
    exists m :: 0 <= m < n && evs[m] == Act(r) &&
      (k in ws[m + 1].shared.store.records ==> ws[m + 1].shared.store.records[k].status == status)
  }

  /** Whoever is refused for the content has marked it Blocked, and whoever is served has marked it Released. */
  lemma {:induction false} AnswersAreMarked(env: Env, ws: seq<World>, evs: seq<Event>, i: nat, r: nat)
    requires IsRun(env, ws, evs) && QuietRun(ws, evs) && i < |ws| && r in ws[i].requests
    requires Marks(ws[i].requests[r].pc).Some?
    ensures MarkedBefore(ws, evs, i, r, KeyOf(ws[i].requests[r].job), Marks(ws[i].requests[r].pc).value)
  {
    hide Next, JobOk, Marks, Quiet;
    if i > 0 {
      var w, ev, q := ws[i - 1], evs[i - 1], ws[i].requests[r];
      StepOf(env, w, ev, ws[i], r);
      MarksOfOthers(env, w, ev, ws[i], r);
      if r in w.requests {
        if Marks(w.requests[r].pc) == Marks(q.pc) {
          AnswersAreMarked(env, ws, evs, i - 1, r);
        } else {
          var reply :| ActOutcome(env, w, r, ws[i], reply);
          RunKeepsBase(env, ws, evs, i - 1);
          assert LocalOk(env, q.job, w.requests[r].pc);
          MarkStep(env, r, q.job, w.requests[r].pc, w.shared, ws[i].shared, reply);
          assert evs[i - 1] == Act(r);
        }
      }
    }
  }

  lemma MarksOfOthers(env: Env, w: World, ev: Event, w': World, r: nat)
    requires Next(env, w, ev, w') && r in w'.requests
    ensures r !in w.requests ==> Marks(w'.requests[r].pc).None?
    ensures r in w.requests && ev != Act(r) ==> Marks(w'.requests[r].pc) == Marks(w.requests[r].pc)
  {
    hide Exec, JobOk, RunsClosure;
  }

  // ------------------------------------------------------------------ leases

  /** A finished request has returned every lease it ever opened, on every exit path. */
  lemma FinishedRequestsOweNothing(env: Env, ws: seq<World>, evs: seq<Event>, i: nat, r: nat, l: nat)
    requires IsRun(env, ws, evs) && QuietRun(ws, evs) && i < |ws| && r in ws[i].requests && ws[i].requests[r].pc.Done?
    requires l in ws[i].shared.leases && ws[i].shared.leases[l].owner == r
    ensures ws[i].shared.leases[l].state == Closed
  {
    RunKeepsBase(env, ws, evs, i);
  }

  function Progress(s: LeaseState): nat
  {
    match s
    case Unclosed => 0
    case Closing => 1
    case Closed => 2
  }

  /**
   A step changes only leases of the request that takes it, and a lease only moves forward: it
   keeps its key and owner, is opened unclosed by its owner, and is never reopened.  Calling a
   closure again, at any time and also while its first call is still giving the pin back, changes
   nothing.
   */
  lemma StepTouchesOwnLeasesOnly(env: Env, w: World, ev: Event, w': World, l: nat)
    requires Base(env, w) && Next(env, w, ev, w')
    ensures l in w.shared.leases ==>
      && l in w'.shared.leases
      && w'.shared.leases[l].key == w.shared.leases[l].key
      && w'.shared.leases[l].owner == w.shared.leases[l].owner
      && Progress(w.shared.leases[l].state) <= Progress(w'.shared.leases[l].state)
      && (w'.shared.leases[l] != w.shared.leases[l] ==> ev == Act(w.shared.leases[l].owner))
    ensures l !in w.shared.leases && l in w'.shared.leases ==>
      ev == Act(w'.shared.leases[l].owner) && w'.shared.leases[l].state == Unclosed
    ensures ev.CallAgain? ==> w' == w
  {
    match ev
    case CallAgain(again) => CallAgainChangesNothing(env, w, again, w');
    case Act(r) =>
      var reply :| ActOutcome(env, w, r, w', reply);
      assert LocalOk(env, w.requests[r].job, w.requests[r].pc);
      StepMovesLease(env, w, r, w', reply);
      hide LocalOk, Exec, MutexOk, VictimsOk, WindowOk, PinsOk, LeaseMove, LeasesOk;
      MoveTouches(w, r, w'.requests[r].pc, w'.shared.leases, l);
    case _ =>
  }

  lemma MoveTouches(w: World, r: nat, pc': Pc, after: map<nat, Lease>, l: nat)
    requires LeasesOk(w) && r in w.requests
    requires LeaseMove(r, KeyOf(w.requests[r].job), w.requests[r].pc, pc', w.shared.leases, after)
    ensures l in w.shared.leases ==>
      && l in after && after[l].key == w.shared.leases[l].key && after[l].owner == w.shared.leases[l].owner
      && Progress(w.shared.leases[l].state) <= Progress(after[l].state)
      && (after[l] != w.shared.leases[l] ==> w.shared.leases[l].owner == r)
    ensures l !in w.shared.leases && l in after ==> after[l].owner == r && after[l].state == Unclosed
  {
  }
}
