/**
 What every step of the quarantine protocol keeps.

 `Base` survives any interleaving, even with an outside process writing into the blobs
 directory, as long as it leaves alone what `Quiet` says.  `Exact` adds the byte accounting, which needs that directory to be left alone, and
 `Full` the authenticity of every blob, which also needs it to start out authentic.
 */
module ProtocolInvariants {
  import opened Prelude
  import opened BlobStore
  import opened Digest
  import opened Protocol

  // ------------------------------------------------------ one request, locally

  predicate PreOk(job: Job)
  {
    job.pkg == "" || (!job.pre.EvaluationFailed? && !Refuses(job.pre))
  }

  predicate PostOk(job: Job)
  {
    !job.post.EvaluationFailed? && !Refuses(job.post)
  }

  predicate Ready(job: Job)
  {
    PreOk(job) && job.upstream.Tarball? && job.digest.Some?
  }

  /** `b` went through static inspection without a finding, and both policy checks let the request pass. */
  ghost predicate Accepted(env: Env, job: Job, b: Bytes)
  {
    PreOk(job) && PostOk(job) && env.inspect(b).Report? && !env.inspect(b).dangerous
  }

  /** The lease a request owes the store at `pc`. */
  function Held(pc: Pc): Option<nat>
  {
    match pc
    case ReuseTouch(l) => Some(l)
    case ReuseGet(l) => Some(l)
    case IngestRecord(_, l) => Some(l)
    case InspectOpen(l) => Some(l)
    case InspectMark(l, _, _) => Some(l)
    case CallUnpin(l, _) => Some(l)
    case GiveBack(l, _) => Some(l)
    case VerifyOpen(_, l) => Some(l)
    case Reopen(_, l, _) => Some(l)
    case StreamMark(_, l, _) => Some(l)
    case StreamTouch(_, l, _) => Some(l)
    case Streaming(_, l, _) => Some(l)
    case _ => None
  }

  function HeldState(pc: Pc): LeaseState
  {
    if pc.GiveBack? then Closing else Unclosed
  }

  /** The bytes whose inspection the request relies on, for or against it. */
  function Relied(pc: Pc): Option<Bytes>
  {
    match pc
    case InspectMark(_, _, next) => Relied(next)
    case CallUnpin(_, next) => Relied(next)
    case GiveBack(_, next) => Relied(next)
    case VerifyPin(b) => Some(b)
    case VerifyOpen(b, _) => Some(b)
    case Reopen(b, _, _) => Some(b)
    case StreamMark(b, _, _) => Some(b)
    case StreamTouch(b, _, _) => Some(b)
    case Streaming(b, _, _) => Some(b)
    case Done(Served(b, _)) => Some(b)
    case Done(Forbidden(Uninspectable(b))) => b
    case Done(Forbidden(Dangerous(b))) => Some(b)
    case _ => None
  }

  /** The response a request is bound to give, once it is decided. */
  function Decided(pc: Pc): Option<Response>
  {
    match pc
    case InspectMark(_, _, next) => Decided(next)
    case CallUnpin(_, next) => Decided(next)
    case GiveBack(_, next) => Decided(next)
    case VerifyMark(b) => Some(Forbidden(SecondMismatch(b)))
    case Done(resp) => Some(resp)
    case _ => None
  }

  /** The upload came through whole, with the expected digest and within the budget. */
  predicate UploadOk(env: Env, job: Job)
  {
    job.upstream.Tarball? && !job.upstream.broken && HasDigest(env, job, job.upstream.body) && |job.upstream.body| <= env.maxBytes
  }

  /** What a response tells about the request, the world outside and the content inspected or released. */
  ghost predicate Explained(env: Env, job: Job, resp: Response)
  {
    match resp
    case PassedOn(code) => PreOk(job) && job.upstream == OtherStatus(code) && code < 500
    case Served(b, e) => Ready(job) && Accepted(env, job, b) && HasDigest(env, job, e) && !job.hashReadFails
    case BadGateway(PolicyFailed) =>
      (job.pkg != "" && job.pre == EvaluationFailed) || (Ready(job) && job.post == EvaluationFailed)
    case BadGateway(FetchFailed) => PreOk(job) && job.upstream == Unreachable
    case BadGateway(UpstreamFailed(code)) => PreOk(job) && job.upstream == OtherStatus(code) && code >= 500
    case BadGateway(BadIntegrity) =>
      PreOk(job) && job.upstream.Tarball? && job.integrity.Some? && job.integrity.value != "" && job.digest.None?
    case BadGateway(BrokenUpload) => Ready(job) && job.upstream.broken
    case BadGateway(TooLarge) => Ready(job) && |job.upstream.body| > env.maxBytes
    case BadGateway(NoRoom) => Ready(job) && UploadOk(env, job)
    case BadGateway(Vanished) => Ready(job)
    case BadGateway(Unreadable) => Ready(job) && job.hashReadFails
    case Forbidden(PolicyRefused(v)) =>
      && (v == Block || v == ApprovalRequired)
      && ((job.pkg != "" && job.pre == Document(v)) || (Ready(job) && job.post == Document(v)))
    case Forbidden(NoIntegrity) =>
      PreOk(job) && job.upstream.Tarball? && (job.integrity.None? || job.integrity.value == "")
    case Forbidden(Mismatch) => Ready(job) && !job.upstream.broken && !HasDigest(env, job, job.upstream.body)
    case Forbidden(Uninspectable(b)) => Ready(job) && (b.None? || env.inspect(b.value).Rejected?)
    case Forbidden(Dangerous(b)) => Ready(job) && env.inspect(b).Report? && env.inspect(b).dangerous
    case Forbidden(SecondMismatch(b)) => Ready(job) && !HasDigest(env, job, b)
  }

  /** Refusals for what the tarball is, not for what the policy says. */
  predicate ForContent(resp: Response)
  {
    resp.Forbidden? && (resp.refusal.Mismatch? || resp.refusal.Uninspectable? || resp.refusal.Dangerous? || resp.refusal.SecondMismatch?)
  }

  /** The request keeps the mutex: it is in the middle of making room. */
  predicate InCommit(pc: Pc)
  {
    pc.Evicting? || pc.MakingRoom?
  }

  ghost predicate LocalOk(env: Env, job: Job, pc: Pc)
  {
    && (!pc.Start? && !pc.Done? ==> Ready(job))
    && match pc
       case PutCommit => UploadOk(env, job)
       case Evicting(_, _) => UploadOk(env, job)
       case MakingRoom => UploadOk(env, job)
       case RecordMismatch => Explained(env, job, Forbidden(Mismatch))
       case InspectMark(_, status, next) =>
         && Held(next).None? && !InCommit(next) && LocalOk(env, job, next)
         && !next.VerifyMark? && !(next.Done? && next.response.Served?)
         && status == if next.Done? && ForContent(next.response) then Blocked else Inspected
       case CallUnpin(_, next) => Held(next).None? && !InCommit(next) && LocalOk(env, job, next)
       case GiveBack(_, next) => Held(next).None? && !InCommit(next) && LocalOk(env, job, next)
       case VerifyPin(b) => Accepted(env, job, b)
       case VerifyOpen(b, _) => Accepted(env, job, b)
       case VerifyMark(b) => !HasDigest(env, job, b)
       case Reopen(b, _, c) => Accepted(env, job, b) && HasDigest(env, job, c) && !job.hashReadFails
       case StreamMark(b, _, e) => Explained(env, job, Served(b, e))
       case StreamTouch(b, _, e) => Explained(env, job, Served(b, e))
       case Streaming(b, _, e) => Explained(env, job, Served(b, e))
       case Done(resp) => Explained(env, job, resp)
       case _ => true
  }

  lemma AdmittedOk(env: Env, job: Job)
    ensures LocalOk(env, job, Admitted(job))
  {
  }

  lemma StagedOk(env: Env, job: Job)
    requires Ready(job)
    ensures LocalOk(env, job, Staged(env, job))
  {
    hide HasDigest;
  }

  lemma InspectionOk(env: Env, job: Job, lease: nat, data: Option<Bytes>)
    requires Ready(job)
    ensures LocalOk(env, job, AfterInspection(env, job, lease, data))
  {
    hide HasDigest;
  }

  lemma SecondHashOk(env: Env, job: Job, accepted: Bytes, lease: nat, data: Option<Bytes>)
    requires Ready(job) && Accepted(env, job, accepted)
    ensures LocalOk(env, job, AfterSecondHash(env, job, accepted, lease, data))
  {
    hide HasDigest;
  }

  lemma LocalStep(env: Env, job: Job, pc: Pc, reply: Reply)
    requires LocalOk(env, job, pc) && Answers(OpOf(job, pc), reply)
    requires pc.Reopen? && reply.data.Some? ==> reply.data.value == pc.verified
    ensures LocalOk(env, job, After(env, job, pc, reply))
  {
    match pc
    case Start => AdmittedOk(env, job);
    case PutStat => StagedOk(env, job);
    case InspectOpen(lease) => InspectionOk(env, job, lease, reply.data);
    case VerifyOpen(accepted, lease) => SecondHashOk(env, job, accepted, lease, reply.data);
    case _ =>
      hide LocalOk, After;
      if Ingesting(pc) {
        IngestStepOk(env, job, pc, reply);
      } else {
        ReleaseStepOk(env, job, pc, reply);
      }
  }

  predicate Ingesting(pc: Pc)
  {
    || pc.IngestHas? || pc.ReusePin? || pc.ReuseTouch? || pc.ReuseGet? || pc.PutCommit? || pc.Evicting? || pc.MakingRoom?
    || pc.RecordMismatch? || pc.IngestPin? || pc.IngestRecord?
  }

  lemma IngestStepOk(env: Env, job: Job, pc: Pc, reply: Reply)
    requires LocalOk(env, job, pc) && Answers(OpOf(job, pc), reply) && Ingesting(pc)
    ensures LocalOk(env, job, After(env, job, pc, reply))
  {
    hide Admitted, Staged, AfterInspection, AfterSecondHash, HasDigest, Accepted, UploadOk;
  }

  lemma ReleaseStepOk(env: Env, job: Job, pc: Pc, reply: Reply)
    requires LocalOk(env, job, pc) && Answers(OpOf(job, pc), reply)
    requires !Ingesting(pc) && !pc.Start? && !pc.PutStat? && !pc.InspectOpen? && !pc.VerifyOpen?
    requires pc.Reopen? && reply.data.Some? ==> reply.data.value == pc.verified
    ensures LocalOk(env, job, After(env, job, pc, reply))
  {
    hide Admitted, Staged, AfterInspection, AfterSecondHash, HasDigest, Accepted, UploadOk;
  }

  // ---------------------------------------------------------- leases and pins

  /** The leases on `k` whose pin has not been given back. */
  function Unreturned(leases: map<nat, Lease>, k: Key): set<nat>
  {
    set l | l in leases && leases[l].key == k && leases[l].state != Closed
  }

  ghost predicate PinsOk(s: Shared)
  {
    && (forall k :: PinCount(s.store.pins, k) == |Unreturned(s.leases, k)|)
    && (forall k :: k in s.store.pins ==> s.store.pins[k] > 0)
  }

  ghost predicate LeasesOk(w: World)
  {
    && (forall r :: r in w.requests && Held(w.requests[r].pc).Some? ==>
          var l := Held(w.requests[r].pc).value;
          && l in w.shared.leases
          && w.shared.leases[l] == Lease(KeyOf(w.requests[r].job), r, HeldState(w.requests[r].pc)))
    && (forall l :: l in w.shared.leases && w.shared.leases[l].state != Closed ==>
          && w.shared.leases[l].owner in w.requests
          && Held(w.requests[w.shared.leases[l].owner].pc) == Some(l))
  }

  lemma TakePinKeepsPins(a: Shared, k: Key, l: nat, owner: nat)
    requires PinsOk(a) && l !in a.leases
    ensures PinsOk(a.(store := Pin(a.store, k), leases := a.leases[l := Lease(k, owner, Unclosed)]))
  {
    var leases := a.leases[l := Lease(k, owner, Unclosed)];
    assert Unreturned(leases, k) == Unreturned(a.leases, k) + {l};
    forall j | j != k ensures Unreturned(leases, j) == Unreturned(a.leases, j) {}
  }

  lemma DropPinKeepsPins(a: Shared, l: nat)
    requires PinsOk(a) && l in a.leases && a.leases[l].state != Closed
    ensures PinsOk(a.(store := Unpin(a.store, a.leases[l].key), leases := a.leases[l := a.leases[l].(state := Closed)]))
  {
    var k := a.leases[l].key;
    var leases := a.leases[l := a.leases[l].(state := Closed)];
    assert l in Unreturned(a.leases, k);
    assert Unreturned(leases, k) == Unreturned(a.leases, k) - {l};
    forall j | j != k ensures Unreturned(leases, j) == Unreturned(a.leases, j) {}
  }

  lemma FirstCallKeepsPins(a: Shared, l: nat)
    requires PinsOk(a) && l in a.leases && a.leases[l].state == Unclosed
    ensures PinsOk(a.(leases := a.leases[l := a.leases[l].(state := Closing)]))
  {
    var leases := a.leases[l := a.leases[l].(state := Closing)];
    forall j ensures Unreturned(leases, j) == Unreturned(a.leases, j) {}
  }

  lemma ExecKeepsPins(env: Env, owner: nat, op: Op, a: Shared, b: Shared, reply: Reply)
    requires PinsOk(a) && Exec(env, owner, op, a, b, reply)
    requires op.DropPin? ==> op.lease in a.leases && a.leases[op.lease].state == Closing
    ensures PinsOk(b)
  {
    match op
    case TakePin(k) =>
      if k in a.store.blobs {
        TakePinKeepsPins(a, k, reply.lease.value, owner);
      }
    case DropPin(l) => DropPinKeepsPins(a, l);
    case FirstCall(l) =>
      if reply.won {
        FirstCallKeepsPins(a, l);
      }
    case _ =>
  }

  /** A lease that is not returned keeps its key pinned. */
  lemma LeaseMeansPinned(s: Shared, l: nat)
    requires PinsOk(s) && l in s.leases && s.leases[l].state != Closed
    ensures IsPinned(s.store, s.leases[l].key)
  {
    assert l in Unreturned(s.leases, s.leases[l].key);
  }

  /** No operation removes a pinned blob, or changes one unless it moves a file over it. */
  lemma PinnedBlobsStay(env: Env, owner: nat, op: Op, a: Shared, b: Shared, reply: Reply, k: Key)
    requires Exec(env, owner, op, a, b, reply)
    requires op.EvictPicked? ==> !IsPinned(a.store, op.victim)
    requires k in a.store.blobs && IsPinned(a.store, k)
    ensures k in b.store.blobs
    ensures !(op.TryCommit? && op.resumed && op.key == k) ==> b.store.blobs[k] == a.store.blobs[k]
  {
  }

  /** How a step changes the lease its request owes. */
  lemma HoldStep(env: Env, job: Job, pc: Pc, reply: Reply)
    requires LocalOk(env, job, pc) && Answers(OpOf(job, pc), reply)
    ensures var op, pc' := OpOf(job, pc), After(env, job, pc, reply);
      match op
      case TakePin(k) => k == KeyOf(job) && Held(pc).None? && Held(pc') == reply.lease && HeldState(pc') == Unclosed
      case FirstCall(l) => Held(pc) == Some(l) && HeldState(pc) == Unclosed &&
        (if reply.won then Held(pc') == Some(l) && HeldState(pc') == Closing else Held(pc').None?)
      case DropPin(l) => Held(pc) == Some(l) && HeldState(pc) == Closing && Held(pc').None?
      case _ => Held(pc') == Held(pc) && HeldState(pc') == HeldState(pc)
  {
    hide Explained, HasDigest, Accepted, UploadOk;
  }

  /** The four things a step of `r` can do to the lease table: nothing, open, start closing, close. */
  ghost predicate LeaseMove(r: nat, key: Key, pc: Pc, pc': Pc, a: map<nat, Lease>, b: map<nat, Lease>)
  {
    || (Held(pc') == Held(pc) && HeldState(pc') == HeldState(pc) && b == a)
    || (&& Held(pc).None? && Held(pc').Some? && Held(pc').value !in a && HeldState(pc') == Unclosed
        && b == a[Held(pc').value := Lease(key, r, Unclosed)])
    || (&& Held(pc).Some? && Held(pc') == Held(pc) && HeldState(pc') == Closing && Held(pc).value in a
        && b == a[Held(pc).value := a[Held(pc).value].(state := Closing)])
    || (&& Held(pc).Some? && Held(pc').None? && Held(pc).value in a
        && b == a[Held(pc).value := a[Held(pc).value].(state := Closed)])
  }

  lemma StepMovesLease(env: Env, w: World, r: nat, w': World, reply: Reply)
    requires LeasesOk(w) && ActOutcome(env, w, r, w', reply)
    requires LocalOk(env, w.requests[r].job, w.requests[r].pc)
    ensures LeaseMove(r, KeyOf(w.requests[r].job), w.requests[r].pc, w'.requests[r].pc, w.shared.leases, w'.shared.leases)
  {
    HoldStep(env, w.requests[r].job, w.requests[r].pc, reply);
  }

  lemma MoveKeepsLeases(w: World, r: nat, pc': Pc, w': World)
    requires LeasesOk(w) && r in w.requests
    requires LeaseMove(r, KeyOf(w.requests[r].job), w.requests[r].pc, pc', w.shared.leases, w'.shared.leases)
    requires w'.requests == w.requests[r := w.requests[r].(pc := pc')]
    ensures LeasesOk(w')
  {
  }

  // ---------------------------------------------------------------- the mutex

  /** The mutex is kept by the request in the middle of its commit, and only by it. */
  ghost predicate MutexOk(w: World)
  {
    && (forall r :: r in w.requests ==> (InCommit(w.requests[r].pc) <==> w.shared.holder == Some(r)))
    && (w.shared.holder.Some? ==> w.shared.holder.value in w.requests)
  }

  /** The record picked for eviction is still there, and still not pinned. */
  ghost predicate VictimsOk(w: World)
  {
    forall r :: r in w.requests && w.requests[r].pc.Evicting? ==>
      Candidate(w.shared.store, w.requests[r].pc.victim)
  }

  lemma ActKeepsMutex(env: Env, w: World, r: nat, w': World, reply: Reply)
    requires MutexOk(w) && ActOutcome(env, w, r, w', reply)
    requires LocalOk(env, w.requests[r].job, w.requests[r].pc)
    ensures MutexOk(w')
  {
    var q := w.requests[r];
    hide LocalOk, Exec;
    MutexStep(env, r, q.job, q.pc, w.shared, w'.shared, reply);
  }

  /** Entering and leaving the middle of a commit goes with taking and releasing the mutex. */
  lemma MutexStep(env: Env, r: nat, job: Job, pc: Pc, a: Shared, b: Shared, reply: Reply)
    requires Exec(env, r, OpOf(job, pc), a, b, reply) && (InCommit(pc) <==> a.holder == Some(r)) && LocalOk(env, job, pc)
    ensures InCommit(After(env, job, pc, reply)) <==> b.holder == Some(r)
    ensures b.holder == a.holder || (a.holder == None && b.holder == Some(r)) || (a.holder == Some(r) && b.holder == None)
  {
    hide Explained, HasDigest, Accepted, UploadOk;
  }

  /** What a request that does not keep the mutex can do to records and pins while another one does. */
  lemma OthersKeepCandidates(env: Env, owner: nat, op: Op, a: Shared, b: Shared, reply: Reply, k: Key)
    requires Exec(env, owner, op, a, b, reply) && a.holder.Some? && a.holder != Some(owner) && Candidate(a.store, k)
    ensures Candidate(b.store, k) && b.store.blobs == a.store.blobs && b.store.pins == a.store.pins
  {
  }

  lemma EnteringEviction(env: Env, r: nat, job: Job, pc: Pc, a: Shared, b: Shared, reply: Reply)
    requires Exec(env, r, OpOf(job, pc), a, b, reply) && After(env, job, pc, reply).Evicting?
    requires LocalOk(env, job, pc)
    ensures var pc' := After(env, job, pc, reply);
      && Candidate(b.store, pc'.victim) && b.store == a.store && a.store.records[pc'.victim].size == pc'.listed
      && (pc.MakingRoom? || (pc.PutCommit? && KeyOf(job) !in a.store.blobs))
  {
    hide Explained, HasDigest, Accepted, UploadOk;
  }

  lemma ActKeepsVictims(env: Env, w: World, r: nat, w': World, reply: Reply)
    requires MutexOk(w) && VictimsOk(w) && ActOutcome(env, w, r, w', reply)
    requires LocalOk(env, w.requests[r].job, w.requests[r].pc)
    ensures VictimsOk(w')
  {
    var q := w.requests[r];
    hide LocalOk, Exec, Candidate;
    forall o | o in w'.requests && w'.requests[o].pc.Evicting?
      ensures Candidate(w'.shared.store, w'.requests[o].pc.victim)
    {
      if o == r {
        EnteringEviction(env, r, q.job, q.pc, w.shared, w'.shared, reply);
      } else {
        OthersKeepCandidates(env, r, OpOf(q.job, q.pc), w.shared, w'.shared, reply, w.requests[o].pc.victim);
      }
    }
  }

  // ------------------------------------------------------- the base invariant

  /** Between the second hash and the release stream the blob on disk is the hashed one, and no commit is under way for it. */
  ghost predicate WindowOk(w: World)
  {
    forall r :: r in w.requests && w.requests[r].pc.Reopen? ==>
      var k := KeyOf(w.requests[r].job);
      && k in w.shared.store.blobs && w.shared.store.blobs[k] == w.requests[r].pc.verified
      && forall o :: o in w.requests && InCommit(w.requests[o].pc) ==> KeyOf(w.requests[o].job) != k
  }

  ghost predicate LocalsOk(env: Env, w: World)
  {
    forall r :: r in w.requests ==> LocalOk(env, w.requests[r].job, w.requests[r].pc)
  }

  ghost predicate Base(env: Env, w: World)
  {
    LocalsOk(env, w) && LeasesOk(w) && PinsOk(w.shared) && MutexOk(w) && VictimsOk(w) && WindowOk(w)
  }

  lemma ArriveKeepsBase(env: Env, w: World, r: nat, job: Job, w': World)
    requires Base(env, w) && Next(env, w, Arrive(r, job), w')
    ensures Base(env, w')
  {
    assert Held(Start).None? && LocalOk(env, job, Start);
    assert w'.shared == w.shared;
    hide LocalOk, PinsOk, Candidate;
    assert LeasesOk(w') by {
      hide MutexOk, VictimsOk, WindowOk;
    }
    assert LocalsOk(env, w') && MutexOk(w') && VictimsOk(w') by {
      hide LeasesOk, WindowOk;
    }
    assert WindowOk(w') by {
      hide LeasesOk, MutexOk, VictimsOk;
    }
  }

  /** An outside write that keeps quiet changes nothing but blobs, and none that is about to be released. */
  lemma QuietWrite(env: Env, w: World, ev: Event, w': World)
    requires Next(env, w, ev, w') && Quiet(w, ev) && !Internal(ev)
    ensures w'.requests == w.requests && w'.shared == WithBlobs(w.shared, w'.shared.store.blobs)
    ensures forall k :: k != ev.key ==>
      (k in w'.shared.store.blobs <==> k in w.shared.store.blobs) &&
      (k in w.shared.store.blobs ==> w'.shared.store.blobs[k] == w.shared.store.blobs[k])
    ensures forall r :: r in w.requests && w.requests[r].pc.Reopen? ==> KeyOf(w.requests[r].job) != ev.key
  {
  }

  lemma WriteKeepsBase(env: Env, w: World, ev: Event, w': World)
    requires Base(env, w) && Next(env, w, ev, w') && Quiet(w, ev) && !Internal(ev)
    ensures Base(env, w')
  {
    QuietWrite(env, w, ev, w');
    hide LocalOk, Next;
  }

  /** The blob a request is about to open again is pinned by the lease the request holds. */
  lemma WindowIsPinned(env: Env, w: World, o: nat)
    requires Base(env, w) && o in w.requests && w.requests[o].pc.Reopen?
    ensures IsPinned(w.shared.store, KeyOf(w.requests[o].job))
  {
    LeaseMeansPinned(w.shared, w.requests[o].pc.lease);
  }

  lemma DeleteKeepsBase(env: Env, w: World, k: Key, w': World)
    requires Base(env, w) && Next(env, w, DeleteBlob(k), w')
    ensures Base(env, w')
  {
    hide LocalOk;
    forall o | o in w.requests && w.requests[o].pc.Reopen? ensures IsPinned(w.shared.store, KeyOf(w.requests[o].job)) {
      WindowIsPinned(env, w, o);
    }
    assert w'.shared.store.pins == w.shared.store.pins && w'.shared.leases == w.shared.leases;
    assert PinsOk(w'.shared);
    assert LeasesOk(w');
    assert MutexOk(w');
  }

  /** Calling a closure again that was called before changes nothing at all. */
  lemma CallAgainChangesNothing(env: Env, w: World, l: nat, w': World)
    requires Next(env, w, CallAgain(l), w')
    ensures w' == w
  {
  }

  /** A request that opens the blob for the release stream gets the content it hashed. */
  lemma ReopenReadsVerified(env: Env, w: World, r: nat, w': World, reply: Reply)
    requires WindowOk(w) && ActOutcome(env, w, r, w', reply)
    ensures w.requests[r].pc.Reopen? && reply.data.Some? ==> reply.data.value == w.requests[r].pc.verified
  {
  }

  lemma EnteringWindow(env: Env, job: Job, pc: Pc, reply: Reply)
    requires LocalOk(env, job, pc) && Answers(OpOf(job, pc), reply) && After(env, job, pc, reply).Reopen?
    ensures OpOf(job, pc) == Open(KeyOf(job)) && reply.data == Some(After(env, job, pc, reply).verified)
  {
  }

  /** The step that ends in the window: nobody is in the middle of a commit, and the blob is as it was hashed. */
  lemma OwnWindow(env: Env, w: World, r: nat, w': World, reply: Reply)
    requires Base(env, w) && ActOutcome(env, w, r, w', reply) && w'.requests[r].pc.Reopen?
    ensures w'.shared == w.shared && forall o :: o in w'.requests ==> !InCommit(w'.requests[o].pc)
    ensures var k := KeyOf(w.requests[r].job);
      k in w.shared.store.blobs && w.shared.store.blobs[k] == w'.requests[r].pc.verified
  {
    EnteringWindow(env, w.requests[r].job, w.requests[r].pc, reply);
    hide LocalOk;
  }

  /** Another request's step leaves the window of `o` as it is. */
  lemma OthersWindow(env: Env, w: World, r: nat, w': World, reply: Reply, o: nat)
    requires Base(env, w) && ActOutcome(env, w, r, w', reply) && o != r
    requires o in w.requests && w.requests[o].pc.Reopen?
    ensures var k := KeyOf(w.requests[o].job);
      && k in w'.shared.store.blobs && w'.shared.store.blobs[k] == w.requests[o].pc.verified
      && (InCommit(w'.requests[r].pc) ==> KeyOf(w.requests[r].job) != k)
  {
    var q := w.requests[r];
    var op, k := OpOf(q.job, q.pc), KeyOf(w.requests[o].job);
    assert LocalOk(env, q.job, q.pc);
    CommitOps(env, q.job, q.pc, reply);
    if w'.requests[r].pc.Evicting? {
      EnteringEviction(env, r, q.job, q.pc, w.shared, w'.shared, reply);
    }
    WindowIsPinned(env, w, o);
    hide LocalOk, Exec, OpOf, LeasesOk, PinsOk;
    PinnedBlobsStay(env, r, op, w.shared, w'.shared, reply, k);
  }

  /** Which steps belong to a commit under way. */
  lemma CommitOps(env: Env, job: Job, pc: Pc, reply: Reply)
    requires LocalOk(env, job, pc) && Answers(OpOf(job, pc), reply)
    ensures var op := OpOf(job, pc);
      && (op.EvictPicked? ==> pc == Evicting(op.victim, op.listed))
      && (op.TryCommit? ==> op.key == KeyOf(job) && (op.resumed ==> pc.MakingRoom?))
    ensures After(env, job, pc, reply).MakingRoom? ==> pc.Evicting?
  {
  }

  lemma ActKeepsWindow(env: Env, w: World, r: nat, w': World, reply: Reply)
    requires Base(env, w) && ActOutcome(env, w, r, w', reply)
    ensures WindowOk(w')
  {
    hide Exec, LocalsOk, LeasesOk, PinsOk, MutexOk, VictimsOk;
    if w'.requests[r].pc.Reopen? {
      OwnWindow(env, w, r, w', reply);
    }
    forall o | o in w'.requests && o != r && w'.requests[o].pc.Reopen?
      ensures var k := KeyOf(w'.requests[o].job);
        && k in w'.shared.store.blobs && w'.shared.store.blobs[k] == w'.requests[o].pc.verified
        && (InCommit(w'.requests[r].pc) ==> KeyOf(w.requests[r].job) != k)
    {
      OthersWindow(env, w, r, w', reply, o);
    }
  }

  lemma ActKeepsBase(env: Env, w: World, r: nat, w': World, reply: Reply)
    requires Base(env, w) && ActOutcome(env, w, r, w', reply)
    ensures Base(env, w')
  {
    var q := w.requests[r];
    assert LocalOk(env, q.job, q.pc);
    ReopenReadsVerified(env, w, r, w', reply);
    LocalStep(env, q.job, q.pc, reply);
    HoldStep(env, q.job, q.pc, reply);
    hide LocalOk, Exec, PinsOk;
    StepMovesLease(env, w, r, w', reply);
    MoveKeepsLeases(w, r, w'.requests[r].pc, w');
    ExecKeepsPins(env, r, OpOf(q.job, q.pc), w.shared, w'.shared, reply);
    ActKeepsMutex(env, w, r, w', reply);
    ActKeepsVictims(env, w, r, w', reply);
    ActKeepsWindow(env, w, r, w', reply);
  }

  lemma NextKeepsBase(env: Env, w: World, ev: Event, w': World)
    requires Base(env, w) && Next(env, w, ev, w') && Quiet(w, ev)
    ensures Base(env, w')
  {
    hide Base, Quiet;
    match ev
    case Arrive(r, job) => ArriveKeepsBase(env, w, r, job, w');
    case DeleteBlob(k) => DeleteKeepsBase(env, w, k, w');
    case CallAgain(l) => CallAgainChangesNothing(env, w, l, w');
    case Replace(_, _) => WriteKeepsBase(env, w, ev, w');
    case Overwrite(_, _, _) => WriteKeepsBase(env, w, ev, w');
    case Act(r) =>
      var reply :| ActOutcome(env, w, r, w', reply);
      ActKeepsBase(env, w, r, w', reply);
  }

  // -------------------------------------------------- the stronger invariants

  ghost predicate OnDisk(s: Shared)
  {
    forall l :: l in s.leases && s.leases[l].state != Closed ==> s.leases[l].key in s.store.blobs
  }

  ghost predicate AllAuthentic(env: Env, s: Store)
  {
    forall k :: k in s.blobs ==> Authentic(env, k, s.blobs[k])
  }

  ghost predicate ReliedOk(env: Env, q: Request)
  {
    && JobOk(q.job) && (Relied(q.pc).Some? ==> HasDigest(env, q.job, Relied(q.pc).value))
    && Decided(q.pc) != Some(Forbidden(Uninspectable(None)))
    && !(Decided(q.pc).Some? && Decided(q.pc).value.Forbidden? && Decided(q.pc).value.refusal.SecondMismatch?)
  }

  /** A commit under way is for a blob that is not there, and a listed size stands for a blob that is. */
  ghost predicate CommitsOk(w: World)
  {
    forall r :: r in w.requests && InCommit(w.requests[r].pc) ==>
      && KeyOf(w.requests[r].job) !in w.shared.store.blobs
      && (w.requests[r].pc.Evicting? && w.requests[r].pc.listed > 0 ==> w.requests[r].pc.victim in w.shared.store.blobs)
  }

  ghost predicate Exact(env: Env, w: World)
  {
    Base(env, w) && Accounted(w.shared.store) && OnDisk(w.shared) && CommitsOk(w)
  }

  ghost predicate Full(env: Env, w: World)
  {
    && Exact(env, w) && AllAuthentic(env, w.shared.store)
    && forall r :: r in w.requests ==> ReliedOk(env, w.requests[r])
  }

  /** The key of a request names exactly the digest the request expects. */
  lemma KeyNamesDigest(env: Env, job: Job, b: Bytes)
    requires JobOk(job) && job.digest.Some?
    ensures Authentic(env, KeyOf(job), b) <==> HasDigest(env, job, b)
  {
    ReparseGivesBack(job.integrity.value);
  }

  lemma ExecKeepsOnDisk(env: Env, owner: nat, op: Op, a: Shared, b: Shared, reply: Reply)
    requires PinsOk(a) && OnDisk(a) && Exec(env, owner, op, a, b, reply)
    requires op.EvictPicked? ==> !IsPinned(a.store, op.victim)
    ensures OnDisk(b)
  {
    forall l | l in a.leases && a.leases[l].state != Closed
      ensures a.leases[l].key in b.store.blobs
    {
      LeaseMeansPinned(a, l);
      PinnedBlobsStay(env, owner, op, a, b, reply, a.leases[l].key);
    }
  }

  /** What the accounting asks of an operation. */
  ghost predicate Backed(op: Op, s: Store)
  {
    && (op.PutMeta? && op.rec.size > 0 ==> op.rec.digest in s.blobs)
    && (op.EvictPicked? && op.listed > 0 ==> op.victim in s.blobs)
    && (op.TryCommit? && op.resumed ==> op.key !in s.blobs)
  }

  lemma ExecKeepsAccounted(env: Env, owner: nat, op: Op, a: Shared, b: Shared, reply: Reply)
    requires Accounted(a.store) && Exec(env, owner, op, a, b, reply) && Backed(op, a.store)
    ensures Accounted(b.store)
  {
    if op.EvictPicked? {
      EvictAccounted(a.store, op.victim, op.listed);
    } else if op.TryCommit? && op.key !in a.store.blobs {
      TotalAdd(a.store.blobs, op.key, op.data);
    }
  }

  lemma ExecKeepsAuthentic(env: Env, owner: nat, op: Op, a: Shared, b: Shared, reply: Reply)
    requires AllAuthentic(env, a.store) && Exec(env, owner, op, a, b, reply)
    requires op.TryCommit? ==> Authentic(env, op.key, op.data)
    ensures AllAuthentic(env, b.store)
  {
    hide Authentic;
  }

  /** What a request relies on never changes, except when it has just inspected a blob. */
  lemma ReliedStep(env: Env, job: Job, pc: Pc, reply: Reply)
    requires LocalOk(env, job, pc) && Answers(OpOf(job, pc), reply)
    ensures var pc' := After(env, job, pc, reply);
      || Relied(pc').None? || Relied(pc') == Relied(pc)
      || (pc.InspectOpen? && Relied(pc') == reply.data)
  {
  }

  /** A decision stands; the two that no authentic store leads to are taken where a blob is read. */
  lemma DecidedStep(env: Env, job: Job, pc: Pc, reply: Reply)
    requires LocalOk(env, job, pc) && Answers(OpOf(job, pc), reply)
    ensures var d := Decided(After(env, job, pc, reply));
      && (Decided(pc).Some? ==> d == Decided(pc))
      && (d == Some(Forbidden(Uninspectable(None))) ==> d == Decided(pc) || (pc.InspectOpen? && reply.data.None?))
      && (d.Some? && d.value.Forbidden? && d.value.refusal.SecondMismatch? ==>
            d == Decided(pc) || (pc.VerifyOpen? && reply.data.Some? && !HasDigest(env, job, reply.data.value)))
  {
    hide Explained, HasDigest, Accepted, UploadOk;
  }

  /** A leased blob that is opened is there, with the digest the request expects. */
  lemma LeasedReads(env: Env, w: World, r: nat, w': World, reply: Reply)
    requires Full(env, w) && ActOutcome(env, w, r, w', reply)
    requires w.requests[r].pc.InspectOpen? || w.requests[r].pc.VerifyOpen?
    ensures reply.Content? && reply.data.Some? && HasDigest(env, w.requests[r].job, reply.data.value)
  {
    var q := w.requests[r];
    assert LocalOk(env, q.job, q.pc);
    assert w.shared.leases[q.pc.lease] == Lease(KeyOf(q.job), r, Unclosed);
    KeyNamesDigest(env, q.job, w.shared.store.blobs[KeyOf(q.job)]);
  }

  lemma ActKeepsRelied(env: Env, w: World, r: nat, w': World, reply: Reply)
    requires Full(env, w) && ActOutcome(env, w, r, w', reply)
    ensures ReliedOk(env, w'.requests[r])
  {
    var q := w.requests[r];
    assert LocalOk(env, q.job, q.pc) && ReliedOk(env, q);
    ReliedStep(env, q.job, q.pc, reply);
    DecidedStep(env, q.job, q.pc, reply);
    if q.pc.InspectOpen? || q.pc.VerifyOpen? {
      LeasedReads(env, w, r, w', reply);
    }
    hide Full, LocalOk, Exec, After, OpOf, HasDigest;
  }

  /** Records that claim bytes are written under a lease, and a commit goes on with what it found. */
  lemma OpIsBacked(env: Env, w: World, r: nat)
    requires Exact(env, w) && r in w.requests
    ensures Backed(OpOf(w.requests[r].job, w.requests[r].pc), w.shared.store)
  {
    hide LocalOk;
    var q := w.requests[r];
    if q.pc.IngestRecord? {
      assert w.shared.leases[q.pc.lease] == Lease(KeyOf(q.job), r, Unclosed);
    }
  }

  /** Only bytes with the right digest are committed. */
  lemma CommitsAreAuthentic(env: Env, w: World, r: nat)
    requires Full(env, w) && r in w.requests
    ensures var op := OpOf(w.requests[r].job, w.requests[r].pc);
      op.TryCommit? ==> Authentic(env, op.key, op.data)
  {
    var q := w.requests[r];
    assert LocalOk(env, q.job, q.pc);
    if q.pc.PutCommit? || q.pc.MakingRoom? {
      KeyNamesDigest(env, q.job, q.job.upstream.body);
    }
  }

  lemma ActKeepsCommits(env: Env, w: World, r: nat, w': World, reply: Reply)
    requires Exact(env, w) && ActOutcome(env, w, r, w', reply)
    ensures CommitsOk(w')
  {
    var q := w.requests[r];
    assert LocalOk(env, q.job, q.pc);
    if w'.requests[r].pc.Evicting? {
      EnteringEviction(env, r, q.job, q.pc, w.shared, w'.shared, reply);
    }
    if w'.requests[r].pc.MakingRoom? {
      CommitOps(env, q.job, q.pc, reply);
    }
    hide LocalOk, LeasesOk, PinsOk, WindowOk, After, OnDisk;
    assert InCommit(w'.requests[r].pc) ==> KeyOf(q.job) !in w'.shared.store.blobs;
    forall o | o in w.requests && o != r && InCommit(w.requests[o].pc)
      ensures w'.shared.store.blobs == w.shared.store.blobs
    {
      OthersKeepBlobs(env, r, OpOf(q.job, q.pc), w.shared, w'.shared, reply);
    }
    hide Exec;
  }

  lemma OthersKeepBlobs(env: Env, owner: nat, op: Op, a: Shared, b: Shared, reply: Reply)
    requires Exec(env, owner, op, a, b, reply) && a.holder.Some? && a.holder != Some(owner)
    ensures b.store.blobs == a.store.blobs
  {
  }

  lemma ActKeepsExact(env: Env, w: World, r: nat, w': World, reply: Reply)
    requires Exact(env, w) && ActOutcome(env, w, r, w', reply)
    ensures Exact(env, w')
  {
    var q := w.requests[r];
    var op := OpOf(q.job, q.pc);
    assert op.EvictPicked? ==> !IsPinned(w.shared.store, op.victim);
    hide LocalOk, Exec, Accounted, OnDisk, PinsOk, LeasesOk;
    ActKeepsBase(env, w, r, w', reply);
    ActKeepsCommits(env, w, r, w', reply);
    OpIsBacked(env, w, r);
    ExecKeepsOnDisk(env, r, op, w.shared, w'.shared, reply);
    ExecKeepsAccounted(env, r, op, w.shared, w'.shared, reply);
  }

  lemma DeleteKeepsExact(env: Env, w: World, k: Key, w': World)
    requires Exact(env, w) && Next(env, w, DeleteBlob(k), w')
    ensures Exact(env, w')
  {
    hide LocalOk;
    DeleteKeepsBase(env, w, k, w');
    DeleteAccounted(w.shared.store, k);
    forall l | l in w.shared.leases && w.shared.leases[l].state != Closed
      ensures w.shared.leases[l].key in w'.shared.store.blobs
    {
      LeaseMeansPinned(w.shared, l);
    }
  }

  lemma NextKeepsExact(env: Env, w: World, ev: Event, w': World)
    requires Exact(env, w) && Next(env, w, ev, w') && Internal(ev)
    ensures Exact(env, w')
  {
    hide Base, Accounted;
    match ev
    case Arrive(r, job) => ArriveKeepsBase(env, w, r, job, w');
    case DeleteBlob(k) => DeleteKeepsExact(env, w, k, w');
    case CallAgain(l) => CallAgainChangesNothing(env, w, l, w');
    case Act(r) =>
      var reply :| ActOutcome(env, w, r, w', reply);
      ActKeepsExact(env, w, r, w', reply);
  }

  lemma NextKeepsFull(env: Env, w: World, ev: Event, w': World)
    requires Full(env, w) && Next(env, w, ev, w') && Internal(ev)
    ensures Full(env, w')
  {
    hide Exact, HasDigest, Authentic;
    NextKeepsExact(env, w, ev, w');
    match ev
    case Act(r) =>
      var reply :| ActOutcome(env, w, r, w', reply);
      CommitsAreAuthentic(env, w, r);
      ExecKeepsAuthentic(env, r, OpOf(w.requests[r].job, w.requests[r].pc), w.shared, w'.shared, reply);
      ActKeepsRelied(env, w, r, w', reply);
    case CallAgain(l) => CallAgainChangesNothing(env, w, l, w');
    case _ =>
  }
}
