/**
 The quarantine path of the gateway as a step system.

 A request runs handleQuarantinedTarball together with the quarantine manager's Ingest,
 Inspect and VerifyAndRelease.  Its program is given by `OpOf`, the next operation it
 performs on the shared state, and `After`, where it goes once that operation has answered.

 Operations are atomic: a section under the store's mutex, one metadata call, or the
 compare-and-swap of an unpin closure.  A commit that has to evict makes metadata calls while it
 holds the mutex; it is cut at those calls, so that other requests' metadata calls and first calls
 of closures fall between listing the records and deleting one.  Any number of requests interleave.
 */
module Protocol {
  import opened Prelude
  import opened BlobStore
  import opened Digest

  // ----------------------------------------------------- what a request brings

  datatype PolicyReply = NoEvaluator | EvaluationFailed | NoDocument | Document(verdict: Verdict)

  datatype Upstream = Unreachable | OtherStatus(code: int) | Tarball(body: Bytes, broken: bool)

  /** What static inspection of a tarball says. */
  datatype Finding = Rejected | Report(dangerous: bool, truncated: bool)

  /** The hash, the static inspector and the disk budget. */
  datatype Env = Env(hash: (string, Bytes) -> Bytes, inspect: Bytes -> Finding, maxBytes: int)

  /** A request with everything the outside world will answer it, and the digest it has to match. */
  datatype Job = Job(pkg: string, version: string, pre: PolicyReply, upstream: Upstream,
                     integrity: Option<string>, digest: Option<ParsedDigest>, post: PolicyReply,
                     hashReadFails: bool, ingestClock: int, releaseClock: int, wallClock: int)

  /** Why a request is refused with 403, as the decision document written for it says. */
  datatype Refusal =
    | PolicyRefused(verdict: Verdict)
    | NoIntegrity
    | Mismatch
    | Uninspectable(read: Option<Bytes>)
    | Dangerous(content: Bytes)
    | SecondMismatch(content: Bytes)

  /** Why a request fails with 502. */
  datatype Failure =
    | PolicyFailed | FetchFailed | UpstreamFailed(code: int) | BadIntegrity
    | BrokenUpload | TooLarge | NoRoom | Vanished | Unreadable

  datatype Response =
    | BadGateway(failure: Failure)
    | Forbidden(refusal: Refusal)
    | PassedOn(code: int)
    | Served(accepted: Bytes, body: Bytes)

  predicate Refuses(p: PolicyReply)
  {
    p.Document? && (p.verdict == Block || p.verdict == ApprovalRequired)
  }

  /** `digest` is what parsing the expected integrity gives. */
  predicate JobOk(job: Job)
  {
    job.digest ==
    if job.integrity.None? then None else
      var parsed := ParseDigest(job.integrity.value);
      if parsed.Ok? then Some(parsed.value) else None
  }

  function KeyOf(job: Job): Key
  {
    if job.digest.Some? then Digest.Key(job.digest.value) else ""
  }

  /** `b` has the digest the request expects. */
  predicate HasDigest(env: Env, job: Job, b: Bytes)
  {
    job.digest.Some? && env.hash(job.digest.value.algorithm, b) == job.digest.value.bytes
  }

  // ------------------------------------------------------------ the program

  datatype Pc =
    | Start
    | IngestHas
    | ReusePin
    | ReuseTouch(lease: nat)
    | ReuseGet(lease: nat)
    | PutStat
    | PutCommit
    | Evicting(victim: Key, listed: nat)
    | MakingRoom
    | RecordMismatch
    | IngestPin(size: nat)
    | IngestRecord(size: nat, lease: nat)
    | InspectOpen(lease: nat)
    | InspectMark(lease: nat, status: Status, next: Pc)
    | CallUnpin(lease: nat, next: Pc)
    | GiveBack(lease: nat, next: Pc)
    | VerifyPin(accepted: Bytes)
    | VerifyOpen(accepted: Bytes, lease: nat)
    | VerifyMark(released: Bytes)
    | Reopen(accepted: Bytes, lease: nat, verified: Bytes)
    | StreamMark(accepted: Bytes, lease: nat, body: Bytes)
    | StreamTouch(accepted: Bytes, lease: nat, body: Bytes)
    | Streaming(accepted: Bytes, lease: nat, body: Bytes)
    | Done(response: Response)

  datatype Op =
    | NoOp
    | Stat(key: Key)
    | Open(key: Key)
    | TakePin(key: Key)
    | TryCommit(key: Key, data: Bytes, resumed: bool)
    | EvictPicked(victim: Key, listed: nat)
    | FirstCall(lease: nat)
    | DropPin(lease: nat)
    | PutMeta(rec: Record, wallClock: int)
    | GetMeta(key: Key)
    | TouchMeta(key: Key, at: int)
    | MarkMeta(key: Key, status: Status)

  datatype Reply =
    | Nothing
    | Size(size: Option<nat>)
    | Content(data: Option<Bytes>)
    | Leased(lease: Option<nat>)
    | Picked(victim: Key, listed: nat)
    | Won(won: bool)

  function NewRecord(job: Job, size: nat, status: Status): Record
  {
    Record(KeyOf(job), job.pkg, job.version, size, status, job.ingestClock, job.ingestClock)
  }

  /** The bytes a request brings from upstream. */
  function BodyOf(job: Job): Bytes
  {
    if job.upstream.Tarball? then job.upstream.body else []
  }

  function OpOf(job: Job, pc: Pc): Op
  {
    var key := KeyOf(job);
    match pc
    case Start => NoOp
    case IngestHas => Stat(key)
    case ReusePin => TakePin(key)
    case ReuseTouch(_) => TouchMeta(key, job.ingestClock)
    case ReuseGet(_) => GetMeta(key)
    case PutStat => Stat(key)
    case PutCommit => TryCommit(key, BodyOf(job), false)
    case Evicting(victim, listed) => EvictPicked(victim, listed)
    case MakingRoom => TryCommit(key, BodyOf(job), true)
    case RecordMismatch => PutMeta(NewRecord(job, 0, Blocked), job.wallClock)
    case IngestPin(_) => TakePin(key)
    case IngestRecord(size, _) => PutMeta(NewRecord(job, size, Quarantined), job.wallClock)
    case InspectOpen(_) => Open(key)
    case InspectMark(_, status, _) => MarkMeta(key, status)
    case CallUnpin(lease, _) => FirstCall(lease)
    case GiveBack(lease, _) => DropPin(lease)
    case VerifyPin(_) => TakePin(key)
    case VerifyOpen(_, _) => Open(key)
    case VerifyMark(_) => MarkMeta(key, Blocked)
    case Reopen(_, _, _) => Open(key)
    case StreamMark(_, _, _) => MarkMeta(key, Released)
    case StreamTouch(_, _, _) => TouchMeta(key, job.releaseClock)
    case Streaming(_, _, _) => NoOp
    case Done(_) => NoOp
  }

  /** Policy check before the fetch, the fetch, the expected integrity, and its parsing by Ingest. */
  function Admitted(job: Job): Pc
  {
    if job.pkg != "" && job.pre.EvaluationFailed? then Done(BadGateway(PolicyFailed))
    else if job.pkg != "" && Refuses(job.pre) then Done(Forbidden(PolicyRefused(job.pre.verdict)))
    else match job.upstream
      case Unreachable => Done(BadGateway(FetchFailed))
      case OtherStatus(code) => if code >= 500 then Done(BadGateway(UpstreamFailed(code))) else Done(PassedOn(code))
      case Tarball(_, _) =>
        if job.integrity.None? || job.integrity.value == "" then Done(Forbidden(NoIntegrity))
        else if job.digest.None? then Done(BadGateway(BadIntegrity))
        else IngestHas
  }

  /** The staged body, hashed while it is written, and its size check. */
  function Staged(env: Env, job: Job): Pc
  {
    if !job.upstream.Tarball? || job.upstream.broken then Done(BadGateway(BrokenUpload))
    else if !HasDigest(env, job, job.upstream.body) then RecordMismatch
    else if |job.upstream.body| > env.maxBytes then Done(BadGateway(TooLarge))
    else PutCommit
  }

  /** The policy check that follows an inspection without findings. */
  function Cleared(job: Job, accepted: Bytes): Pc
  {
    if job.post.EvaluationFailed? then Done(BadGateway(PolicyFailed))
    else if Refuses(job.post) then Done(Forbidden(PolicyRefused(job.post.verdict)))
    else VerifyPin(accepted)
  }

  function AfterInspection(env: Env, job: Job, lease: nat, data: Option<Bytes>): Pc
  {
    if data.None? then InspectMark(lease, Blocked, Done(Forbidden(Uninspectable(None))))
    else match env.inspect(data.value)
      case Rejected => InspectMark(lease, Blocked, Done(Forbidden(Uninspectable(data))))
      case Report(dangerous, _) =>
        if dangerous then InspectMark(lease, Blocked, Done(Forbidden(Dangerous(data.value))))
        else InspectMark(lease, Inspected, Cleared(job, data.value))
  }

  /** The second digest check, over what is on disk now. */
  function AfterSecondHash(env: Env, job: Job, accepted: Bytes, lease: nat, data: Option<Bytes>): Pc
  {
    if data.None? then CallUnpin(lease, Done(BadGateway(Vanished)))
    else if job.hashReadFails then CallUnpin(lease, Done(BadGateway(Unreadable)))
    else if !HasDigest(env, job, data.value) then CallUnpin(lease, VerifyMark(data.value))
    else Reopen(accepted, lease, data.value)
  }

  /** Stored, or out of room with nothing left to evict, or one more record to evict. */
  function AfterCommit(reply: Reply): Pc
    requires reply.Size? || reply.Picked?
  {
    match reply
    case Picked(victim, listed) => Evicting(victim, listed)
    case Size(size) => if size.Some? then IngestPin(size.value) else Done(BadGateway(NoRoom))
  }

  function After(env: Env, job: Job, pc: Pc, reply: Reply): Pc
    requires Answers(OpOf(job, pc), reply)
  {
    match pc
    case Start => Admitted(job)
    case IngestHas => if reply.size.Some? then ReusePin else PutStat
    case ReusePin => if reply.lease.Some? then ReuseTouch(reply.lease.value) else Done(BadGateway(Vanished))
    case ReuseTouch(lease) => ReuseGet(lease)
    case ReuseGet(lease) => InspectOpen(lease)
    case PutStat => if reply.size.Some? then IngestPin(reply.size.value) else Staged(env, job)
    case PutCommit => AfterCommit(reply)
    case Evicting(_, _) => MakingRoom
    case MakingRoom => AfterCommit(reply)
    case RecordMismatch => Done(Forbidden(Mismatch))
    case IngestPin(size) => if reply.lease.Some? then IngestRecord(size, reply.lease.value) else Done(BadGateway(Vanished))
    case IngestRecord(_, lease) => InspectOpen(lease)
    case InspectOpen(lease) => AfterInspection(env, job, lease, reply.data)
    case InspectMark(lease, _, next) => CallUnpin(lease, next)
    case CallUnpin(lease, next) => if reply.won then GiveBack(lease, next) else next
    case GiveBack(_, next) => next
    case VerifyPin(accepted) =>
      if reply.lease.Some? then VerifyOpen(accepted, reply.lease.value) else Done(BadGateway(Vanished))
    case VerifyOpen(accepted, lease) => AfterSecondHash(env, job, accepted, lease, reply.data)
    case VerifyMark(released) => Done(Forbidden(SecondMismatch(released)))
    case Reopen(accepted, lease, _) =>
      if reply.data.Some? then StreamMark(accepted, lease, reply.data.value) else CallUnpin(lease, Done(BadGateway(Vanished)))
    case StreamMark(accepted, lease, body) => StreamTouch(accepted, lease, body)
    case StreamTouch(accepted, lease, body) => Streaming(accepted, lease, body)
    case Streaming(accepted, lease, body) => CallUnpin(lease, Done(Served(accepted, body)))
    case Done(_) => pc
  }

  /** The kind of answer each operation gives. */
  predicate Answers(op: Op, reply: Reply)
  {
    match op
    case Stat(_) => reply.Size?
    case Open(_) => reply.Content?
    case TakePin(_) => reply.Leased?
    case TryCommit(_, _, _) => reply.Size? || reply.Picked?
    case FirstCall(_) => reply.Won?
    case _ => reply.Nothing?
  }

  // ------------------------------------------------------- the shared state

  /** An unpin closure: not called yet, past its compare-and-swap, or done with its decrement. */
  datatype LeaseState = Unclosed | Closing | Closed

  datatype Lease = Lease(key: Key, owner: nat, state: LeaseState)

  /** `holder` is the request that keeps the store's mutex across metadata calls. */
  datatype Shared = Shared(store: Store, leases: map<nat, Lease>, holder: Option<nat>)

  /** Operations that are, or are part of, a section under the store's mutex. */
  predicate NeedsMutex(op: Op)
  {
    op.Stat? || op.Open? || op.TakePin? || op.TryCommit? || op.EvictPicked? || op.DropPin?
  }

  predicate MayRun(owner: nat, op: Op, a: Shared)
  {
    NeedsMutex(op) ==> a.holder == None || a.holder == Some(owner)
  }

  /**
   One round of the commit section: take what is already there, or move the staged file into place,
   or list the records and pick the first unpinned one, keeping the mutex.
   */
  ghost predicate CommitRound(env: Env, owner: nat, op: Op, a: Shared, b: Shared, reply: Reply)
    requires op.TryCommit? && Answers(op, reply)
  {
    var s := a.store;
    if !op.resumed && op.key in s.blobs then
      b == a && reply == Size(Some(|s.blobs[op.key]|))
    else if s.currentBytes + |op.data| <= env.maxBytes then
      b == a.(store := AddBlob(s, op.key, op.data), holder := None) && reply == Size(Some(|op.data|))
    else if reply.Picked? then
      Oldest(s, reply.victim) && reply.listed == s.records[reply.victim].size && b == a.(holder := Some(owner))
    else
      (forall k :: !Candidate(s, k)) && b == a.(holder := None) && reply == Size(None)
  }

  /** One atomic operation of request `owner`. */
  ghost predicate Exec(env: Env, owner: nat, op: Op, a: Shared, b: Shared, reply: Reply)
  {
    Answers(op, reply) && MayRun(owner, op, a) &&
    match op
    case NoOp => b == a
    case Stat(k) => b == a && reply.size == if k in a.store.blobs then Some(|a.store.blobs[k]|) else None
    case Open(k) => b == a && reply.data == if k in a.store.blobs then Some(a.store.blobs[k]) else None
    case TakePin(k) =>
      if k in a.store.blobs then
        && reply.lease.Some? && reply.lease.value !in a.leases
        && b == a.(store := Pin(a.store, k), leases := a.leases[reply.lease.value := Lease(k, owner, Unclosed)])
      else reply.lease.None? && b == a
    case TryCommit(_, _, _) => CommitRound(env, owner, op, a, b, reply)
    case EvictPicked(k, listed) => b == a.(store := EvictListed(a.store, k, listed))
    case FirstCall(l) =>
      if l in a.leases && a.leases[l].state == Unclosed then
        reply.won && b == a.(leases := a.leases[l := a.leases[l].(state := Closing)])
      else !reply.won && b == a
    case DropPin(l) =>
      if l in a.leases then
        b == a.(store := Unpin(a.store, a.leases[l].key), leases := a.leases[l := a.leases[l].(state := Closed)])
      else b == a
    case PutMeta(rec, wall) => b == a.(store := PutRecord(a.store, rec, wall))
    case GetMeta(_) => b == a
    case TouchMeta(k, at) => b == a.(store := Touch(a.store, k, at))
    case MarkMeta(k, status) => b == a.(store := SetStatus(a.store, k, status))
  }

  // -------------------------------------------------------------------- runs

  datatype Request = Request(job: Job, pc: Pc)

  datatype World = World(shared: Shared, requests: map<nat, Request>)

  /**
   `CallAgain` calls a closure that was called before, as a second Close of a stream would if it got
   so far.  `Replace` and `Overwrite` are the doings of an outside process in the blobs directory:
   a file put in another's place or removed, and a file written over where it is.
   */
  datatype Event =
    | Arrive(r: nat, job: Job)
    | Act(r: nat)
    | DeleteBlob(key: Key)
    | CallAgain(lease: nat)
    | Replace(key: Key, content: Option<Bytes>)
    | Overwrite(key: Key, data: Bytes, hit: set<nat>)

  /** A store just opened over whatever is in the blobs directory, its records backed by it; no request yet. */
  ghost predicate Init(w: World)
  {
    && w.requests == map[] && w.shared.leases == map[] && w.shared.holder == None
    && w.shared.store.pins == map[] && Accounted(w.shared.store)
  }

  /** The bytes stored under a key have the digest the key names. */
  ghost predicate Authentic(env: Env, k: Key, b: Bytes)
  {
    ParseDigest(k).Ok? && env.hash(ParseDigest(k).value.algorithm, b) == ParseDigest(k).value.bytes
  }

  ghost predicate ActOutcome(env: Env, w: World, r: nat, w': World, reply: Reply)
  {
    && r in w.requests
    && var q := w.requests[r];
       && Exec(env, r, OpOf(q.job, q.pc), w.shared, w'.shared, reply)
       && w'.requests == w.requests[r := q.(pc := After(env, q.job, q.pc, reply))]
  }

  /** Running an unpin closure from its beginning: the compare-and-swap, and the decrement if it won. */
  ghost predicate RunsClosure(env: Env, l: nat, a: Shared, b: Shared)
  {
    exists mid, reply ::
      && Exec(env, 0, FirstCall(l), a, mid, reply)
      && if reply.won then Exec(env, 0, DropPin(l), mid, b, Nothing) else b == mid
  }

  /** The release stream is open: what it will deliver is on its way. */
  predicate Delivers(pc: Pc)
  {
    pc.StreamMark? || pc.StreamTouch? || pc.Streaming?
  }

  /** A request whose open stream reads the overwritten file. */
  function Redirected(q: Request, k: Key, data: Bytes): Request
  {
    if Delivers(q.pc) && KeyOf(q.job) == k then q.(pc := q.pc.(body := data)) else q
  }

  /**
   Writing over a file where it is shows through the streams that have it open.  `hit` says which:
   a stream whose file was replaced since it was opened still reads the old one.
   */
  ghost predicate OverwriteStep(w: World, k: Key, data: Bytes, hit: set<nat>, w': World)
  {
    && k in w.shared.store.blobs
    && w'.shared == WithBlobs(w.shared, w.shared.store.blobs[k := data])
    && w'.requests == map r | r in w.requests :: if r in hit then Redirected(w.requests[r], k, data) else w.requests[r]
  }

  function WithBlobs(s: Shared, blobs: map<Key, Bytes>): Shared
  {
    s.(store := s.store.(blobs := blobs))
  }

  ghost predicate Next(env: Env, w: World, ev: Event, w': World)
  {
    match ev
    case Arrive(r, job) => r !in w.requests && JobOk(job) && w' == w.(requests := w.requests[r := Request(job, Start)])
    case Act(r) => exists reply :: ActOutcome(env, w, r, w', reply)
    case DeleteBlob(k) => w.shared.holder == None && w' == w.(shared := w.shared.(store := Delete(w.shared.store, k)))
    case CallAgain(l) =>
      && l in w.shared.leases && w.shared.leases[l].state != Unclosed
      && w'.requests == w.requests && RunsClosure(env, l, w.shared, w'.shared)
    case Replace(k, content) =>
      var blobs := w.shared.store.blobs;
      w' == w.(shared := WithBlobs(w.shared, if content.Some? then blobs[k := content.value] else blobs - {k}))
    case Overwrite(k, data, hit) => OverwriteStep(w, k, data, hit, w')
  }

  ghost predicate IsRun(env: Env, ws: seq<World>, evs: seq<Event>)
  {
    && |ws| == |evs| + 1 && Init(ws[0])
    && forall i :: 0 <= i < |evs| ==> Next(env, ws[i], evs[i], ws[i + 1])
  }

  /** Nobody but the gateway writes into the blobs directory. */
  predicate Internal(ev: Event)
  {
    !ev.Replace? && !ev.Overwrite?
  }

  /**
   What an outside process has to leave alone: a file that was just hashed for release and is about
   to be opened again must not be replaced, and from that hash until its stream is delivered it must
   not be written over where it is.
   */
  ghost predicate Quiet(w: World, ev: Event)
  {
    forall r :: r in w.requests && (ev.Replace? || ev.Overwrite?) && KeyOf(w.requests[r].job) == ev.key ==>
      !w.requests[r].pc.Reopen? && (ev.Overwrite? ==> !Delivers(w.requests[r].pc))
  }
}
