/** Provider outcomes, freshness windows and the evidence cache. */
module Evidence {
  import opened Prelude
  import opened Snapshot
  import opened Policy

  // ---------------------------------------------------------------- outcomes

  datatype Outcome = Outcome(state: State, kind: string, source: string, signals: seq<Signal>,
                             retrievedAt: Time, freshUntil: Time)

  /** What the constructors guarantee; the zero value counts as unavailable. */
  predicate Constructed(o: Outcome)
  {
    && NormalizeTime(o.retrievedAt) == o.retrievedAt && NormalizeTime(o.freshUntil) == o.freshUntil
    && (o.state == Unavailable ==> o.signals == [])
  }

  /** The observations of an outcome; a failure without any is given an explicit one. */
  function Signals(o: Outcome): seq<Signal>
  {
    if o.state == Unavailable && o.signals == [] then
      [Signal(o.kind, o.source, "unavailable", "none", o.retrievedAt, o.freshUntil)]
    else o.signals
  }

  // --------------------------------------------------------------- freshness

  datatype Window = Window(freshTtl: nat, staleTtl: nat)

  type FreshnessPolicy = map<string, Window>

  const HOUR: nat := 3_600_000_000_000

  function ConfigFor(policy: FreshnessPolicy, kind: string): Window
  {
    if kind in policy then policy[kind] else Window(HOUR, 12 * HOUR)
  }

  function FreshUntil(policy: FreshnessPolicy, kind: string, retrievedAt: Time): Time
  {
    NormalizeTime(retrievedAt + ConfigFor(policy, kind).freshTtl)
  }

  function StaleUntil(policy: FreshnessPolicy, kind: string, retrievedAt: Time): Time
  {
    NormalizeTime(retrievedAt + (ConfigFor(policy, kind).freshTtl + ConfigFor(policy, kind).staleTtl))
  }

  function Classify(policy: FreshnessPolicy, kind: string, retrievedAt: Time, now: Time): State
  {
    var ret, t := NormalizeTime(retrievedAt), NormalizeTime(now);
    if t <= FreshUntil(policy, kind, ret) then Available
    else if t <= StaleUntil(policy, kind, ret) then Stale
    else Unavailable
  }

  // ------------------------------------------------------------------- cache

  datatype Entry = Entry(outcome: Outcome, freshUntil: Time, staleUntil: Time)

  datatype CachedAllow = CachedAllow(decision: Decision, snapshotId: string, retrievedAt: Time, freshUntil: Time, staleUntil: Time)

  function EvidenceKey(kind: string, pkg: string, version: string): string
  {
    kind + ":" + pkg + "@" + version
  }

  function DecisionKey(pkg: string, version: string): string
  {
    pkg + "@" + version
  }

  /** Fresh entries are served available, entries within the stale tolerance stale, older ones not at all. */
  function Lookup(evidence: map<string, Entry>, kind: string, pkg: string, version: string, now: Time): Option<Outcome>
  {
    var key := EvidenceKey(kind, pkg, version);
    if key !in evidence then None else
      var entry, t := evidence[key], NormalizeTime(now);
      if t <= entry.freshUntil then Some(entry.outcome.(state := Available))
      else if t <= entry.staleUntil then Some(entry.outcome.(state := Stale))
      else None
  }

  function Stored(evidence: map<string, Entry>, pkg: string, version: string, o: Outcome, staleUntil: Time): map<string, Entry>
  {
    if o.state == Unavailable then evidence
    else evidence[EvidenceKey(o.kind, pkg, version) := Entry(o, o.freshUntil, NormalizeTime(staleUntil))]
  }

  predicate AllowIsFresh(a: CachedAllow, now: Time)
  {
    NormalizeTime(now) <= a.freshUntil
  }

  predicate AllowIsStale(a: CachedAllow, now: Time)
  {
    a.freshUntil < NormalizeTime(now) <= a.staleUntil
  }

  function LookupAllow(decisions: map<string, CachedAllow>, pkg: string, version: string, now: Time): Option<CachedAllow>
  {
    var key := DecisionKey(pkg, version);
    if key !in decisions || NormalizeTime(now) > decisions[key].staleUntil then None else Some(decisions[key])
  }

  function StoredAllow(decisions: map<string, CachedAllow>, pkg: string, version: string, a: CachedAllow): map<string, CachedAllow>
  {
    if a.decision.verdict != Allow then decisions else
      decisions[DecisionKey(pkg, version) := a.(retrievedAt := NormalizeTime(a.retrievedAt),
                                                freshUntil := NormalizeTime(a.freshUntil), staleUntil := NormalizeTime(a.staleUntil))]
  }

  class MemoryCache {
    var evidence: map<string, Entry>
    var decisions: map<string, CachedAllow>

    constructor ()
      ensures evidence == map[] && decisions == map[]
    {
      evidence, decisions := map[], map[];
    }

    method Get(kind: string, pkg: string, version: string, now: Time) returns (r: Option<Outcome>)
      ensures r == Lookup(evidence, kind, pkg, version, now)
    {
      var key := EvidenceKey(kind, pkg, version);
      if key !in evidence {
        return None;
      }
      var entry, normNow := evidence[key], NormalizeTime(now);
      if normNow <= entry.freshUntil {
        return Some(entry.outcome.(state := Available));
      }
      if normNow <= entry.staleUntil {
        return Some(entry.outcome.(state := Stale));
      }
      return None;
    }

    method Put(pkg: string, version: string, outcome: Outcome, staleUntil: Time)
      modifies this`evidence
      ensures evidence == Stored(old(evidence), pkg, version, outcome, staleUntil)
    {
      if outcome.state == Unavailable {
        return;
      }
      var key := EvidenceKey(outcome.kind, pkg, version);
      evidence := evidence[key := Entry(outcome, outcome.freshUntil, NormalizeTime(staleUntil))];
    }

    method GetCachedAllow(pkg: string, version: string, now: Time) returns (r: Option<CachedAllow>)
      ensures r == LookupAllow(decisions, pkg, version, now)
    {
      var key := DecisionKey(pkg, version);
      if key !in decisions {
        return None;
      }
      if NormalizeTime(now) > decisions[key].staleUntil {
        return None;
      }
      return Some(decisions[key]);
    }

    /** Only allow decisions are kept for degraded operation. */
    method PutCachedAllow(pkg: string, version: string, d: Decision, snapshotId: string, retrievedAt: Time, freshUntil: Time, staleUntil: Time)
      modifies this`decisions
      ensures decisions ==
        StoredAllow(old(decisions), pkg, version, CachedAllow(d, snapshotId, retrievedAt, freshUntil, staleUntil))
    {
      if d.verdict != Allow {
        return;
      }
      var key := DecisionKey(pkg, version);
      decisions := decisions[key :=
        CachedAllow(d, snapshotId, NormalizeTime(retrievedAt), NormalizeTime(freshUntil), NormalizeTime(staleUntil))];
    }
  }

  // ------------------------------------------------------------ injective keys

  predicate WellNamed(kind: string, version: string)
  {
    ':' !in kind && '@' !in version
  }

  /** The first separator is where two spellings of one text have to agree. */
  lemma FirstSeparator(a: string, x: string, b: string, y: string, c: char)
    requires a + [c] + x == b + [c] + y && c !in a && c !in b
    ensures a == b && x == y
  {
    var s := a + [c] + x;
    assert s[|a|] == c && s[|b|] == c;
    assert s[..|a|] == a && s[..|b|] == b;
    assert s[|a| + 1..] == x && s[|b| + 1..] == y;
  }

  lemma LastSeparator(a: string, x: string, b: string, y: string, c: char)
    requires a + [c] + x == b + [c] + y && c !in x && c !in y
    ensures a == b && x == y
  {
    var s := a + [c] + x;
    assert s[|a|] == c && s[|b|] == c;
    assert s[|a| + 1..] == x && s[|b| + 1..] == y;
    assert s[..|a|] == a && s[..|b|] == b;
  }

  /** Cache keys tell coordinates apart when kinds have no colon and versions no at-sign. */
  lemma EvidenceKeyInjective(k: string, p: string, v: string, k': string, p': string, v': string)
    requires WellNamed(k, v) && WellNamed(k', v') && EvidenceKey(k, p, v) == EvidenceKey(k', p', v')
    ensures k == k' && p == p' && v == v'
  {
    assert EvidenceKey(k, p, v) == k + ":" + (p + "@" + v);
    assert EvidenceKey(k', p', v') == k' + ":" + (p' + "@" + v');
    FirstSeparator(k, p + "@" + v, k', p' + "@" + v', ':');
    LastSeparator(p, v, p', v', '@');
  }

  /**
   What the decision cache serves after a store: the stored allow under its own coordinates until its
   tolerance is over, what it served before under any others.
   */
  lemma AllowsServed(decisions: map<string, CachedAllow>, p: string, v: string, a: CachedAllow, p': string, v': string, now: Time)
    requires '@' !in v && '@' !in v'
    ensures var r := LookupAllow(StoredAllow(decisions, p, v, a), p', v', now);
      if a.decision.verdict == Allow && (p, v) == (p', v') then
        && (r.Some? <==> NormalizeTime(now) <= NormalizeTime(a.staleUntil))
        && (r.Some? ==> r.value.decision == a.decision && r.value.snapshotId == a.snapshotId)
        && (r.Some? ==> (AllowIsFresh(r.value, now) <==> NormalizeTime(now) <= NormalizeTime(a.freshUntil)))
      else r == LookupAllow(decisions, p', v', now)
  {
    hide NormalizeTime;
    if DecisionKey(p, v) == DecisionKey(p', v') {
      LastSeparator(p, v, p', v', '@');
    }
  }

  lemma NormalizeShift(t: Time, ttl: nat)
    requires t % 1_000_000 == 0
    ensures NormalizeTime(t + ttl) == t + (ttl - ttl % 1_000_000)
  {
  }

  /**
   Freshness by age in whole milliseconds: available up to the fresh window of the kind, stale up to
   the tolerance after it, then unavailable; unknown kinds have one hour and twelve more.
   */
  lemma ClassifyByAge(policy: FreshnessPolicy, kind: string, retrievedAt: Time, now: Time)
    ensures var age := NormalizeTime(now) - NormalizeTime(retrievedAt);
      var window := if kind in policy then policy[kind].freshTtl else 3_600_000_000_000;
      var tolerance := if kind in policy then policy[kind].staleTtl else 43_200_000_000_000;
      Classify(policy, kind, retrievedAt, now) ==
      if age <= window then Available else if age <= window + tolerance then Stale else Unavailable
  {
    hide NormalizeTime;
    var t, w := NormalizeTime(retrievedAt), ConfigFor(policy, kind);
    NormalizeRoundsDown(retrievedAt);
    NormalizeRoundsDown(now);
    NormalizeShift(t, w.freshTtl);
    NormalizeShift(t, w.freshTtl + w.staleTtl);
    WholeMilliseconds(NormalizeTime(now) - t, w.freshTtl);
    WholeMilliseconds(NormalizeTime(now) - t, w.freshTtl + w.staleTtl);
  }

  lemma WholeMilliseconds(age: int, ttl: nat)
    requires age % 1_000_000 == 0
    ensures age <= ttl <==> age <= ttl - ttl % 1_000_000
  {
  }
}
