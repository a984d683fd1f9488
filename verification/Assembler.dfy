/**
 Assembling evidence from providers and the cache, deciding on it, and what an outage can and
 cannot lead to.
 */
module Assembler {
  import opened Prelude
  import opened Snapshot
  import opened Evidence
  import opened Policy

  /** A provider: the kind it covers and what it answers for a package version. */
  datatype Provider = Provider(kind: string, provide: (string, string) -> Outcome)

  datatype Query = Query(pkg: string, version: string, now: Time)

  /** What has been collected so far, and the cache as it is by then. */
  datatype Gathered = Gathered(evidence: map<string, Entry>, observations: seq<Signal>,
                               states: map<string, State>, covered: set<string>)

  // ---------------------------------------------------------- one provider

  /** The outcome used for a provider: fresh cache, else live, else stale cache, else the failure. */
  function Chosen(cached: Option<Outcome>, live: Outcome): Outcome
  {
    if cached.Some? && cached.value.state == Available then cached.value
    else if live.state != Unavailable then live
    else if cached.Some? && cached.value.state == Stale then cached.value
    else live
  }

  /** A live available answer is written to the cache; fresh entries are not asked for again. */
  function CacheAfter(policy: FreshnessPolicy, q: Query, evidence: map<string, Entry>, p: Provider): map<string, Entry>
  {
    var cached := Lookup(evidence, p.kind, q.pkg, q.version, q.now);
    var live := p.provide(q.pkg, q.version);
    if (cached.Some? && cached.value.state == Available) || live.state != Available then evidence
    else Stored(evidence, q.pkg, q.version, live, StaleUntil(policy, p.kind, live.retrievedAt))
  }

  /** Missing timestamps are filled in. */
  function Stamped(policy: FreshnessPolicy, now: Time, s: Signal): Signal
  {
    var ret := if s.retrievedAt == 0 then now else s.retrievedAt;
    s.(retrievedAt := ret, freshUntil := if s.freshUntil == 0 then FreshUntil(policy, s.kind, ret) else s.freshUntil)
  }

  function StampAll(policy: FreshnessPolicy, now: Time, ss: seq<Signal>): seq<Signal>
  {
    seq(|ss|, i requires 0 <= i < |ss| => Stamped(policy, now, ss[i]))
  }

  function Consult(policy: FreshnessPolicy, q: Query, g: Gathered, p: Provider): Gathered
  {
    var outcome := Chosen(Lookup(g.evidence, p.kind, q.pkg, q.version, q.now), p.provide(q.pkg, q.version));
    Gathered(CacheAfter(policy, q, g.evidence, p),
             g.observations + StampAll(policy, q.now, Signals(outcome)),
             g.states[p.kind := outcome.state],
             g.covered + {p.kind})
  }

  function ConsultAll(policy: FreshnessPolicy, q: Query, g: Gathered, ps: seq<Provider>): Gathered
  {
    if ps == [] then g else Consult(policy, q, ConsultAll(policy, q, g, ps[..|ps| - 1]), ps[|ps| - 1])
  }

  // ------------------------------------------------------------ an assembly

  function AllowSignals(decisions: map<string, CachedAllow>, q: Query): seq<Signal>
  {
    var cached := LookupAllow(decisions, q.pkg, q.version, q.now);
    if cached.None? then []
    else if AllowIsFresh(cached.value, q.now) then
      [Signal("cache", "cache", "fresh_allow", "high", cached.value.retrievedAt, cached.value.freshUntil)]
    else if AllowIsStale(cached.value, q.now) then
      [Signal("cache", "cache", "stale_allow", "low", cached.value.retrievedAt, cached.value.freshUntil)]
    else []
  }

  /** Required kinds that no provider covers are marked unavailable. */
  function MarkMissing(now: Time, g: Gathered, required: seq<string>): Gathered
  {
    if required == [] then g else
      var h := MarkMissing(now, g, required[..|required| - 1]);
      var kind := required[|required| - 1];
      if kind in g.covered then h
      else h.(states := h.states[kind := Unavailable],
      observations := h.observations + [Signal(kind, "assembler", "unavailable", "none", now, now)])
  }

  function Start(evidence: map<string, Entry>, decisions: map<string, CachedAllow>, q: Query): Gathered
  {
    Gathered(evidence, AllowSignals(decisions, q), map[], {})
  }

  function Assembled(policy: FreshnessPolicy, q: Query, evidence: map<string, Entry>, decisions: map<string, CachedAllow>,
                     ps: seq<Provider>, required: seq<string>): Gathered
  {
    MarkMissing(q.now, ConsultAll(policy, q, Start(evidence, decisions, q), ps), required)
  }

  class EvidenceAssembler {
    const cache: MemoryCache
    const policy: FreshnessPolicy
    const providers: seq<Provider>
    const required: seq<string>

    constructor (cache: MemoryCache, policy: FreshnessPolicy, providers: seq<Provider>, required: seq<string>)
      ensures this.cache == cache && this.policy == policy && this.providers == providers && this.required == required
    {
      this.cache := cache;
      this.policy := policy;
      this.providers := providers;
      this.required := required;
    }

    /** Asks one provider, unless the cache is fresh, and keeps a live answer. */
    method Ask(p: Provider, q: Query) returns (outcome: Outcome)
      modifies cache`evidence
      ensures outcome == Chosen(Lookup(old(cache.evidence), p.kind, q.pkg, q.version, q.now), p.provide(q.pkg, q.version))
      ensures var cached := Lookup(old(cache.evidence), p.kind, q.pkg, q.version, q.now);
        var live := p.provide(q.pkg, q.version);
        && (cached.Some? && cached.value.state == Available ==> outcome == cached.value)
        && (!(cached.Some? && cached.value.state == Available) && live.state != Unavailable ==> outcome == live)
        && (live.state == Unavailable && cached.Some? ==> outcome == cached.value)
        && (live.state == Unavailable && cached.None? ==> outcome == live)
      ensures cache.evidence == CacheAfter(policy, q, old(cache.evidence), p)
    {
      var cached := cache.Get(p.kind, q.pkg, q.version, q.now);
      if cached.Some? && cached.value.state == Available {
        return cached.value;
      }
      var live := p.provide(q.pkg, q.version);
      if live.state == Available {
        outcome := live;
        cache.Put(q.pkg, q.version, live, StaleUntil(policy, p.kind, live.retrievedAt));
      } else if live.state == Stale || live.state == Degraded {
        outcome := live;
      } else if cached.Some? && cached.value.state == Stale {
        outcome := cached.value;
      } else {
        outcome := live;
      }
    }

    method Assemble(codec: Codec, pkg: string, version: string, clock: Time) returns (snap: Snapshot)
      requires ValidCodec(codec)
      modifies cache`evidence
      ensures var g := Assembled(policy, Query(pkg, version, NormalizeTime(clock)), old(cache.evidence), cache.decisions, providers, required);
        && snap == MakeSnapshot(codec, pkg, version, g.observations, g.states, NormalizeTime(clock))
        && cache.evidence == g.evidence
    {
      hide Canonical, SnapshotId;
      var q := Query(pkg, version, NormalizeTime(clock));
      ghost var start := Start(cache.evidence, cache.decisions, q);
      var allow := cache.GetCachedAllow(pkg, version, q.now);
      var observations: seq<Signal> := [];
      if allow.Some? {
        if AllowIsFresh(allow.value, q.now) {
          observations := [Signal("cache", "cache", "fresh_allow", "high", allow.value.retrievedAt, allow.value.freshUntil)];
        } else if AllowIsStale(allow.value, q.now) {
          observations := [Signal("cache", "cache", "stale_allow", "low", allow.value.retrievedAt, allow.value.freshUntil)];
        }
      }
      var states: map<string, State> := map[];
      var covered: set<string> := {};
      for i := 0 to |providers|
        invariant Gathered(cache.evidence, observations, states, covered) == ConsultAll(policy, q, start, providers[..i])
        invariant cache.decisions == old(cache.decisions)
      {
        var p := providers[i];
        var outcome := Ask(p, q);
        covered := covered + {p.kind};
        states := states[p.kind := outcome.state];
        var signals := Signals(outcome);
        observations := observations + StampAll(policy, q.now, signals);
        assert providers[..i + 1][..i] == providers[..i];
      }
      assert providers[..|providers|] == providers;
      ghost var g := ConsultAll(policy, q, start, providers);
      for i := 0 to |required|
        invariant Gathered(cache.evidence, observations, states, covered) == MarkMissing(q.now, g, required[..i])
        invariant cache.decisions == old(cache.decisions) && covered == g.covered
      {
        var kind := required[i];
        assert required[..i + 1][..i] == required[..i];
        if kind !in covered {
          states := states[kind := Unavailable];
          observations := observations + [Signal(kind, "assembler", "unavailable", "none", q.now, q.now)];
        }
      }
      assert required[..|required|] == required;
      snap := NewSnapshot(codec, pkg, version, observations, states, q.now);
    }
  }

  // ------------------------------------------------------------- fail closed

  predicate ReportsOutage(obs: seq<Signal>)
  {
    exists i :: 0 <= i < |obs| && obs[i].observation == "unavailable"
  }

  lemma {:induction false} ConsultingKeepsReports(policy: FreshnessPolicy, q: Query, g: Gathered, ps: seq<Provider>, n: nat)
    requires n <= |ps|
    ensures ConsultAll(policy, q, g, ps[..n]).observations <= ConsultAll(policy, q, g, ps).observations
    decreases |ps|
  {
    hide Lookup, CacheAfter, StampAll, Chosen;
    if n == |ps| {
      assert ps[..n] == ps;
    } else {
      var before := ps[..|ps| - 1];
      ConsultingKeepsReports(policy, q, g, before, n);
      assert ps[..n] == before[..n];
    }
  }

  lemma {:induction false} UncoveredStaysUncovered(policy: FreshnessPolicy, q: Query, g: Gathered, ps: seq<Provider>, kind: string)
    requires kind !in g.covered && forall i :: 0 <= i < |ps| ==> ps[i].kind != kind
    ensures kind !in ConsultAll(policy, q, g, ps).covered
    decreases |ps|
  {
    hide Lookup, CacheAfter, StampAll, Chosen;
    if ps != [] {
      UncoveredStaysUncovered(policy, q, g, ps[..|ps| - 1], kind);
    }
  }

  lemma {:induction false} MarkingKeepsReports(now: Time, g: Gathered, required: seq<string>)
    ensures g.observations <= MarkMissing(now, g, required).observations
  {
    if required != [] {
      MarkingKeepsReports(now, g, required[..|required| - 1]);
    }
  }

  lemma {:induction false} MissingKindIsReported(now: Time, g: Gathered, required: seq<string>, j: nat)
    requires j < |required| && required[j] !in g.covered
    ensures ReportsOutage(MarkMissing(now, g, required).observations)
  {
    var before := required[..|required| - 1];
    var h := MarkMissing(now, g, before);
    var r := MarkMissing(now, g, required);
    if j < |before| {
      MissingKindIsReported(now, g, before, j);
      var i :| 0 <= i < |h.observations| && h.observations[i].observation == "unavailable";
      assert r.observations[i] == h.observations[i];
    } else {
      assert r.observations[|h.observations|].observation == "unavailable";
    }
  }

  /** Its state is unavailable, and there is an observation of it from the assembler. */
  lemma {:induction false} MissingKindIsMarked(now: Time, g: Gathered, required: seq<string>, j: nat)
    requires j < |required| && required[j] !in g.covered
    ensures var r, kind := MarkMissing(now, g, required), required[j];
      && kind in r.states && r.states[kind] == Unavailable
      && exists x :: x in r.observations && x.kind == kind && x.source == "assembler" && x.observation == "unavailable"
  {
    var before := required[..|required| - 1];
    var h, r := MarkMissing(now, g, before), MarkMissing(now, g, required);
    if j < |before| {
      MissingKindIsMarked(now, g, before, j);
      var x :| x in h.observations && x.kind == required[j] && x.source == "assembler" && x.observation == "unavailable";
      assert x in r.observations;
    } else {
      var x := r.observations[|h.observations|];
      assert x in r.observations;
    }
  }

  /** A provider that fails with nothing usable in the cache leaves an "unavailable" observation. */
  lemma FailureIsReported(policy: FreshnessPolicy, q: Query, g: Gathered, p: Provider)
    requires Constructed(p.provide(q.pkg, q.version)) && p.provide(q.pkg, q.version).state == Unavailable
    requires Lookup(g.evidence, p.kind, q.pkg, q.version, q.now).None?
    ensures var h, live := Consult(policy, q, g, p).observations, p.provide(q.pkg, q.version);
      ReportsOutage(h) && exists x :: x in h && x.kind == live.kind && x.source == live.source && x.observation == "unavailable"
  {
    var h := Consult(policy, q, g, p);
    var x := h.observations[|g.observations|];
    assert x in h.observations && x.observation == "unavailable";
  }

  lemma PrefixKeepsReport(a: seq<Signal>, b: seq<Signal>)
    requires a <= b && ReportsOutage(a)
    ensures ReportsOutage(b)
  {
    var i :| 0 <= i < |a| && a[i].observation == "unavailable";
    assert b[i] == a[i];
  }

  /** Provider `i` fails, and when it is its turn the cache has neither a fresh nor a stale outcome for it. */
  ghost predicate FailsAt(policy: FreshnessPolicy, q: Query, evidence: map<string, Entry>, decisions: map<string, CachedAllow>,
                          ps: seq<Provider>, i: nat)
  {
    && i < |ps| && Constructed(ps[i].provide(q.pkg, q.version)) && ps[i].provide(q.pkg, q.version).state == Unavailable
    && Lookup(ConsultAll(policy, q, Start(evidence, decisions, q), ps[..i]).evidence, ps[i].kind, q.pkg, q.version, q.now).None?
  }

  /** A required kind has no provider. */
  predicate Uncovered(ps: seq<Provider>, required: seq<string>, j: nat)
  {
    j < |required| && forall i :: 0 <= i < |ps| ==> ps[i].kind != required[j]
  }

  lemma OutageIsReported(policy: FreshnessPolicy, q: Query, evidence: map<string, Entry>, decisions: map<string, CachedAllow>,
                         ps: seq<Provider>, required: seq<string>, i: nat)
    requires FailsAt(policy, q, evidence, decisions, ps, i) || Uncovered(ps, required, i)
    ensures ReportsOutage(Assembled(policy, q, evidence, decisions, ps, required).observations)
  {
    hide Consult, Lookup, AllowSignals;
    var start := Start(evidence, decisions, q);
    var all := ConsultAll(policy, q, start, ps);
    if FailsAt(policy, q, evidence, decisions, ps, i) {
      var upTo := ConsultAll(policy, q, start, ps[..i + 1]);
      assert ps[..i + 1][..i] == ps[..i];
      FailureIsReported(policy, q, ConsultAll(policy, q, start, ps[..i]), ps[i]);
      ConsultingKeepsReports(policy, q, start, ps, i + 1);
      PrefixKeepsReport(upTo.observations, all.observations);
      MarkingKeepsReports(q.now, all, required);
      PrefixKeepsReport(all.observations, Assembled(policy, q, evidence, decisions, ps, required).observations);
    } else {
      UncoveredStaysUncovered(policy, q, start, ps, required[i]);
      MissingKindIsReported(q.now, all, required, i);
    }
  }

  // ---------------------------------------------------------- what is used

  /** The signal is in the list, with missing times filled in from the clock and from the freshness of its kind. */
  ghost predicate Carries(policy: FreshnessPolicy, now: Time, obs: seq<Signal>, s: Signal)
  {
    exists x :: x in obs && x.kind == s.kind && x.source == s.source && x.observation == s.observation && x.confidence == s.confidence
      && x.retrievedAt == (if s.retrievedAt != 0 then s.retrievedAt else now)
      && x.freshUntil == (if s.freshUntil != 0 then s.freshUntil else FreshUntil(policy, s.kind, x.retrievedAt))
  }

  /** Every signal of the outcome is among the observations, and its state is recorded unless a later provider is asked for the kind. */
  ghost predicate Used(policy: FreshnessPolicy, q: Query, g: Gathered, ps: seq<Provider>, i: nat, o: Outcome)
    requires i < |ps|
  {
    && (forall s :: s in o.signals ==> Carries(policy, q.now, g.observations, s))
    && ((forall j :: i < j < |ps| ==> ps[j].kind != ps[i].kind) ==>
          ps[i].kind in g.states && g.states[ps[i].kind] == o.state)
  }

  lemma ConsultUses(policy: FreshnessPolicy, q: Query, g: Gathered, p: Provider, o: Outcome)
    requires o == Chosen(Lookup(g.evidence, p.kind, q.pkg, q.version, q.now), p.provide(q.pkg, q.version))
    ensures forall s :: s in o.signals ==> Carries(policy, q.now, Consult(policy, q, g, p).observations, s)
  {
    hide Lookup, Chosen, CacheAfter, FreshUntil;
    var h := Consult(policy, q, g, p);
    forall s | s in o.signals ensures Carries(policy, q.now, h.observations, s) {
      var i :| 0 <= i < |o.signals| && o.signals[i] == s;
      var x := h.observations[|g.observations| + i];
      assert x == Stamped(policy, q.now, s) && x in h.observations;
    }
  }

  lemma CarriesMore(policy: FreshnessPolicy, now: Time, a: seq<Signal>, b: seq<Signal>, s: Signal)
    requires a <= b && Carries(policy, now, a, s)
    ensures Carries(policy, now, b, s)
  {
    hide FreshUntil;
    forall x | x in a ensures x in b {
      var i :| 0 <= i < |a| && a[i] == x;
      assert b[i] == x;
    }
  }

  lemma {:induction false} LaterKindsLeaveState(policy: FreshnessPolicy, q: Query, g: Gathered, ps: seq<Provider>, i: nat)
    requires i < |ps| && forall j :: i < j < |ps| ==> ps[j].kind != ps[i].kind
    ensures var at := ConsultAll(policy, q, g, ps[..i + 1]).states;
      var end := ConsultAll(policy, q, g, ps).states;
      ps[i].kind in at && ps[i].kind in end && end[ps[i].kind] == at[ps[i].kind]
    decreases |ps|
  {
    hide Lookup, CacheAfter, StampAll, Chosen;
    assert ps[..i + 1][..i] == ps[..i];
    if i == |ps| - 1 {
      assert ps[..i + 1] == ps;
    } else {
      var before := ps[..|ps| - 1];
      assert before[..i + 1] == ps[..i + 1] && before[i] == ps[i];
      forall j | i < j < |before| ensures before[j].kind != before[i].kind {
        assert before[j] == ps[j];
      }
      LaterKindsLeaveState(policy, q, g, before, i);
    }
  }

  lemma {:induction false} CoveredKindsAre(policy: FreshnessPolicy, q: Query, g: Gathered, ps: seq<Provider>, i: nat)
    requires i < |ps|
    ensures ps[i].kind in ConsultAll(policy, q, g, ps).covered
    decreases |ps|
  {
    hide Lookup, CacheAfter, StampAll, Chosen;
    if i < |ps| - 1 {
      assert ps[..|ps| - 1][i] == ps[i];
      CoveredKindsAre(policy, q, g, ps[..|ps| - 1], i);
    }
  }

  lemma {:induction false} MarkingLeavesCovered(now: Time, g: Gathered, required: seq<string>, kind: string)
    requires kind in g.covered
    ensures kind in MarkMissing(now, g, required).states <==> kind in g.states
    ensures kind in g.states ==> MarkMissing(now, g, required).states[kind] == g.states[kind]
  {
    if required != [] {
      MarkingLeavesCovered(now, g, required[..|required| - 1], kind);
    }
  }

  /** The outcome chosen for provider `i`, with the cache as it is at its turn. */
  ghost function ChosenAt(policy: FreshnessPolicy, q: Query, start: Gathered, ps: seq<Provider>, i: nat): Outcome
    requires i < |ps|
  {
    var at := ConsultAll(policy, q, start, ps[..i]);
    Chosen(Lookup(at.evidence, ps[i].kind, q.pkg, q.version, q.now), ps[i].provide(q.pkg, q.version))
  }

  lemma ChosenAtTurn(policy: FreshnessPolicy, q: Query, start: Gathered, ps: seq<Provider>, i: nat)
    requires i < |ps|
    ensures var upTo, o := ConsultAll(policy, q, start, ps[..i + 1]), ChosenAt(policy, q, start, ps, i);
      && ps[i].kind in upTo.states && upTo.states[ps[i].kind] == o.state
      && forall s :: s in o.signals ==> Carries(policy, q.now, upTo.observations, s)
  {
    hide Lookup, Chosen, CacheAfter, StampAll, Carries;
    assert ps[..i + 1][..i] == ps[..i];
    var at, o := ConsultAll(policy, q, start, ps[..i]), ChosenAt(policy, q, start, ps, i);
    ConsultUses(policy, q, at, ps[i], o);
  }

  lemma ChosenIsUsed(policy: FreshnessPolicy, q: Query, evidence: map<string, Entry>, decisions: map<string, CachedAllow>,
                     ps: seq<Provider>, required: seq<string>, i: nat)
    requires i < |ps|
    ensures Used(policy, q, Assembled(policy, q, evidence, decisions, ps, required), ps, i,
                 ChosenAt(policy, q, Start(evidence, decisions, q), ps, i))
  {
    hide ConsultAll, ChosenAt, Start, Carries, MarkMissing;
    var start := Start(evidence, decisions, q);
    var o := ChosenAt(policy, q, start, ps, i);
    var upTo, all := ConsultAll(policy, q, start, ps[..i + 1]), ConsultAll(policy, q, start, ps);
    var g := Assembled(policy, q, evidence, decisions, ps, required);
    ChosenAtTurn(policy, q, start, ps, i);
    ConsultingKeepsReports(policy, q, start, ps, i + 1);
    MarkingKeepsReports(q.now, all, required);
    forall s | s in o.signals ensures Carries(policy, q.now, g.observations, s) {
      CarriesMore(policy, q.now, upTo.observations, all.observations, s);
      CarriesMore(policy, q.now, all.observations, g.observations, s);
    }
    if forall j :: i < j < |ps| ==> ps[j].kind != ps[i].kind {
      LaterKindsLeaveState(policy, q, start, ps, i);
      CoveredKindsAre(policy, q, start, ps, i);
      MarkingLeavesCovered(q.now, all, required, ps[i].kind);
    }
  }

  /**
   What each provider contributes, with the cache as it is at its turn: a fresh cached outcome; else
   the live one, unless the provider fails; then a stale cached outcome; and if there is none, the
   failure.
   */
  lemma EvidenceIsUsed(policy: FreshnessPolicy, q: Query, evidence: map<string, Entry>, decisions: map<string, CachedAllow>,
                       ps: seq<Provider>, required: seq<string>, i: nat)
    requires i < |ps|
    ensures var at := ConsultAll(policy, q, Start(evidence, decisions, q), ps[..i]);
      var cached := Lookup(at.evidence, ps[i].kind, q.pkg, q.version, q.now);
      var live := ps[i].provide(q.pkg, q.version);
      var g := Assembled(policy, q, evidence, decisions, ps, required);
      var usable := cached.Some? && cached.value.state == Available;
      && (usable ==> Used(policy, q, g, ps, i, cached.value))
      && (!usable && (live.state == Available || live.state == Stale || live.state == Degraded) ==> Used(policy, q, g, ps, i, live))
      && (live.state == Unavailable && cached.Some? && cached.value.state == Stale ==> Used(policy, q, g, ps, i, cached.value))
      && (live.state == Unavailable && cached.None? ==> Used(policy, q, g, ps, i, live))
  {
    hide Used, Lookup, ConsultAll, Assembled, Start;
    ChosenIsUsed(policy, q, evidence, decisions, ps, required, i);
  }

  /** Nothing else gets in: every observation comes from the cached allow, from a consulted provider, or marks a missing kind. */
  ghost predicate HasSource(policy: FreshnessPolicy, q: Query, start: Gathered, ps: seq<Provider>, required: seq<string>, x: Signal)
  {
    || x in start.observations
    || (exists i :: 0 <= i < |ps| && Contributes(policy, q, start, ps, i, x))
    || (x.observation == "unavailable" && x.source == "assembler" && x.kind in required && forall i :: 0 <= i < |ps| ==> ps[i].kind != x.kind)
  }

  ghost predicate Contributes(policy: FreshnessPolicy, q: Query, start: Gathered, ps: seq<Provider>, i: nat, x: Signal)
    requires i < |ps|
  {
    x in StampAll(policy, q.now, Signals(ChosenAt(policy, q, start, ps, i)))
  }

  lemma {:induction false} ConsultedHaveSource(policy: FreshnessPolicy, q: Query, start: Gathered, ps: seq<Provider>, x: Signal)
    requires x in ConsultAll(policy, q, start, ps).observations
    ensures x in start.observations || exists i :: 0 <= i < |ps| && Contributes(policy, q, start, ps, i, x)
    decreases |ps|
  {
    hide Lookup, CacheAfter, StampAll, Chosen;
    if ps != [] {
      var before, n := ps[..|ps| - 1], |ps| - 1;
      var g := ConsultAll(policy, q, start, before);
      if x in g.observations {
        ConsultedHaveSource(policy, q, start, before, x);
        if i :| 0 <= i < |before| && Contributes(policy, q, start, before, i, x) {
          assert before[..i] == ps[..i] && before[i] == ps[i];
          assert Contributes(policy, q, start, ps, i, x);
        }
      } else {
        assert Contributes(policy, q, start, ps, n, x);
      }
    }
  }

  lemma {:induction false} MarkedHaveSource(now: Time, g: Gathered, required: seq<string>, x: Signal)
    requires x in MarkMissing(now, g, required).observations
    ensures x in g.observations ||
      (x.observation == "unavailable" && x.source == "assembler" && x.kind in required && x.kind !in g.covered)
  {
    if required != [] {
      var before := required[..|required| - 1];
      if x in MarkMissing(now, g, before).observations {
        MarkedHaveSource(now, g, before, x);
        assert forall k :: k in before ==> k in required;
      }
    }
  }

  lemma ObservationsHaveSource(policy: FreshnessPolicy, q: Query, evidence: map<string, Entry>, decisions: map<string, CachedAllow>,
                               ps: seq<Provider>, required: seq<string>, x: Signal)
    requires x in Assembled(policy, q, evidence, decisions, ps, required).observations
    ensures HasSource(policy, q, Start(evidence, decisions, q), ps, required, x)
  {
    hide Contributes, AllowSignals, ConsultAll;
    var start := Start(evidence, decisions, q);
    var all := ConsultAll(policy, q, start, ps);
    MarkedHaveSource(q.now, all, required, x);
    if x in all.observations {
      ConsultedHaveSource(policy, q, start, ps, x);
    } else {
      forall i | 0 <= i < |ps| ensures ps[i].kind != x.kind {
        CoveredKindsAre(policy, q, start, ps, i);
      }
    }
  }

  /** A cached allow shows as fresh up to its freshness, as stale up to its tolerance, and then not at all. */
  lemma AllowShown(decisions: map<string, CachedAllow>, q: Query)
    ensures var key, now := q.pkg + "@" + q.version, NormalizeTime(q.now);
      var shown := AllowSignals(decisions, q);
      if key !in decisions || now > decisions[key].staleUntil then shown == []
      else
        var word := if now <= decisions[key].freshUntil then "fresh_allow" else "stale_allow";
        |shown| == 1 && shown[0].kind == "cache" && shown[0].observation == word
  {
    hide NormalizeTime;
  }

  /** What a provider's turn does to the cache: a live available answer is kept under its own kind, and nothing else is. */
  lemma CacheKeepsLiveAnswers(policy: FreshnessPolicy, q: Query, evidence: map<string, Entry>, p: Provider)
    ensures var cached := Lookup(evidence, p.kind, q.pkg, q.version, q.now);
      var live := p.provide(q.pkg, q.version);
      var after := CacheAfter(policy, q, evidence, p);
      var key := live.kind + ":" + q.pkg + "@" + q.version;
      if live.state == Available && !(cached.Some? && cached.value.state == Available) then
        && key in after && after[key].outcome == live && after[key].freshUntil == live.freshUntil
        && after[key].staleUntil == StaleUntil(policy, p.kind, live.retrievedAt)
        && forall k :: k != key ==> (k in after <==> k in evidence) && (k in evidence ==> after[k] == evidence[k])
      else after == evidence
  {
    hide Lookup, NormalizeTime;
    var live := p.provide(q.pkg, q.version);
    var w := ConfigFor(policy, p.kind);
    NormalizeIdempotent(live.retrievedAt + (w.freshTtl + w.staleTtl));
  }

  // ---------------------------------------------------------------- the engine

  datatype Document = Document(verdict: Verdict, degraded: bool)

  /** The decision document: approval can lift ApprovalRequired to Allow, missing evidence always shows as degraded. */
  function Decide(profile: Profile, threshold: string, approved: bool, snap: Snapshot): Document
  {
    var dec := Evaluate(profile, Assess(snap, threshold));
    var verdict := if dec.verdict == ApprovalRequired && approved then Allow else dec.verdict;
    Document(verdict, dec.degraded || HasUnavailableEvidence(snap))
  }

  lemma CanonicalKeepsReport(codec: Codec, obs: seq<Signal>)
    requires ReportsOutage(obs)
    ensures ReportsOutage(Canonical(codec, obs))
  {
    CanonicalIsCanonical(codec, obs);
    var i :| 0 <= i < |obs| && obs[i].observation == "unavailable";
    var n, c := NormalizeAll(obs), Canonical(codec, obs);
    assert n[i] in multiset(n) && n[i] in multiset(c);
    var j :| 0 <= j < |c| && c[j] == n[i];
  }

  /**
   End to end: if some provider fails with nothing usable cached, or a required kind has no
   provider, then whatever the other providers, cached allows and human approvals say, the final
   document is never an undegraded Allow; and without a human approval it is an Allow only under
   the balanced profile with a fresh cached allow.
   */
  lemma OutagesNeverPassUnnoticed(codec: Codec, policy: FreshnessPolicy, q: Query, evidence: map<string, Entry>,
                                  decisions: map<string, CachedAllow>, ps: seq<Provider>, required: seq<string>, i: nat,
                                  profile: Profile, threshold: string, approved: bool, createdAt: Time)
    requires FailsAt(policy, q, evidence, decisions, ps, i) || Uncovered(ps, required, i)
    ensures var g := Assembled(policy, q, evidence, decisions, ps, required);
      var snap := MakeSnapshot(codec, q.pkg, q.version, g.observations, g.states, createdAt);
      var doc := Decide(profile, threshold, approved, snap);
      && doc.degraded
      && (doc.verdict == Allow && !approved ==> profile == Balanced && FreshCachedAllow in Assess(snap, threshold))
      && doc.verdict != Warn
  {
    hide Canonical, SnapshotId, Evaluate, AssessAll, Assembled;
    var g := Assembled(policy, q, evidence, decisions, ps, required);
    var snap := MakeSnapshot(codec, q.pkg, q.version, g.observations, g.states, createdAt);
    OutageIsReported(policy, q, evidence, decisions, ps, required, i);
    CanonicalKeepsReport(codec, g.observations);
    assert HasUnavailableEvidence(snap);
    OutageVerdict(profile, Assess(snap, threshold));
  }

  /** An approval lifts a hold and nothing else, and does not hide missing evidence. */
  lemma ApprovalLiftsHoldsOnly(profile: Profile, threshold: string, approved: bool, snap: Snapshot)
    ensures var dec := Evaluate(profile, Assess(snap, threshold));
      var doc := Decide(profile, threshold, approved, snap);
      && (doc.verdict == dec.verdict || (approved && dec.verdict == ApprovalRequired && doc.verdict == Allow))
      && (approved ==> doc.verdict != ApprovalRequired) && (!approved ==> doc.verdict == dec.verdict)
      && (dec.degraded || HasUnavailableEvidence(snap) <==> doc.degraded)
  {
    hide Evaluate, Assess;
  }

  /**
   End to end: when the outcome used for some provider carries a signal of a forbidding kind, the
   document blocks, whatever the profile, the threshold it reaches, the other providers, the caches
   and human approvals say.
   */
  lemma ForbiddenEvidenceBlocks(codec: Codec, policy: FreshnessPolicy, q: Query, evidence: map<string, Entry>,
                                decisions: map<string, CachedAllow>, ps: seq<Provider>, required: seq<string>, i: nat,
                                profile: Profile, threshold: string, approved: bool, createdAt: Time, s: Signal, f: Flag)
    requires i < |ps| && Forbids(f) && Speaks(f, s, threshold)
    requires var at := ConsultAll(policy, q, Start(evidence, decisions, q), ps[..i]);
      var cached := Lookup(at.evidence, ps[i].kind, q.pkg, q.version, q.now);
      var live := ps[i].provide(q.pkg, q.version);
      if cached.Some? && cached.value.state == Available then s in cached.value.signals
      else if live.state != Unavailable then s in live.signals
      else cached.Some? && cached.value.state == Stale && s in cached.value.signals
    ensures var g := Assembled(policy, q, evidence, decisions, ps, required);
      var snap := MakeSnapshot(codec, q.pkg, q.version, g.observations, g.states, createdAt);
      Decide(profile, threshold, approved, snap).verdict == Block
  {
    hide Canonical, SnapshotId, Evaluate, Assess, Assembled, Lookup, ConsultAll, Speaks, Carries, FreshUntil;
    var g := Assembled(policy, q, evidence, decisions, ps, required);
    var snap := MakeSnapshot(codec, q.pkg, q.version, g.observations, g.states, createdAt);
    EvidenceIsUsed(policy, q, evidence, decisions, ps, required, i);
    assert Carries(policy, q.now, g.observations, s);
    var x := CanonicalCarries(codec, policy, q.now, g.observations, s);
    SpeaksAlike(f, s, x, threshold);
    ForbiddenBlocks(profile, snap, threshold, x, f);
  }

  lemma CanonicalCarries(codec: Codec, policy: FreshnessPolicy, now: Time, obs: seq<Signal>, s: Signal) returns (c: Signal)
    requires Carries(policy, now, obs, s)
    ensures c in Canonical(codec, obs) && c.kind == s.kind && c.observation == s.observation
  {
    hide Canonical, FreshUntil;
    CanonicalIsCanonical(codec, obs);
    var x :| x in obs && x.kind == s.kind && x.observation == s.observation;
    var i :| 0 <= i < |obs| && obs[i] == x;
    c := NormalizeAll(obs)[i];
    assert c in multiset(NormalizeAll(obs)) && c in multiset(Canonical(codec, obs));
  }

  lemma SpeaksAlike(f: Flag, s: Signal, x: Signal, threshold: string)
    requires s.kind == x.kind && s.observation == x.observation && Speaks(f, s, threshold)
    ensures Speaks(f, x, threshold)
  {
  }
}
