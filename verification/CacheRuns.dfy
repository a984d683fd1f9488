/** What the evidence cache serves over a run of assemblies. */
module CacheRuns {
  import opened Prelude
  import opened Snapshot
  import opened Evidence
  import opened Assembler

  // ------------------------------------------------------- the cache of a run

  /** One assembly: the query, and the providers as they answer at that time. */
  datatype Assembly = Assembly(query: Query, providers: seq<Provider>)

  type Coordinates = (string, string, string)

  /** The last live available outcome stored under each kind, package and version. */
  type Log = map<Coordinates, Outcome>

  predicate Stores(q: Query, evidence: map<string, Entry>, p: Provider)
  {
    var cached := Lookup(evidence, p.kind, q.pkg, q.version, q.now);
    !(cached.Some? && cached.value.state == Available) && p.provide(q.pkg, q.version).state == Available
  }

  function LogAfter(q: Query, evidence: map<string, Entry>, log: Log, p: Provider): Log
  {
    if Stores(q, evidence, p) then log[(p.kind, q.pkg, q.version) := p.provide(q.pkg, q.version)] else log
  }

  /** Cache and log after the providers of one assembly. */
  function AfterProviders(policy: FreshnessPolicy, q: Query, c: (map<string, Entry>, Log), ps: seq<Provider>): (map<string, Entry>, Log)
  {
    if ps == [] then c else
      var (evidence, log) := AfterProviders(policy, q, c, ps[..|ps| - 1]);
      var p := ps[|ps| - 1];
      (CacheAfter(policy, q, evidence, p), LogAfter(q, evidence, log, p))
  }

  /** Cache and log after a run of assemblies that starts with an empty cache. */
  function AfterRun(policy: FreshnessPolicy, run: seq<Assembly>): (map<string, Entry>, Log)
  {
    if run == [] then (map[], map[]) else
      var last := run[|run| - 1];
      AfterProviders(policy, last.query, AfterRun(policy, run[..|run| - 1]), last.providers)
  }

  /** The cache of the run is the one the assembler's steps produce. */
  lemma {:induction false} SameCacheAsAssembler(policy: FreshnessPolicy, q: Query, g: Gathered, log: Log, ps: seq<Provider>)
    ensures AfterProviders(policy, q, (g.evidence, log), ps).0 == ConsultAll(policy, q, g, ps).evidence
  {
    hide Lookup, CacheAfter, Stores, StampAll, Chosen;
    if ps != [] {
      SameCacheAsAssembler(policy, q, g, log, ps[..|ps| - 1]);
    }
  }

  // ------------------------------------------------------------ the invariant

  /** The provider sets its freshness by the policy, and its kind can be told apart in a key. */
  ghost predicate ProviderOk(policy: FreshnessPolicy, q: Query, p: Provider)
  {
    && WellNamed(p.kind, q.version)
    && var live := p.provide(q.pkg, q.version);
       live.state == Available ==>
         Constructed(live) && live.kind == p.kind && live.freshUntil == FreshUntil(policy, p.kind, live.retrievedAt)
  }

  ghost predicate RunOk(policy: FreshnessPolicy, run: seq<Assembly>)
  {
    forall i, j :: 0 <= i < |run| && 0 <= j < |run[i].providers| ==> ProviderOk(policy, run[i].query, run[i].providers[j])
  }

  function EntryFor(policy: FreshnessPolicy, kind: string, o: Outcome): Entry
  {
    Entry(o, FreshUntil(policy, kind, o.retrievedAt), StaleUntil(policy, kind, o.retrievedAt))
  }

  /** What the cache holds for well-named coordinates is what the log holds, with the policy's windows. */
  ghost predicate Faithful(policy: FreshnessPolicy, c: (map<string, Entry>, Log))
  {
    forall k, p, v :: WellNamed(k, v) ==>
      var key := EvidenceKey(k, p, v);
      && (key in c.0 <==> (k, p, v) in c.1)
      && (key in c.0 ==> Constructed(c.1[(k, p, v)]) && c.0[key] == EntryFor(policy, k, c.1[(k, p, v)]))
  }

  lemma StoringKeepsFaithful(policy: FreshnessPolicy, c: (map<string, Entry>, Log), kind: string, pkg: string, version: string, o: Outcome)
    requires Faithful(policy, c) && WellNamed(kind, version) && Constructed(o)
    ensures Faithful(policy, (c.0[EvidenceKey(kind, pkg, version) := EntryFor(policy, kind, o)], c.1[(kind, pkg, version) := o]))
  {
    hide EvidenceKey, EntryFor, Constructed;
    forall k, p, v | WellNamed(k, v) && EvidenceKey(k, p, v) == EvidenceKey(kind, pkg, version)
      ensures (k, p, v) == (kind, pkg, version)
    {
      EvidenceKeyInjective(k, p, v, kind, pkg, version);
    }
  }

  lemma ConsultingKeepsFaithful(policy: FreshnessPolicy, q: Query, c: (map<string, Entry>, Log), p: Provider)
    requires Faithful(policy, c) && ProviderOk(policy, q, p)
    ensures Faithful(policy, (CacheAfter(policy, q, c.0, p), LogAfter(q, c.0, c.1, p)))
  {
    hide EvidenceKey, Lookup, Faithful;
    if Stores(q, c.0, p) {
      var live := p.provide(q.pkg, q.version);
      var w := ConfigFor(policy, p.kind);
      NormalizeIdempotent(live.retrievedAt + (w.freshTtl + w.staleTtl));
      StoringKeepsFaithful(policy, c, p.kind, q.pkg, q.version, live);
    }
  }

  lemma {:induction false} ProvidersKeepFaithful(policy: FreshnessPolicy, q: Query, c: (map<string, Entry>, Log), ps: seq<Provider>)
    requires Faithful(policy, c) && forall i :: 0 <= i < |ps| ==> ProviderOk(policy, q, ps[i])
    ensures Faithful(policy, AfterProviders(policy, q, c, ps))
  {
    hide Faithful, ProviderOk, CacheAfter, LogAfter;
    if ps != [] {
      ProvidersKeepFaithful(policy, q, c, ps[..|ps| - 1]);
      ConsultingKeepsFaithful(policy, q, AfterProviders(policy, q, c, ps[..|ps| - 1]), ps[|ps| - 1]);
    }
  }

  lemma {:induction false} RunIsFaithful(policy: FreshnessPolicy, run: seq<Assembly>)
    requires RunOk(policy, run)
    ensures Faithful(policy, AfterRun(policy, run))
  {
    hide ProviderOk;
    if run != [] {
      var before, last := run[..|run| - 1], run[|run| - 1];
      forall i, j | 0 <= i < |before| && 0 <= j < |before[i].providers| ensures ProviderOk(policy, before[i].query, before[i].providers[j]) {
        assert before[i] == run[i];
      }
      RunIsFaithful(policy, before);
      ProvidersKeepFaithful(policy, last.query, AfterRun(policy, before), last.providers);
    }
  }

  // ---------------------------------------------------------- what is proved

  /** How an outcome is served in a freshness state. */
  function ServedAs(o: Outcome, s: State): Option<Outcome>
  {
    match s
    case Available => Some(o.(state := Available))
    case Stale => Some(o.(state := Stale))
    case _ => None
  }

  /**
   After any run of assemblies the cache serves, for every kind, package and version, the last
   outcome stored for exactly these coordinates, in the state Classify gives it, or nothing.
   */
  lemma CacheServesAsClassified(policy: FreshnessPolicy, run: seq<Assembly>, kind: string, pkg: string, version: string, now: Time)
    requires RunOk(policy, run) && WellNamed(kind, version)
    ensures var (evidence, log) := AfterRun(policy, run);
      Lookup(evidence, kind, pkg, version, now) ==
      if (kind, pkg, version) !in log then None
      else var o := log[(kind, pkg, version)]; ServedAs(o, Classify(policy, kind, o.retrievedAt, now))
  {
    hide RunOk, AfterRun, EvidenceKey;
    RunIsFaithful(policy, run);
    var (evidence, log) := AfterRun(policy, run);
    var key := EvidenceKey(kind, pkg, version);
    assert key in evidence <==> (kind, pkg, version) in log;
  }

  function Age(s: State): nat
  {
    match s
    case Available => 0
    case Stale => 1
    case _ => 2
  }

  lemma NormalizeMonotone(t: Time, u: Time)
    requires t <= u
    ensures NormalizeTime(t) <= NormalizeTime(u)
  {
  }

  /** While nothing new is stored, an outcome only ages: available, then stale, then not served. */
  lemma FreshnessOnlyFalls(policy: FreshnessPolicy, kind: string, retrievedAt: Time, now: Time, later: Time)
    requires now <= later
    ensures Age(Classify(policy, kind, retrievedAt, now)) <= Age(Classify(policy, kind, retrievedAt, later))
  {
    hide NormalizeTime;
    NormalizeMonotone(now, later);
  }

  /** An assembly that consults no provider for a kind stores nothing for it. */
  lemma {:induction false} OtherKindsAreUntouched(policy: FreshnessPolicy, q: Query, c: (map<string, Entry>, Log), ps: seq<Provider>, x: Coordinates)
    requires (q.pkg, q.version) != (x.1, x.2) || forall i :: 0 <= i < |ps| ==> ps[i].kind != x.0
    ensures x in AfterProviders(policy, q, c, ps).1 <==> x in c.1
    ensures x in c.1 ==> AfterProviders(policy, q, c, ps).1[x] == c.1[x]
  {
    hide Lookup, CacheAfter, Stores;
    if ps != [] {
      OtherKindsAreUntouched(policy, q, c, ps[..|ps| - 1], x);
    }
  }

  function ServedAge(r: Option<Outcome>): nat
  {
    if r.None? then 2 else Age(r.value.state)
  }

  /**
   However a run goes on, as long as no new outcome is stored for some coordinates, what the cache
   serves for them later is what it served before, only older, or nothing.
   */
  lemma ServedOnlyAges(policy: FreshnessPolicy, run: seq<Assembly>, longer: seq<Assembly>,
                       kind: string, pkg: string, version: string, now: Time, later: Time)
    requires RunOk(policy, run) && RunOk(policy, longer) && run <= longer && WellNamed(kind, version) && now <= later
    requires var x, a, b := (kind, pkg, version), AfterRun(policy, run).1, AfterRun(policy, longer).1;
      (x in a <==> x in b) && (x in a ==> a[x] == b[x])
    ensures var before := Lookup(AfterRun(policy, run).0, kind, pkg, version, now);
      var after := Lookup(AfterRun(policy, longer).0, kind, pkg, version, later);
      && ServedAge(before) <= ServedAge(after)
      && (after.Some? ==> before.Some? && after.value == before.value.(state := after.value.state))
  {
    hide RunOk, AfterRun, Lookup, Classify;
    CacheServesAsClassified(policy, run, kind, pkg, version, now);
    CacheServesAsClassified(policy, longer, kind, pkg, version, later);
    var x, log := (kind, pkg, version), AfterRun(policy, run).1;
    if x in log {
      FreshnessOnlyFalls(policy, kind, log[x].retrievedAt, now, later);
    }
  }
}
