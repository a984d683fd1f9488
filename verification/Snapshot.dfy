/** Evidence snapshots: signals in canonical order under a content-derived identity. */
module Snapshot {
  import opened Prelude
  import opened Order

  /** Nanoseconds since the zero time, which is 0. */
  type Time = int

  datatype Signal = Signal(kind: string, source: string, observation: string, confidence: string,
                           retrievedAt: Time, freshUntil: Time)

  datatype State = Available | Stale | Degraded | Unavailable

  datatype Snapshot = Snapshot(id: string, pkg: string, version: string, observations: seq<Signal>,
                               states: map<string, State>, createdAt: Time)

  /** UTC, truncated to milliseconds; the zero time stays itself. */
  function NormalizeTime(t: Time): Time
  {
    if t == 0 then 0 else t - t % 1_000_000
  }

  /** Normalising rounds down to the whole millisecond. */
  lemma NormalizeRoundsDown(t: Time)
    ensures NormalizeTime(t) <= t < NormalizeTime(t) + 1_000_000 && NormalizeTime(t) % 1_000_000 == 0
  {
  }

  lemma NormalizeIdempotent(t: Time)
    ensures NormalizeTime(NormalizeTime(t)) == NormalizeTime(t)
  {
  }

  function Normalize(s: Signal): Signal
  {
    s.(retrievedAt := NormalizeTime(s.retrievedAt), freshUntil := NormalizeTime(s.freshUntil))
  }

  function NormalizeAll(obs: seq<Signal>): seq<Signal>
  {
    seq(|obs|, i requires 0 <= i < |obs| => Normalize(obs[i]))
  }

  /** A time as the payload writes it (RFC 3339 with nanoseconds), and the SHA-256 of a payload's JSON. */
  datatype Codec = Codec(format: Time -> string, digest: Payload -> string)

  /** Different times are written differently. */
  ghost predicate ValidCodec(codec: Codec)
  {
    forall t, u :: codec.format(t) == codec.format(u) ==> t == u
  }

  datatype Row = Row(fields: seq<string>)

  datatype Payload = Payload(pkg: string, version: string, observations: seq<Row>, states: seq<(string, State)>)

  /** What the sort compares, field by field. */
  function SortKey(codec: Codec, s: Signal): seq<string>
  {
    [s.kind, s.source, s.observation, s.confidence, codec.format(s.retrievedAt), codec.format(s.freshUntil)]
  }

  function SignalOrder(codec: Codec): (Signal, Signal) -> bool
  {
    ByKey((s: Signal) => SortKey(codec, s))
  }

  ghost predicate InOrder(codec: Codec, obs: seq<Signal>)
  {
    Sorted(SignalOrder(codec), obs)
  }

  /** Signals are ordered by kind, source, observation, confidence and the two times as text, in this order. */
  lemma SignalOrderIs(codec: Codec, x: Signal, y: Signal)
    ensures var before := SignalOrder(codec)(x, y);
      if x.kind != y.kind then before == (Cmp(x.kind, y.kind) < 0)
      else if x.source != y.source then before == (Cmp(x.source, y.source) < 0)
      else if x.observation != y.observation then before == (Cmp(x.observation, y.observation) < 0)
      else if x.confidence != y.confidence then before == (Cmp(x.confidence, y.confidence) < 0)
      else if codec.format(x.retrievedAt) != codec.format(y.retrievedAt) then
        before == (Cmp(codec.format(x.retrievedAt), codec.format(y.retrievedAt)) < 0)
      else before == (Cmp(codec.format(x.freshUntil), codec.format(y.freshUntil)) <= 0)
  {
    hide Cmp, CmpAll;
    var a, b := SortKey(codec, x), SortKey(codec, y);
    if x.kind != y.kind {
      DecidedAt(a, b, 0);
    } else if x.source != y.source {
      DecidedAt(a, b, 1);
    } else if x.observation != y.observation {
      DecidedAt(a, b, 2);
    } else if x.confidence != y.confidence {
      DecidedAt(a, b, 3);
    } else if codec.format(x.retrievedAt) != codec.format(y.retrievedAt) {
      DecidedAt(a, b, 4);
    } else if codec.format(x.freshUntil) != codec.format(y.freshUntil) {
      DecidedAt(a, b, 5);
    } else {
      CmpAllEqual(a, b);
      CmpEqual(a[5], b[5]);
    }
  }

  lemma DecidedAt(a: seq<string>, b: seq<string>, i: nat)
    requires |a| == |b| && i < |a| && a[i] != b[i] && forall j :: 0 <= j < i ==> a[j] == b[j]
    ensures CmpAll(a, b) == Cmp(a[i], b[i]) != 0
  {
    assert a[..i] == b[..i];
    CmpAllAt(a, b, i);
    CmpEqual(a[i], b[i]);
  }

  /** The canonical arrangement of `obs`: normalised, and sorted. */
  ghost predicate IsCanonical(codec: Codec, obs: seq<Signal>, res: seq<Signal>)
  {
    InOrder(codec, res) && multiset(res) == multiset(NormalizeAll(obs))
  }

  lemma KeyInjective(codec: Codec, x: Signal, y: Signal)
    requires ValidCodec(codec) && SortKey(codec, x) == SortKey(codec, y)
    ensures x == y
  {
    var a, b := SortKey(codec, x), SortKey(codec, y);
    assert a[0] == b[0] && a[1] == b[1] && a[2] == b[2] && a[3] == b[3] && a[4] == b[4] && a[5] == b[5];
  }

  lemma OrderSeparates(codec: Codec, s: set<Signal>)
    requires ValidCodec(codec)
    ensures Ranks(SignalOrder(codec)) && Separates(SignalOrder(codec), s)
  {
    hide SortKey;
    var key := (x: Signal) => SortKey(codec, x);
    ByKeyRanks(key);
    forall x, y | SignalOrder(codec)(x, y) && SignalOrder(codec)(y, x) ensures x == y {
      assert key(x) == key(y);
      KeyInjective(codec, x, y);
    }
  }

  /** There is only one canonical arrangement, and it depends on the multiset of normalised signals alone. */
  lemma CanonicalIsUnique(codec: Codec, obs: seq<Signal>, obs': seq<Signal>, res: seq<Signal>, res': seq<Signal>)
    requires ValidCodec(codec) && IsCanonical(codec, obs, res) && IsCanonical(codec, obs', res')
    requires multiset(NormalizeAll(obs)) == multiset(NormalizeAll(obs'))
    ensures res == res'
  {
    OrderSeparates(codec, set x | x in res);
    SortedIsUnique(SignalOrder(codec), res, res');
  }

  method CanonicalizeObservations(codec: Codec, obs: seq<Signal>) returns (res: seq<Signal>)
    ensures IsCanonical(codec, obs, res)
  {
    var rows: seq<Signal> := [];
    for i := 0 to |obs|
      invariant rows == NormalizeAll(obs[..i])
    {
      rows := rows + [Signal(obs[i].kind, obs[i].source, obs[i].observation, obs[i].confidence,
                             NormalizeTime(obs[i].retrievedAt), NormalizeTime(obs[i].freshUntil))];
      assert obs[..i + 1] == obs[..i] + [obs[i]];
    }
    assert obs[..|obs|] == obs;
    ByKeyRanks((s: Signal) => SortKey(codec, s));
    res := SortRows(SignalOrder(codec), rows);
  }

  function InsertAll(codec: Codec, rows: seq<Signal>): seq<Signal>
  {
    if rows == [] then [] else InsertRow(SignalOrder(codec), InsertAll(codec, rows[1..]), rows[0])
  }

  function Canonical(codec: Codec, obs: seq<Signal>): seq<Signal>
  {
    InsertAll(codec, NormalizeAll(obs))
  }

  lemma {:induction false} InsertAllSorts(codec: Codec, rows: seq<Signal>)
    ensures InOrder(codec, InsertAll(codec, rows)) && multiset(InsertAll(codec, rows)) == multiset(rows)
  {
    if rows != [] {
      InsertAllSorts(codec, rows[1..]);
      ByKeyRanks((s: Signal) => SortKey(codec, s));
      InsertRowSorted(SignalOrder(codec), InsertAll(codec, rows[1..]), rows[0]);
      InsertRowElements(SignalOrder(codec), InsertAll(codec, rows[1..]), rows[0]);
      assert rows == [rows[0]] + rows[1..];
    }
  }

  lemma CanonicalIsCanonical(codec: Codec, obs: seq<Signal>)
    ensures IsCanonical(codec, obs, Canonical(codec, obs))
  {
    InsertAllSorts(codec, NormalizeAll(obs));
  }

  // -------------------------------------------------------------- identity

  function PairKey(p: (string, State)): seq<string>
  {
    [p.0]
  }

  function PairOrder(): ((string, State), (string, State)) -> bool
  {
    ByKey(PairKey)
  }

  /** The entries of the state map by ascending key. */
  ghost predicate Lists(list: seq<(string, State)>, states: map<string, State>)
  {
    Sorted(PairOrder(), list) && multiset(list) == multiset(states.Items)
  }

  lemma ListIsUnique(list: seq<(string, State)>, list': seq<(string, State)>, states: map<string, State>)
    requires Lists(list, states) && Lists(list', states)
    ensures list == list'
  {
    ByKeyRanks(PairKey);
    forall x, y | x in list && y in list && PairOrder()(x, y) && PairOrder()(y, x) ensures x == y {
      assert PairKey(x) == PairKey(y);
      assert x in multiset(list) && y in multiset(list);
      assert x in states.Items && y in states.Items;
      assert PairKey(x)[0] == PairKey(y)[0];
    }
    SortedIsUnique(PairOrder(), list, list');
  }

  lemma RemoveItem(states: map<string, State>, k: string)
    requires k in states
    ensures multiset(states.Items) == multiset((states - {k}).Items) + multiset{(k, states[k])}
  {
    var rest := states - {k};
    forall p ensures p in states.Items <==> p in rest.Items + {(k, states[k])} {
      assert p in states.Items <==> p.0 in states && states[p.0] == p.1;
      assert p in rest.Items <==> p.0 in rest && rest[p.0] == p.1;
    }
    assert states.Items == rest.Items + {(k, states[k])};
    assert (k, states[k]) !in rest.Items;
  }

  lemma {:induction false} ListExists(states: map<string, State>) returns (list: seq<(string, State)>)
    ensures Lists(list, states)
    decreases |states|
  {
    list := [];
    if states == map[] {
      assert states.Items == {};
    } else {
      var k :| k in states;
      var rest := ListExists(states - {k});
      RemoveItem(states, k);
      ByKeyRanks(PairKey);
      InsertRowSorted(PairOrder(), rest, (k, states[k]));
      InsertRowElements(PairOrder(), rest, (k, states[k]));
      list := InsertRow(PairOrder(), rest, (k, states[k]));
    }
  }

  lemma SomeList(states: map<string, State>)
    ensures exists list :: Lists(list, states)
  {
    var list := ListExists(states);
  }

  ghost function StateList(states: map<string, State>): (list: seq<(string, State)>)
    ensures Lists(list, states)
  {
    SomeList(states);
    var list :| Lists(list, states);
    list
  }

  ghost function SnapshotId(codec: Codec, pkg: string, version: string, obs: seq<Signal>, states: map<string, State>): string
  {
    codec.digest(Payload(pkg, version, Rows(codec, obs), StateList(states)))
  }

  function Rows(codec: Codec, obs: seq<Signal>): seq<Row>
  {
    seq(|obs|, i requires 0 <= i < |obs| => Row(SortKey(codec, obs[i])))
  }

  ghost function MakeSnapshot(codec: Codec, pkg: string, version: string, obs: seq<Signal>,
                              states: map<string, State>, createdAt: Time): Snapshot
  {
    var sorted := Canonical(codec, obs);
    Snapshot(SnapshotId(codec, pkg, version, sorted, states), pkg, version, sorted, states, NormalizeTime(createdAt))
  }

  method ComputeSnapshotID(codec: Codec, pkg: string, version: string, sortedObs: seq<Signal>, states: map<string, State>)
    returns (id: string)
    ensures id == SnapshotId(codec, pkg, version, sortedObs, states)
  {
    var rows: seq<Row> := [];
    for i := 0 to |sortedObs|
      invariant rows == Rows(codec, sortedObs[..i])
    {
      rows := rows + [Row(SortKey(codec, sortedObs[i]))];
      assert sortedObs[..i + 1] == sortedObs[..i] + [sortedObs[i]];
    }
    assert sortedObs[..|sortedObs|] == sortedObs;
    var todo := states;
    var entries: seq<(string, State)> := [];
    while todo != map[]
      invariant multiset(entries) + multiset(todo.Items) == multiset(states.Items)
      decreases |todo|
    {
      var k :| k in todo;
      RemoveItem(todo, k);
      entries := entries + [(k, todo[k])];
      todo := todo - {k};
    }
    assert todo.Items == {};
    ByKeyRanks(PairKey);
    var list := SortRows(PairOrder(), entries);
    ListIsUnique(list, StateList(states), states);
    id := codec.digest(Payload(pkg, version, rows, list));
  }

  method NewSnapshot(codec: Codec, pkg: string, version: string, obs: seq<Signal>, states: map<string, State>, createdAt: Time)
    returns (s: Snapshot)
    requires ValidCodec(codec)
    ensures s == MakeSnapshot(codec, pkg, version, obs, states, createdAt)
  {
    var sorted := CanonicalizeObservations(codec, obs);
    CanonicalIsCanonical(codec, obs);
    CanonicalIsUnique(codec, obs, obs, sorted, Canonical(codec, obs));
    var id := ComputeSnapshotID(codec, pkg, version, sorted, states);
    s := Snapshot(id, pkg, version, sorted, states, NormalizeTime(createdAt));
  }

  // ------------------------------------------------------ encoding, decoding

  /** The JSON object a snapshot is stored as. */
  datatype Encoded = Encoded(id: string, pkg: string, version: string, observations: seq<Signal>,
                             states: map<string, State>, createdAt: Time)

  function Encode(s: Snapshot): Encoded
  {
    Encoded(s.id, s.pkg, s.version, s.observations, s.states, s.createdAt)
  }

  datatype DecodeError = IdentityMismatch(computed: string, stored: string)

  /** Decoding rebuilds the snapshot and refuses it if a stored identity is not the computed one. */
  method Decode(codec: Codec, raw: Encoded) returns (r: Result<Snapshot, DecodeError>)
    requires ValidCodec(codec)
    ensures var s := MakeSnapshot(codec, raw.pkg, raw.version, raw.observations, raw.states, raw.createdAt);
      r == if raw.id != "" && raw.id != s.id then Err(IdentityMismatch(s.id, raw.id)) else Ok(s)
  {
    var s := NewSnapshot(codec, raw.pkg, raw.version, raw.observations, raw.states, raw.createdAt);
    if raw.id != "" && raw.id != s.id {
      return Err(IdentityMismatch(s.id, raw.id));
    }
    r := Ok(s);
  }

  // ---------------------------------------------------------- what is proved

  function Without(obs: seq<Signal>, i: nat): seq<Signal>
    requires i < |obs|
  {
    obs[..i] + obs[i + 1..]
  }

  lemma PullOut(obs: seq<Signal>, i: nat)
    requires i < |obs|
    ensures multiset(obs) == multiset(Without(obs, i)) + multiset{obs[i]}
    ensures multiset(Without(obs, i)) == multiset(obs) - multiset{obs[i]}
  {
    assert obs == obs[..i] + [obs[i]] + obs[i + 1..];
  }

  lemma NormalizeWithout(obs: seq<Signal>, i: nat)
    requires i < |obs|
    ensures NormalizeAll(Without(obs, i)) == Without(NormalizeAll(obs), i)
  {
  }

  lemma {:induction false} NormalizeAllElements(obs: seq<Signal>, obs': seq<Signal>)
    requires multiset(obs) == multiset(obs')
    ensures multiset(NormalizeAll(obs)) == multiset(NormalizeAll(obs'))
    decreases |obs|
  {
    hide NormalizeAll, Without;
    assert |obs| == |multiset(obs)| == |multiset(obs')| == |obs'|;
    if obs == [] {
      assert obs == obs';
    } else {
      assert obs[0] in multiset(obs');
      var i :| 0 <= i < |obs'| && obs'[i] == obs[0];
      PullOut(obs, 0);
      PullOut(obs', i);
      NormalizedParts(obs, 0);
      NormalizedParts(obs', i);
      WithoutIsShorter(obs, 0);
      NormalizeAllElements(Without(obs, 0), Without(obs', i));
    }
  }

  lemma WithoutIsShorter(obs: seq<Signal>, i: nat)
    requires i < |obs|
    ensures |Without(obs, i)| < |obs|
  {
  }

  lemma NormalizedParts(obs: seq<Signal>, i: nat)
    requires i < |obs|
    ensures multiset(NormalizeAll(obs)) == multiset(NormalizeAll(Without(obs, i))) + multiset{Normalize(obs[i])}
  {
    NormalizeWithout(obs, i);
    PullOut(NormalizeAll(obs), i);
  }

  /** The snapshot and its identity depend on the multiset of normalised signals, not on order or finer times. */
  lemma OrderDoesNotMatter(codec: Codec, pkg: string, version: string, obs: seq<Signal>, obs': seq<Signal>,
                           states: map<string, State>, createdAt: Time)
    requires ValidCodec(codec) && multiset(NormalizeAll(obs)) == multiset(NormalizeAll(obs'))
    ensures MakeSnapshot(codec, pkg, version, obs, states, createdAt) == MakeSnapshot(codec, pkg, version, obs', states, createdAt)
  {
    CanonicalIsCanonical(codec, obs);
    CanonicalIsCanonical(codec, obs');
    CanonicalIsUnique(codec, obs, obs', Canonical(codec, obs), Canonical(codec, obs'));
  }

  /** In particular, any permutation of the signals gives the same snapshot. */
  lemma PermutationsAgree(codec: Codec, pkg: string, version: string, obs: seq<Signal>, obs': seq<Signal>,
                          states: map<string, State>, createdAt: Time)
    requires ValidCodec(codec) && multiset(obs) == multiset(obs')
    ensures MakeSnapshot(codec, pkg, version, obs, states, createdAt) == MakeSnapshot(codec, pkg, version, obs', states, createdAt)
  {
    NormalizeAllElements(obs, obs');
    OrderDoesNotMatter(codec, pkg, version, obs, obs', states, createdAt);
  }

  ghost predicate InjectiveDigest(codec: Codec)
  {
    forall p, q :: codec.digest(p) == codec.digest(q) ==> p == q
  }

  lemma RowsInjective(codec: Codec, obs: seq<Signal>, obs': seq<Signal>)
    requires ValidCodec(codec) && Rows(codec, obs) == Rows(codec, obs')
    ensures obs == obs'
  {
    assert |obs| == |Rows(codec, obs)| == |Rows(codec, obs')| == |obs'|;
    forall i | 0 <= i < |obs| ensures obs[i] == obs'[i] {
      assert Rows(codec, obs)[i] == Rows(codec, obs')[i];
      KeyInjective(codec, obs[i], obs'[i]);
    }
  }

  lemma StateListInjective(states: map<string, State>, states': map<string, State>)
    requires StateList(states) == StateList(states')
    ensures states == states'
  {
    assert multiset(states.Items) == multiset(states'.Items);
    forall p ensures p in states.Items <==> p in states'.Items {
      assert p in multiset(states.Items) <==> p in multiset(states'.Items);
    }
    forall k ensures k in states <==> k in states' {
      assert k in states ==> (k, states[k]) in states.Items;
      assert k in states' ==> (k, states'[k]) in states'.Items;
    }
    forall k | k in states ensures states[k] == states'[k] {
      assert (k, states[k]) in states.Items;
    }
  }

  /**
   Two snapshots have one identity exactly when they are of the same package version with the same
   multiset of normalised signals and the same states; times of creation do not enter.
   */
  lemma IdentityIff(codec: Codec, pkg: string, version: string, obs: seq<Signal>, states: map<string, State>, createdAt: Time,
                    pkg': string, version': string, obs': seq<Signal>, states': map<string, State>, createdAt': Time)
    requires ValidCodec(codec) && InjectiveDigest(codec)
    ensures var s := MakeSnapshot(codec, pkg, version, obs, states, createdAt);
      var s' := MakeSnapshot(codec, pkg', version', obs', states', createdAt');
      s.id == s'.id <==>
      pkg == pkg' && version == version' && multiset(NormalizeAll(obs)) == multiset(NormalizeAll(obs')) && states == states'
  {
    hide Canonical, NormalizeAll, Rows, StateList;
    var a, b := Canonical(codec, obs), Canonical(codec, obs');
    CanonicalIsCanonical(codec, obs);
    CanonicalIsCanonical(codec, obs');
    if SnapshotId(codec, pkg, version, a, states) == SnapshotId(codec, pkg', version', b, states') {
      RowsInjective(codec, a, b);
      StateListInjective(states, states');
    }
    if multiset(NormalizeAll(obs)) == multiset(NormalizeAll(obs')) {
      CanonicalIsUnique(codec, obs, obs', a, b);
    }
  }

  lemma CanonicalIsNormalized(codec: Codec, obs: seq<Signal>)
    ensures NormalizeAll(Canonical(codec, obs)) == Canonical(codec, obs)
  {
    CanonicalIsCanonical(codec, obs);
    var c, n := Canonical(codec, obs), NormalizeAll(obs);
    forall i | 0 <= i < |c| ensures Normalize(c[i]) == c[i] {
      assert c[i] in multiset(n);
      var j :| 0 <= j < |n| && n[j] == c[i];
      NormalizeIdempotent(obs[j].retrievedAt);
      NormalizeIdempotent(obs[j].freshUntil);
    }
  }

  lemma CanonicalIsIdempotent(codec: Codec, obs: seq<Signal>)
    requires ValidCodec(codec)
    ensures Canonical(codec, Canonical(codec, obs)) == Canonical(codec, obs)
  {
    var c := Canonical(codec, obs);
    CanonicalIsNormalized(codec, obs);
    CanonicalIsCanonical(codec, obs);
    CanonicalIsCanonical(codec, c);
    CanonicalIsUnique(codec, obs, c, c, Canonical(codec, c));
  }

  /** What a snapshot holds: everything it was given, the times rounded down to milliseconds. */
  lemma SnapshotHolds(codec: Codec, pkg: string, version: string, obs: seq<Signal>, states: map<string, State>, createdAt: Time)
    ensures var s := MakeSnapshot(codec, pkg, version, obs, states, createdAt);
      && s.pkg == pkg && s.version == version && s.states == states
      && s.createdAt <= createdAt < s.createdAt + 1_000_000 && s.createdAt % 1_000_000 == 0
      && |s.observations| == |obs|
      && (forall x :: x in obs ==> x.(retrievedAt := NormalizeTime(x.retrievedAt), freshUntil := NormalizeTime(x.freshUntil)) in s.observations)
  {
    hide Canonical, SnapshotId;
    CanonicalIsCanonical(codec, obs);
    var n, c := NormalizeAll(obs), Canonical(codec, obs);
    assert |c| == |multiset(c)| == |multiset(n)| == |n|;
    forall x | x in obs ensures Normalize(x) in c {
      var i :| 0 <= i < |obs| && obs[i] == x;
      assert n[i] in multiset(n) && n[i] in multiset(c);
    }
  }

  /** Decoding what was encoded gives the same snapshot back, and its identity check passes. */
  lemma EncodedSnapshotDecodes(codec: Codec, pkg: string, version: string, obs: seq<Signal>, states: map<string, State>, createdAt: Time)
    requires ValidCodec(codec)
    ensures var s := MakeSnapshot(codec, pkg, version, obs, states, createdAt);
      var raw := Encode(s);
      && MakeSnapshot(codec, raw.pkg, raw.version, raw.observations, raw.states, raw.createdAt) == s
      && raw.id == s.id
  {
    CanonicalIsIdempotent(codec, obs);
    NormalizeIdempotent(createdAt);
  }
}
