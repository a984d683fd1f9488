/** Sorting, the uniqueness of its result when the order tells everything apart, and lexicographic order. */
module Order {

  // ------------------------------------------------------------------ sorting

  /** A comparison that ranks any two rows, possibly alike. */
  ghost predicate Ranks<T(!new)>(leq: (T, T) -> bool)
  {
    && (forall x, y :: leq(x, y) || leq(y, x))
    && (forall x, y, z :: leq(x, y) && leq(y, z) ==> leq(x, z))
  }

  ghost predicate Sorted<T>(leq: (T, T) -> bool, s: seq<T>)
  {
    forall i, j :: 0 <= i < j < |s| ==> leq(s[i], s[j])
  }

  /** No two different rows rank alike. */
  ghost predicate Separates<T(!new)>(leq: (T, T) -> bool, s: set<T>)
  {
    forall x, y :: x in s && y in s && leq(x, y) && leq(y, x) ==> x == y
  }

  function InsertRow<T>(leq: (T, T) -> bool, s: seq<T>, x: T): seq<T>
  {
    if s == [] || leq(x, s[0]) then [x] + s else [s[0]] + InsertRow(leq, s[1..], x)
  }

  lemma {:induction false} InsertRowElements<T>(leq: (T, T) -> bool, s: seq<T>, x: T)
    ensures multiset(InsertRow(leq, s, x)) == multiset(s) + multiset{x}
  {
    if s != [] && !leq(x, s[0]) {
      InsertRowElements(leq, s[1..], x);
      assert s == [s[0]] + s[1..];
    }
  }

  lemma {:induction false} InsertRowSorted<T(!new)>(leq: (T, T) -> bool, s: seq<T>, x: T)
    requires Ranks(leq) && Sorted(leq, s)
    ensures Sorted(leq, InsertRow(leq, s, x))
  {
    if s != [] && !leq(x, s[0]) {
      var rest := InsertRow(leq, s[1..], x);
      InsertRowSorted(leq, s[1..], x);
      forall i | 0 <= i < |rest| ensures leq(s[0], rest[i]) {
        InsertRowElements(leq, s[1..], x);
        assert rest[i] in multiset(rest);
      }
    }
  }

  /** Stands for `sort.Slice`: some ascending permutation. */
  method SortRows<T(!new)>(leq: (T, T) -> bool, rows: seq<T>) returns (s: seq<T>)
    requires Ranks(leq)
    ensures Sorted(leq, s) && multiset(s) == multiset(rows)
  {
    s := [];
    for n := 0 to |rows|
      invariant Sorted(leq, s) && multiset(s) == multiset(rows[..n])
    {
      InsertRowSorted(leq, s, rows[n]);
      InsertRowElements(leq, s, rows[n]);
      s := InsertRow(leq, s, rows[n]);
      assert rows[..n + 1] == rows[..n] + [rows[n]];
    }
    assert rows[..|rows|] == rows;
  }

  lemma FirstIsLeast<T(!new)>(leq: (T, T) -> bool, s: seq<T>, x: T)
    requires Ranks(leq) && Sorted(leq, s) && x in multiset(s)
    ensures leq(s[0], x)
  {
    var i :| 0 <= i < |s| && s[i] == x;
  }

  lemma HeadsAgree<T(!new)>(leq: (T, T) -> bool, s: seq<T>, t: seq<T>)
    requires Ranks(leq) && Sorted(leq, s) && Sorted(leq, t) && multiset(s) == multiset(t)
    requires Separates(leq, set x | x in s) && s != [] && t != []
    ensures s[0] == t[0]
  {
    assert s[0] in multiset(s) && t[0] in multiset(t);
    FirstIsLeast(leq, s, t[0]);
    FirstIsLeast(leq, t, s[0]);
    assert t[0] in s;
  }

  lemma TailElements<T>(s: seq<T>)
    requires s != []
    ensures multiset(s[1..]) == multiset(s) - multiset{s[0]}
  {
    assert s == [s[0]] + s[1..];
  }

  lemma TailKeeps<T(!new)>(leq: (T, T) -> bool, s: seq<T>)
    requires Sorted(leq, s) && s != []
    ensures Sorted(leq, s[1..])
    ensures Separates(leq, set x | x in s) ==> Separates(leq, set x | x in s[1..])
  {
  }

  /** If the order tells all the rows apart, there is only one sorted arrangement of them. */
  lemma {:induction false} SortedIsUnique<T(!new)>(leq: (T, T) -> bool, s: seq<T>, t: seq<T>)
    requires Ranks(leq) && Sorted(leq, s) && Sorted(leq, t) && multiset(s) == multiset(t)
    requires Separates(leq, set x | x in s)
    ensures s == t
    decreases |s|
  {
    hide Ranks, Sorted, Separates;
    assert |s| == |multiset(s)| == |multiset(t)| == |t|;
    if s != [] {
      HeadsAgree(leq, s, t);
      TailElements(s);
      TailElements(t);
      TailKeeps(leq, s);
      TailKeeps(leq, t);
      SortedIsUnique(leq, s[1..], t[1..]);
      assert s == [s[0]] + s[1..] && t == [t[0]] + t[1..];
    }
  }

  // ------------------------------------------------------- lexicographic order

  /** Three-way comparison of strings by code point, which is byte order in UTF-8. */
  function Cmp(a: string, b: string): (r: int)
    ensures -1 <= r <= 1
  {
    if a == "" then (if b == "" then 0 else -1)
    else if b == "" then 1
    else if a[0] < b[0] then -1
    else if a[0] > b[0] then 1
    else Cmp(a[1..], b[1..])
  }

  lemma {:induction false} CmpEqual(a: string, b: string)
    ensures Cmp(a, b) == 0 <==> a == b
    ensures Cmp(a, b) == -Cmp(b, a)
  {
    if a != "" && b != "" && a[0] == b[0] {
      CmpEqual(a[1..], b[1..]);
      assert a == [a[0]] + a[1..] && b == [b[0]] + b[1..];
    }
  }

  lemma {:induction false} CmpTransitive(a: string, b: string, c: string)
    requires Cmp(a, b) <= 0 && Cmp(b, c) <= 0
    ensures Cmp(a, c) <= 0
  {
    if a != "" && b != "" && c != "" && a[0] == b[0] == c[0] {
      CmpTransitive(a[1..], b[1..], c[1..]);
    }
  }

  /** Less means a proper prefix, or smaller at the first difference. */
  lemma {:induction false} CmpLessIff(a: string, b: string)
    ensures Cmp(a, b) < 0 <==> a < b || exists i :: 0 <= i < |a| && i < |b| && a[..i] == b[..i] && a[i] < b[i]
  {
    if a != "" && b != "" && a[0] == b[0] {
      var x, y := a[1..], b[1..];
      CmpLessIff(x, y);
      assert a == [a[0]] + x && b == [b[0]] + y;
      if i :| 0 <= i < |x| && i < |y| && x[..i] == y[..i] && x[i] < y[i] {
        assert a[..i + 1] == [a[0]] + x[..i] && b[..i + 1] == [b[0]] + y[..i];
        assert a[i + 1] < b[i + 1];
      }
      if i :| 0 <= i < |a| && i < |b| && a[..i] == b[..i] && a[i] < b[i] {
        assert i > 0;
        assert x[..i - 1] == a[..i][1..] && y[..i - 1] == b[..i][1..];
        assert x[i - 1] < y[i - 1];
      }
    } else if a != "" && b != "" {
      if a[0] < b[0] {
        assert a[..0] == b[..0] && a[0] < b[0];
      }
      forall i | 0 <= i < |a| && i < |b| ensures i > 0 ==> a[..i] != b[..i] {
        HeadsDiffer(a, b, i);
      }
    }
  }

  lemma HeadsDiffer(a: string, b: string, i: nat)
    requires a != "" && b != "" && a[0] != b[0] && i <= |a| && i <= |b|
    ensures i > 0 ==> a[..i] != b[..i]
  {
    if i > 0 {
      assert a[..i][0] == a[0] && b[..i][0] == b[0];
    }
  }

  /** Lexicographic comparison of the lists of fields of two rows. */
  function CmpAll(a: seq<string>, b: seq<string>): (r: int)
    ensures -1 <= r <= 1
  {
    if a == [] then (if b == [] then 0 else -1)
    else if b == [] then 1
    else if Cmp(a[0], b[0]) != 0 then Cmp(a[0], b[0])
    else CmpAll(a[1..], b[1..])
  }

  lemma {:induction false} CmpAllEqual(a: seq<string>, b: seq<string>)
    ensures CmpAll(a, b) == 0 <==> a == b
    ensures CmpAll(a, b) == -CmpAll(b, a)
  {
    if a != [] && b != [] {
      CmpEqual(a[0], b[0]);
      CmpAllEqual(a[1..], b[1..]);
      assert a == [a[0]] + a[1..] && b == [b[0]] + b[1..];
    }
  }

  /** The first field that differs decides. */
  lemma {:induction false} CmpAllAt(a: seq<string>, b: seq<string>, i: nat)
    requires i < |a| && i < |b| && a[..i] == b[..i] && a[i] != b[i]
    ensures CmpAll(a, b) == Cmp(a[i], b[i])
    decreases i
  {
    CmpEqual(a[0], b[0]);
    if i > 0 {
      assert a[..i][0] == b[..i][0];
      assert a[1..][..i - 1] == a[..i][1..] && b[1..][..i - 1] == b[..i][1..];
      CmpAllAt(a[1..], b[1..], i - 1);
    }
  }

  lemma {:induction false} CmpAllTransitive(a: seq<string>, b: seq<string>, c: seq<string>)
    requires CmpAll(a, b) <= 0 && CmpAll(b, c) <= 0
    ensures CmpAll(a, c) <= 0
  {
    if a != [] && b != [] && c != [] {
      CmpEqual(a[0], b[0]);
      CmpEqual(b[0], c[0]);
      CmpEqual(a[0], c[0]);
      CmpTransitive(a[0], b[0], c[0]);
      if a[0] == b[0] == c[0] {
        CmpAllTransitive(a[1..], b[1..], c[1..]);
      }
    }
  }

  /** The order of rows by the lists of strings they are compared by. */
  function ByKey<T>(key: T -> seq<string>): (T, T) -> bool
  {
    (x, y) => CmpAll(key(x), key(y)) <= 0
  }

  lemma ByKeyRanks<T(!new)>(key: T -> seq<string>)
    ensures Ranks(ByKey(key))
    ensures forall x, y :: ByKey(key)(x, y) && ByKey(key)(y, x) ==> key(x) == key(y)
  {
    hide CmpAll;
    forall x, y ensures CmpAll(key(x), key(y)) == -CmpAll(key(y), key(x)) {
      CmpAllEqual(key(x), key(y));
    }
    forall x, y, z | ByKey(key)(x, y) && ByKey(key)(y, z) ensures ByKey(key)(x, z) {
      CmpAllTransitive(key(x), key(y), key(z));
    }
    forall x, y | ByKey(key)(x, y) && ByKey(key)(y, x) ensures key(x) == key(y) {
      CmpAllEqual(key(x), key(y));
    }
  }
}
