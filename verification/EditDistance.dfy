/**
 The two-row edit-distance program, and what edit distance means: the length of a shortest
 script of insertions, deletions and substitutions.
 */
module EditDistance {

  // ------------------------------------------------------------------ scripts

  /** Edits listed from the end of the word to its beginning. */
  datatype Edit = Keep | Substitute | Insert | Delete

  function Cost(script: seq<Edit>): nat
  {
    if script == [] then 0 else (if script[0] == Keep then 0 else 1) + Cost(script[1..])
  }

  function Init<T>(s: seq<T>): seq<T>
    requires s != []
  {
    s[..|s| - 1]
  }

  function Last<T>(s: seq<T>): T
    requires s != []
  {
    s[|s| - 1]
  }

  /** The script turns `a` into `b`. */
  predicate Turns<T(==)>(script: seq<Edit>, a: seq<T>, b: seq<T>)
    decreases |script|
  {
    if script == [] then a == [] && b == []
    else match script[0]
      case Keep => a != [] && b != [] && Last(a) == Last(b) && Turns(script[1..], Init(a), Init(b))
      case Substitute => a != [] && b != [] && Turns(script[1..], Init(a), Init(b))
      case Insert => b != [] && Turns(script[1..], a, Init(b))
      case Delete => a != [] && Turns(script[1..], Init(a), b)
  }

  // ----------------------------------------------------------------- distance

  function Min3(x: nat, y: nat, z: nat): nat
  {
    if x <= y && x <= z then x else if y <= z then y else z
  }

  /** The recurrence the program tabulates. */
  function Distance<T(==)>(a: seq<T>, b: seq<T>): nat
    decreases |a| + |b|
  {
    if a == [] then |b|
    else if b == [] then |a|
    else Min3(Distance(Init(a), b) + 1, Distance(a, Init(b)) + 1,
              Distance(Init(a), Init(b)) + if Last(a) == Last(b) then 0 else 1)
  }

  lemma {:induction false} NoShorterScript<T>(script: seq<Edit>, a: seq<T>, b: seq<T>)
    requires Turns(script, a, b)
    ensures Distance(a, b) <= Cost(script)
    decreases |script|
  {
    if script != [] {
      var rest := script[1..];
      match script[0]
      case Keep => NoShorterScript(rest, Init(a), Init(b));
      case Substitute => NoShorterScript(rest, Init(a), Init(b));
      case Insert => NoShorterScript(rest, a, Init(b));
      case Delete => NoShorterScript(rest, Init(a), b);
    }
  }

  lemma {:induction false} ShortestScript<T>(a: seq<T>, b: seq<T>) returns (script: seq<Edit>)
    ensures Turns(script, a, b) && Cost(script) == Distance(a, b)
    decreases |a| + |b|
  {
    var edit, rest;
    if a == [] && b == [] {
      script := [];
      return;
    } else if a == [] {
      edit := Insert;
      rest := ShortestScript(a, Init(b));
    } else if b == [] {
      edit := Delete;
      rest := ShortestScript(Init(a), b);
    } else if Distance(a, b) == Distance(Init(a), b) + 1 {
      edit := Delete;
      rest := ShortestScript(Init(a), b);
    } else if Distance(a, b) == Distance(a, Init(b)) + 1 {
      edit := Insert;
      rest := ShortestScript(a, Init(b));
    } else {
      edit := if Last(a) == Last(b) then Keep else Substitute;
      rest := ShortestScript(Init(a), Init(b));
    }
    script := [edit] + rest;
    assert script[1..] == rest;
  }

  /** `Distance` is the least cost of a script: some script has it, and none has less. */
  lemma DistanceIsShortest<T(!new)>(a: seq<T>, b: seq<T>)
    ensures exists script :: Turns(script, a, b) && Cost(script) == Distance(a, b)
    ensures forall script :: Turns(script, a, b) ==> Distance(a, b) <= Cost(script)
  {
    var s := ShortestScript(a, b);
    forall script | Turns(script, a, b) ensures Distance(a, b) <= Cost(script) {
      NoShorterScript(script, a, b);
    }
  }

  // ------------------------------------------------------------- metric laws

  function Reverse(script: seq<Edit>): seq<Edit>
  {
    if script == [] then [] else
      [match script[0] case Insert => Delete case Delete => Insert case e => e] + Reverse(script[1..])
  }

  lemma {:induction false} ReverseTurns<T>(script: seq<Edit>, a: seq<T>, b: seq<T>)
    requires Turns(script, a, b)
    ensures Turns(Reverse(script), b, a) && Cost(Reverse(script)) == Cost(script)
    decreases |script|
  {
    if script != [] {
      var rest := script[1..];
      assert Reverse(script)[1..] == Reverse(rest);
      match script[0]
      case Keep => ReverseTurns(rest, Init(a), Init(b));
      case Substitute => ReverseTurns(rest, Init(a), Init(b));
      case Insert => ReverseTurns(rest, a, Init(b));
      case Delete => ReverseTurns(rest, Init(a), b);
    }
  }

  lemma {:induction false} Symmetric<T>(a: seq<T>, b: seq<T>)
    ensures Distance(a, b) == Distance(b, a)
  {
    var s := ShortestScript(a, b);
    ReverseTurns(s, a, b);
    NoShorterScript(Reverse(s), b, a);
    var t := ShortestScript(b, a);
    ReverseTurns(t, b, a);
    NoShorterScript(Reverse(t), a, b);
  }

  lemma {:induction false} ZeroIffEqual<T>(a: seq<T>, b: seq<T>)
    ensures Distance(a, b) == 0 <==> a == b
    decreases |a| + |b|
  {
    if a != [] && b != [] {
      ZeroIffEqual(Init(a), Init(b));
      assert a == Init(a) + [Last(a)] && b == Init(b) + [Last(b)];
    }
  }

  lemma Prepend(e: Edit, rest: seq<Edit>)
    ensures ([e] + rest)[1..] == rest && Cost([e] + rest) == (if e == Keep then 0 else 1) + Cost(rest)
  {
  }

  /** A script from `a` to `b` and one from `b` to `c` combine to one from `a` to `c`, no costlier than both. */
  lemma {:induction false} Compose<T>(s: seq<Edit>, t: seq<Edit>, a: seq<T>, b: seq<T>, c: seq<T>) returns (u: seq<Edit>)
    requires Turns(s, a, b) && Turns(t, b, c)
    ensures Turns(u, a, c) && Cost(u) <= Cost(s) + Cost(t)
    decreases |s| + |t|
  {
    if s != [] && s[0] == Delete {
      var rest := Compose(s[1..], t, Init(a), b, c);
      u := [Delete] + rest;
      Prepend(Delete, rest);
    } else if t != [] && t[0] == Insert {
      var rest := Compose(s, t[1..], a, b, Init(c));
      u := [Insert] + rest;
      Prepend(Insert, rest);
    } else if s == [] {
      u := [];
    } else if s[0] == Insert {
      if t[0] == Delete {
        u := Compose(s[1..], t[1..], a, Init(b), c);
      } else {
        var rest := Compose(s[1..], t[1..], a, Init(b), Init(c));
        u := [Insert] + rest;
        Prepend(Insert, rest);
      }
    } else if t[0] == Delete {
      var rest := Compose(s[1..], t[1..], Init(a), Init(b), c);
      u := [Delete] + rest;
      Prepend(Delete, rest);
    } else {
      var rest := Compose(s[1..], t[1..], Init(a), Init(b), Init(c));
      var e := if s[0] == Keep && t[0] == Keep then Keep else Substitute;
      u := [e] + rest;
      Prepend(e, rest);
    }
  }

  lemma Triangle<T>(a: seq<T>, b: seq<T>, c: seq<T>)
    ensures Distance(a, c) <= Distance(a, b) + Distance(b, c)
  {
    var s := ShortestScript(a, b);
    var t := ShortestScript(b, c);
    var u := Compose(s, t, a, b, c);
    NoShorterScript(u, a, c);
  }

  // ------------------------------------------------------- the two-row program

  /** One row of the table: distances from a prefix of `r1` to all prefixes of `r2`. */
  ghost predicate RowUpTo(row: array<int>, a: string, r2: string, n: nat)
    requires n <= row.Length == |r2| + 1
    reads row
  {
    forall j :: 0 <= j < n ==> row[j] == Distance(a, r2[..j])
  }

  lemma {:induction false} DistanceStep<T>(a: seq<T>, b: seq<T>)
    requires a != [] && b != []
    ensures Distance(a, b) ==
      Min3(Distance(Init(a), b) + 1, Distance(a, Init(b)) + 1,
           Distance(Init(a), Init(b)) + if Last(a) == Last(b) then 0 else 1)
  {
  }

  lemma CellStep(r1: string, r2: string, i: nat, j: nat)
    requires 1 <= i <= |r1| && 1 <= j <= |r2|
    ensures Distance(r1[..i], r2[..j]) ==
      Min3(Distance(r1[..i - 1], r2[..j]) + 1, Distance(r1[..i], r2[..j - 1]) + 1,
           Distance(r1[..i - 1], r2[..j - 1]) + if r1[i - 1] == r2[j - 1] then 0 else 1)
  {
    hide Distance, Min3;
    DistanceStep(r1[..i], r2[..j]);
    assert Init(r1[..i]) == r1[..i - 1] && Init(r2[..j]) == r2[..j - 1];
  }

  lemma FirstCell(r1: string, r2: string, i: nat)
    requires i <= |r1|
    ensures Distance(r1[..i], r2[..0]) == i
  {
  }

  method FillRow(r1: string, r2: string, i: nat, prev: array<int>, curr: array<int>)
    requires 1 <= i <= |r1| && r2 != "" && prev != curr && prev.Length == curr.Length == |r2| + 1
    requires RowUpTo(prev, r1[..i - 1], r2, |r2| + 1)
    modifies curr
    ensures RowUpTo(curr, r1[..i], r2, |r2| + 1)
  {
    hide Distance;
    curr[0] := i;
    FirstCell(r1, r2, i);
    for j := 1 to |r2| + 1
      invariant RowUpTo(curr, r1[..i], r2, j)
      invariant RowUpTo(prev, r1[..i - 1], r2, |r2| + 1)
    {
      var cost := 1;
      if r1[i - 1] == r2[j - 1] {
        cost := 0;
      }
      CellStep(r1, r2, i, j);
      var deletion, insertion, substitution := prev[j] + 1, curr[j - 1] + 1, prev[j - 1] + cost;
      curr[j] := if deletion <= insertion && deletion <= substitution then deletion
                 else if insertion <= substitution then insertion
                 else substitution;
    }
  }

  /** The program: two rows, the current one copied over the previous one after each character. */
  method LevenshteinDistance(r1: string, r2: string) returns (dist: int)
    ensures dist == Distance(r1, r2)
  {
    if |r1| == 0 {
      return |r2|;
    }
    if |r2| == 0 {
      return |r1|;
    }
    var prev, curr := new int[|r2| + 1], new int[|r2| + 1];
    for j := 0 to |r2| + 1
      invariant RowUpTo(prev, r1[..0], r2, j)
    {
      prev[j] := j;
    }
    for i := 1 to |r1| + 1
      invariant RowUpTo(prev, r1[..i - 1], r2, |r2| + 1)
      invariant i > 1 ==> curr[..] == prev[..]
    {
      FillRow(r1, r2, i, prev, curr);
      for j := 0 to |r2| + 1
        invariant RowUpTo(curr, r1[..i], r2, |r2| + 1)
        invariant forall k :: 0 <= k < j ==> prev[k] == curr[k]
      {
        prev[j] := curr[j];
      }
    }
    assert r1[..|r1|] == r1 && r2[..|r2|] == r2;
    assert curr[|r2|] == curr[..][|r2|] == prev[..][|r2|];
    dist := curr[|r2|];
  }
}
