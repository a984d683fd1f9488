/**
 The rules by which a package name is taken for an imitation of a popular one.

 Names are byte strings, as in Go: lengths, positions and separators are those of bytes.  Only the
 edit distance, the lower-casing of names that are not ASCII and the look-alike table read them as
 sequences of characters.
 */
module Confusion {
  import opened Prelude
  import opened Text
  import opened EditDistance

  // --------------------------------------------------- positions that differ

  /** The positions below `n` where the two names differ, in ascending order. */
  function Diffs(a: string, b: string, n: nat): seq<nat>
    requires n <= |a| && n <= |b|
  {
    if n == 0 then [] else Diffs(a, b, n - 1) + if a[n - 1] != b[n - 1] then [n - 1] else []
  }

  lemma {:induction false} DiffsAre(a: string, b: string, n: nat)
    requires n <= |a| && n <= |b|
    ensures forall i :: 0 <= i < |Diffs(a, b, n)| ==> Diffs(a, b, n)[i] < n && a[Diffs(a, b, n)[i]] != b[Diffs(a, b, n)[i]]
    ensures forall p :: 0 <= p < n && a[p] != b[p] ==> p in Diffs(a, b, n)
  {
    if n > 0 {
      DiffsAre(a, b, n - 1);
    }
  }

  lemma {:induction false} DiffsOfPrefix(a: string, b: string, n: nat)
    requires n < |a| && n < |b|
    ensures Diffs(Init(a), Init(b), n) == Diffs(a, b, n)
  {
    if n > 0 {
      DiffsOfPrefix(a, b, n - 1);
    }
  }

  function Indels(script: seq<Edit>): (int, nat)
  {
    if script == [] then (0, 0) else
      var (balance, count) := Indels(script[1..]);
      match script[0]
      case Insert => (balance + 1, count + 1)
      case Delete => (balance - 1, count + 1)
      case _ => (balance, count)
  }

  lemma {:induction false} IndelBalance<T>(script: seq<Edit>, a: seq<T>, b: seq<T>)
    requires Turns(script, a, b)
    ensures Indels(script).0 == |b| - |a| && Indels(script).1 <= Cost(script)
    ensures 0 <= Indels(script).1 + Indels(script).0 && (Indels(script).1 - Indels(script).0) % 2 == 0
    decreases |script|
  {
    if script != [] {
      var rest := script[1..];
      match script[0]
      case Keep => IndelBalance(rest, Init(a), Init(b));
      case Substitute => IndelBalance(rest, Init(a), Init(b));
      case Insert => IndelBalance(rest, a, Init(b));
      case Delete => IndelBalance(rest, Init(a), b);
    }
  }

  lemma {:induction false} PureSubstitution(script: seq<Edit>, a: string, b: string)
    requires Turns(script, a, b) && Indels(script).1 == 0
    ensures |a| == |b| && |Diffs(a, b, |a|)| <= Cost(script)
    decreases |script|
  {
    if script != [] {
      IndelBalance(script, a, b);
      PureSubstitution(script[1..], Init(a), Init(b));
      DiffsOfPrefix(a, b, |a| - 1);
    }
  }

  /** Substituting position by position: the distance of names of one length is at most their differences. */
  lemma {:induction false} DistanceAtMostDiffs(a: string, b: string)
    requires |a| == |b|
    ensures Distance(a, b) <= |Diffs(a, b, |a|)|
  {
    if a != "" {
      DistanceAtMostDiffs(Init(a), Init(b));
      DiffsOfPrefix(a, b, |a| - 1);
      DistanceStep(a, b);
    }
  }

  /** For names of one length, one difference is distance one and two differences are distance two. */
  lemma FewDiffsAreDistance(a: string, b: string)
    requires |a| == |b| && |Diffs(a, b, |a|)| <= 2
    ensures Distance(a, b) == |Diffs(a, b, |a|)|
  {
    DistanceAtMostDiffs(a, b);
    var script := ShortestScript(a, b);
    IndelBalance(script, a, b);
    if Cost(script) <= 1 {
      PureSubstitution(script, a, b);
    }
  }

  // -------------------------------------------------------------- the rules

  function QwertyNeighbours(c: char): string
  {
    match c
    case 'q' => "was"     case 'w' => "qeasd"   case 'e' => "wrsdf"   case 'r' => "etdfg"
    case 't' => "ryfgh"   case 'y' => "tughj"   case 'u' => "yihjk"   case 'i' => "uojkl"
    case 'o' => "ipkl"    case 'p' => "ol"      case 'a' => "qwsz"    case 's' => "awedxz"
    case 'd' => "serfcx"  case 'f' => "drtgvc"  case 'g' => "ftyhbv"  case 'h' => "gyujnb"
    case 'j' => "huikmn"  case 'k' => "jiolm"   case 'l' => "kop"     case 'z' => "asx"
    case 'x' => "zsdc"    case 'c' => "xdfv"    case 'v' => "cfgb"    case 'b' => "vghn"
    case 'n' => "bhjm"    case 'm' => "njk"
    case _ => ""
  }

  /** One position differs, and the two characters there are neighbours on the keyboard. */
  predicate Adjacent(c: string, t: string)
  {
    |c| == |t| != 0 && exists i :: 0 <= i < |c| && t[i] in QwertyNeighbours(c[i]) && t == c[i := t[i]] && t != c
  }

  /** Two neighbouring characters are swapped. */
  predicate Transposed(c: string, t: string)
  {
    |c| == |t| >= 3 && exists i :: 0 <= i < |c| - 1 && c[i] != c[i + 1] && t == c[i := c[i + 1]][i + 1 := c[i]]
  }

  predicate IsSeparator(ch: char)
  {
    ch == '-' || ch == '_' || ch == '.'
  }

  function WithoutSeparators(s: string): string
  {
    if s == "" then "" else WithoutSeparators(Init(s)) + if IsSeparator(Last(s)) then "" else [Last(s)]
  }

  predicate SameButSeparators(c: string, t: string)
  {
    WithoutSeparators(c) == WithoutSeparators(t) != ""
  }

  function Longer(c: string, t: string): nat
  {
    if |c| >= |t| then |c| else |t|
  }

  predicate Ascii(s: string)
  {
    forall i :: 0 <= i < |s| ==> s[i] < '\U{80}'
  }

  /** UTF-8 decoding and encoding, and `unicode.ToLower`. */
  datatype Unicode = Unicode(decode: string -> string, encode: string -> string, toLower: char -> char)

  /** What is relied on: ASCII stands for itself, and encoded characters can be decoded again. */
  ghost predicate ValidUnicode(u: Unicode)
  {
    && (forall s :: Ascii(s) ==> u.decode(s) == s && u.encode(s) == s)
    && (forall cs :: u.decode(u.encode(cs)) == cs)
  }

  /** `strings.ToLower`. */
  function LowerName(u: Unicode, s: string): string
  {
    if Ascii(s) then Lower(s) else u.encode(MapChars(u.toLower, u.decode(s)))
  }

  function MapChars(f: char -> char, s: string): string
  {
    seq(|s|, i requires 0 <= i < |s| => f(s[i]))
  }

  /** Characters apart, as the edit-distance program counts. */
  function NameDistance(u: Unicode, c: string, t: string): nat
  {
    Distance(u.decode(c), u.decode(t))
  }

  predicate OneEdit(u: Unicode, c: string, t: string)
  {
    NameDistance(u, c, t) == 1 && |t| >= 4
  }

  predicate TwoEdits(u: Unicode, c: string, t: string)
  {
    NameDistance(u, c, t) == 2 && |t| >= 8 && 1.0 - 2.0 / Longer(c, t) as real >= 0.80
  }

  /** The letter a Cyrillic or Greek one looks like. */
  function LooksLike(c: char): Option<char>
  {
    match c
    case '\U{430}' => Some('a')  case '\U{441}' => Some('c')  case '\U{435}' => Some('e')  case '\U{456}' => Some('i')
    case '\U{458}' => Some('j')  case '\U{43E}' => Some('o')  case '\U{440}' => Some('p')  case '\U{455}' => Some('s')
    case '\U{443}' => Some('y')  case '\U{445}' => Some('x')  case '\U{51B}' => Some('q')  case '\U{51D}' => Some('w')
    case '\U{410}' => Some('a')  case '\U{412}' => Some('b')  case '\U{421}' => Some('c')  case '\U{415}' => Some('e')
    case '\U{41D}' => Some('h')  case '\U{406}' => Some('i')  case '\U{408}' => Some('j')  case '\U{41A}' => Some('k')
    case '\U{41C}' => Some('m')  case '\U{41E}' => Some('o')  case '\U{420}' => Some('p')  case '\U{405}' => Some('s')
    case '\U{422}' => Some('t')  case '\U{425}' => Some('x')  case '\U{3B1}' => Some('a')  case '\U{3B2}' => Some('b')
    case '\U{3B5}' => Some('e')  case '\U{3B9}' => Some('i')  case '\U{3BA}' => Some('k')  case '\U{3BF}' => Some('o')
    case '\U{3C1}' => Some('p')  case '\U{3C5}' => Some('u')  case '\U{3BD}' => Some('v')  case '\U{3C7}' => Some('x')
    case _ => None
  }

  function SkeletonChar(u: Unicode, c: char): char
  {
    if LooksLike(c).Some? then LooksLike(c).value else u.toLower(c)
  }

  /** A name that is not ASCII, and reads as `t` once look-alikes are replaced. */
  predicate UnicodeImitates(u: Unicode, c: string, t: string)
  {
    !Ascii(u.decode(c)) && u.encode(MapChars(ch => SkeletonChar(u, ch), u.decode(c))) == LowerName(u, t)
  }

  datatype Reason = UnicodeConfusable | ScopeConfusion | NormalizedSeparators | KeyboardAdjacency | Transposition | EditDistance1 | EditDistance2

  /** The first rule, in the order they are tried, by which lower-case `c` imitates lower-case `t`. */
  function FirstRule(u: Unicode, c: string, t: string): Option<Reason>
  {
    if c == t then None
    else if SameButSeparators(c, t) then Some(NormalizedSeparators)
    else if Adjacent(c, t) then Some(KeyboardAdjacency)
    else if Transposed(c, t) then Some(Transposition)
    else if OneEdit(u, c, t) then Some(EditDistance1)
    else if TwoEdits(u, c, t) then Some(EditDistance2)
    else None
  }

  /** A scoped name whose second part is `t`, as in @evil/react. */
  predicate ScopeImitates(c: string, t: string)
  {
    c != "" && c[0] == '@' && IndexOf(c, '/') >= 0 && c[IndexOf(c, '/') + 1..] == t != ""
  }

  // ----------------------------------------------------------- the procedures

  lemma DiffsOfUpdate(c: string, t: string, i: nat)
    requires |c| == |t| && i < |c|
    ensures Diffs(c, t, |c|) == [i] <==> (t == c[i := t[i]] && t != c)
  {
    DiffsAre(c, t, |c|);
    if Diffs(c, t, |c|) == [i] {
      forall p | 0 <= p < |c| && p != i ensures t[p] == c[p] {}
      assert t == c[i := t[i]];
      assert i in Diffs(c, t, |c|);
    }
    if t == c[i := t[i]] && t != c {
      DiffsSingle(c, t, i, |c|);
    }
  }

  lemma {:induction false} DiffsSingle(c: string, t: string, i: nat, n: nat)
    requires |c| == |t| && i < |c| && n <= |c| && c[i] != t[i]
    requires forall p :: 0 <= p < n && p != i ==> c[p] == t[p]
    ensures Diffs(c, t, n) == if i < n then [i] else []
  {
    if n > 0 {
      DiffsSingle(c, t, i, n - 1);
    }
  }

  method CheckKeyboardAdjacency(candidate: string, target: string) returns (yes: bool)
    ensures yes == Adjacent(candidate, target)
  {
    if |candidate| != |target| || |candidate| == 0 {
      return false;
    }
    var diffCount, diffIdx := 0, -1;
    for i := 0 to |candidate|
      invariant diffCount == |Diffs(candidate, target, i)|
      invariant diffCount > 0 ==> diffIdx == Last(Diffs(candidate, target, i))
    {
      if candidate[i] != target[i] {
        diffCount := diffCount + 1;
        diffIdx := i;
      }
    }
    DiffsAre(candidate, target, |candidate|);
    forall i | 0 <= i < |candidate|
      ensures Diffs(candidate, target, |candidate|) == [i] <==> (target == candidate[i := target[i]] && target != candidate)
    {
      DiffsOfUpdate(candidate, target, i);
    }
    if diffCount == 1 {
      assert Diffs(candidate, target, |candidate|) == [diffIdx];
      return target[diffIdx] in QwertyNeighbours(candidate[diffIdx]);
    }
    return false;
  }

  lemma {:induction false} DiffsPair(c: string, t: string, i: nat, n: nat)
    requires |c| == |t| && i + 1 < |c| && n <= |c| && c[i] != t[i] && c[i + 1] != t[i + 1]
    requires forall p :: 0 <= p < n && p != i && p != i + 1 ==> c[p] == t[p]
    ensures Diffs(c, t, n) == if n <= i then [] else if n == i + 1 then [i] else [i, i + 1]
  {
    if n > 0 {
      DiffsPair(c, t, i, n - 1);
    }
  }

  lemma DiffsOfSwap(c: string, t: string, i: nat)
    requires |c| == |t| && i + 1 < |c|
    ensures (Diffs(c, t, |c|) == [i, i + 1] && c[i] == t[i + 1] && c[i + 1] == t[i]) <==>
      (c[i] != c[i + 1] && t == c[i := c[i + 1]][i + 1 := c[i]])
  {
    DiffsAre(c, t, |c|);
    if Diffs(c, t, |c|) == [i, i + 1] && c[i] == t[i + 1] && c[i + 1] == t[i] {
      assert i in Diffs(c, t, |c|);
      forall p | 0 <= p < |c| && p != i && p != i + 1 ensures t[p] == c[p] {}
      assert t == c[i := c[i + 1]][i + 1 := c[i]];
    }
    if c[i] != c[i + 1] && t == c[i := c[i + 1]][i + 1 := c[i]] {
      DiffsPair(c, t, i, |c|);
    }
  }

  method IsTransposition(candidate: string, target: string) returns (yes: bool)
    ensures yes == Transposed(candidate, target)
  {
    if |candidate| != |target| || |candidate| < 3 {
      return false;
    }
    hide Transposed;
    var diffIndices: seq<nat> := [];
    for i := 0 to |candidate|
      invariant diffIndices == Diffs(candidate, target, i)
    {
      if candidate[i] != target[i] {
        diffIndices := diffIndices + [i];
      }
    }
    DiffsAre(candidate, target, |candidate|);
    TransposedByDiffs(candidate, target);
    if |diffIndices| == 2 && diffIndices[1] == diffIndices[0] + 1 {
      var i, j := diffIndices[0], diffIndices[1];
      return candidate[i] == target[j] && candidate[j] == target[i];
    }
    return false;
  }

  /** A swap shows as exactly two neighbouring differences, crosswise equal. */
  lemma TransposedByDiffs(c: string, t: string)
    requires |c| == |t| >= 3
    ensures var d := Diffs(c, t, |c|);
      Transposed(c, t) <==>
      |d| == 2 && d[1] == d[0] + 1 && d[1] < |c| && c[d[0]] == t[d[1]] && c[d[1]] == t[d[0]]
  {
    var d := Diffs(c, t, |c|);
    forall i | 0 <= i < |c| - 1
      ensures (d == [i, i + 1] && c[i] == t[i + 1] && c[i + 1] == t[i]) <==>
        (c[i] != c[i + 1] && t == c[i := c[i + 1]][i + 1 := c[i]])
    {
      DiffsOfSwap(c, t, i);
    }
    hide Diffs;
    if |d| == 2 && d[1] == d[0] + 1 {
      assert d == [d[0], d[0] + 1];
    }
  }

  method NormalizeSeparators(s: string) returns (r: string)
    ensures r == WithoutSeparators(s)
  {
    r := "";
    for i := 0 to |s|
      invariant r == WithoutSeparators(s[..i])
    {
      assert Init(s[..i + 1]) == s[..i];
      if s[i] != '-' && s[i] != '_' && s[i] != '.' {
        r := r + [s[i]];
      }
    }
    assert s[..|s|] == s;
  }

  // --------------------------------------------------- the decision procedure

  datatype Match = Match(target: string, reason: Reason)

  /** Some rule takes `candidate` for an imitation of `target`. */
  predicate Imitates(u: Unicode, candidate: string, target: string)
  {
    var c, t := LowerName(u, candidate), LowerName(u, target);
    UnicodeImitates(u, candidate, target) || ScopeImitates(c, t) || FirstRule(u, c, t).Some?
  }

  /** Compares one pair of lower-case names with the rules, in the order the source tries them. */
  method CompareNames(u: Unicode, c: string, t: string) returns (r: Option<Reason>)
    requires c != t
    ensures r == FirstRule(u, c, t)
  {
    var normCand := NormalizeSeparators(c);
    var normTarg := NormalizeSeparators(t);
    if normCand == normTarg && normCand != "" {
      return Some(NormalizedSeparators);
    }
    var adjacent := CheckKeyboardAdjacency(c, t);
    if adjacent {
      return Some(KeyboardAdjacency);
    }
    var transposed := IsTransposition(c, t);
    if transposed {
      return Some(Transposition);
    }
    var dist := LevenshteinDistance(u.decode(c), u.decode(t));
    var maxLen := if |c| >= |t| then |c| else |t|;
    var sim := 1.0 - dist as real / maxLen as real;
    if dist == 1 && |t| >= 4 {
      return Some(EditDistance1);
    }
    if dist == 2 && |t| >= 8 && sim >= 0.80 {
      return Some(EditDistance2);
    }
    return None;
  }

  /** The scan for the first popular name a candidate with look-alike characters reads as. */
  method CheckUnicodeConfusable(u: Unicode, candidate: string, corpus: seq<string>) returns (at: Option<nat>)
    ensures at.None? ==> forall i :: 0 <= i < |corpus| ==> !UnicodeImitates(u, candidate, corpus[i])
    ensures at.Some? ==> at.value < |corpus| && UnicodeImitates(u, candidate, corpus[at.value])
    ensures at.Some? ==> forall j :: 0 <= j < at.value ==> !UnicodeImitates(u, candidate, corpus[j])
  {
    hide LowerName, SkeletonChar, MapChars;
    var runes := u.decode(candidate);
    var hasNonAscii := false;
    for i := 0 to |runes|
      invariant hasNonAscii <==> !Ascii(runes[..i])
    {
      assert runes[..i + 1] == runes[..i] + [runes[i]];
      if runes[i] >= '\U{80}' {
        hasNonAscii := true;
        assert runes[..i + 1][i] == runes[i];
      }
    }
    assert runes[..|runes|] == runes;
    if !hasNonAscii {
      return None;
    }
    var skeleton := u.encode(MapChars(ch => SkeletonChar(u, ch), runes));
    for i := 0 to |corpus|
      invariant forall j :: 0 <= j < i ==> !UnicodeImitates(u, candidate, corpus[j])
    {
      if skeleton == LowerName(u, corpus[i]) {
        return Some(i);
      }
    }
    return None;
  }

  /** The scan for the first popular name under an untrusted scope. */
  method FindScopeImitation(u: Unicode, c: string, corpus: seq<string>) returns (at: Option<nat>)
    ensures at.None? ==> forall i :: 0 <= i < |corpus| ==> !ScopeImitates(c, LowerName(u, corpus[i]))
    ensures at.Some? ==> at.value < |corpus| && ScopeImitates(c, LowerName(u, corpus[at.value]))
    ensures at.Some? ==> forall j :: 0 <= j < at.value ==> !ScopeImitates(c, LowerName(u, corpus[j]))
  {
    hide LowerName;
    if c == "" || c[0] != '@' {
      return None;
    }
    var slash := IndexOf(c, '/');
    if slash < 0 || c[slash + 1..] == "" {
      return None;
    }
    for i := 0 to |corpus|
      invariant forall j :: 0 <= j < i ==> !ScopeImitates(c, LowerName(u, corpus[j]))
    {
      if c[slash + 1..] == LowerName(u, corpus[i]) {
        return Some(i);
      }
    }
    return None;
  }

  /** The scan for the first popular name that meets a rule. */
  method FindImitated(u: Unicode, c: string, corpus: seq<string>) returns (r: Option<(nat, Reason)>)
    ensures r.None? ==> forall i :: 0 <= i < |corpus| ==> FirstRule(u, c, LowerName(u, corpus[i])).None?
    ensures r.Some? ==>
      && r.value.0 < |corpus| && FirstRule(u, c, LowerName(u, corpus[r.value.0])) == Some(r.value.1)
      && forall j :: 0 <= j < r.value.0 ==> FirstRule(u, c, LowerName(u, corpus[j])).None?
  {
    hide FirstRule, LowerName;
    for i := 0 to |corpus|
      invariant forall j :: 0 <= j < i ==> FirstRule(u, c, LowerName(u, corpus[j])).None?
    {
      var t := LowerName(u, corpus[i]);
      if c == t {
        EqualNamesMeetNoRule(u, c);
        continue;
      }
      var rule := CompareNames(u, c, t);
      if rule.Some? {
        return Some((i, rule.value));
      }
    }
    return None;
  }

  lemma EqualNamesMeetNoRule(u: Unicode, c: string)
    ensures FirstRule(u, c, c).None?
  {
  }

  lemma RulesAreAboutPairs(u: Unicode, c: string, t: string)
    ensures FirstRule(u, c, t) != Some(ScopeConfusion) && FirstRule(u, c, t) != Some(UnicodeConfusable)
  {
  }

  /** The popular name at `i` meets the rule named as the reason. */
  predicate Meets(u: Unicode, candidate: string, target: string, reason: Reason)
  {
    var c, t := LowerName(u, candidate), LowerName(u, target);
    match reason
    case UnicodeConfusable => UnicodeImitates(u, candidate, target)
    case ScopeConfusion => ScopeImitates(c, t)
    case _ => FirstRule(u, c, t) == Some(reason)
  }

  /** The search the reason belongs to would have stopped at `target`. */
  predicate StopsAt(u: Unicode, candidate: string, target: string, reason: Reason)
  {
    var c, t := LowerName(u, candidate), LowerName(u, target);
    match reason
    case UnicodeConfusable => UnicodeImitates(u, candidate, target)
    case ScopeConfusion => ScopeImitates(c, t)
    case _ => FirstRule(u, c, t).Some?
  }

  /**
   The candidate is reported exactly when some popular name meets a rule.  Look-alikes come first,
   then scopes, then the comparisons; the report names the first popular name the search stops at,
   with the first rule it meets, and no earlier search would have stopped anywhere.
   */
  method EvaluateCandidate(u: Unicode, candidate: string, corpus: seq<string>) returns (r: Option<Match>)
    ensures r.None? <==> forall i :: 0 <= i < |corpus| ==> !Imitates(u, candidate, corpus[i])
    ensures r.Some? ==>
      exists i :: 0 <= i < |corpus| && r.value.target == corpus[i] && Meets(u, candidate, corpus[i], r.value.reason) &&
        forall j :: 0 <= j < i ==> !StopsAt(u, candidate, corpus[j], r.value.reason)
    ensures r.Some? && r.value.reason != UnicodeConfusable ==>
      forall j :: 0 <= j < |corpus| ==> !UnicodeImitates(u, candidate, corpus[j])
    ensures r.Some? && r.value.reason != UnicodeConfusable && r.value.reason != ScopeConfusion ==>
      forall j :: 0 <= j < |corpus| ==> !ScopeImitates(LowerName(u, candidate), LowerName(u, corpus[j]))
  {
    hide FirstRule, ScopeImitates, UnicodeImitates, LowerName;
    var lookalike := CheckUnicodeConfusable(u, candidate, corpus);
    if lookalike.Some? {
      var i := lookalike.value;
      assert Imitates(u, candidate, corpus[i]) && Meets(u, candidate, corpus[i], UnicodeConfusable);
      return Some(Match(corpus[i], UnicodeConfusable));
    }
    var c := LowerName(u, candidate);
    var at := FindScopeImitation(u, c, corpus);
    if at.Some? {
      var i := at.value;
      assert Imitates(u, candidate, corpus[i]) && Meets(u, candidate, corpus[i], ScopeConfusion);
      return Some(Match(corpus[i], ScopeConfusion));
    }
    var found := FindImitated(u, c, corpus);
    if found.Some? {
      var (i, reason) := found.value;
      RulesAreAboutPairs(u, c, LowerName(u, corpus[i]));
      assert Imitates(u, candidate, corpus[i]) && Meets(u, candidate, corpus[i], reason);
      return Some(Match(corpus[i], reason));
    }
    r := None;
  }

  // ------------------------------------------------------------ what the rules say

  /** Only hyphens, underscores and dots are dropped, character by character. */
  lemma {:induction false} SeparatorsDropped(a: string, ch: char)
    ensures WithoutSeparators("") == ""
    ensures WithoutSeparators(a + [ch]) == WithoutSeparators(a) + if ch in {'-', '_', '.'} then "" else [ch]
  {
    assert Init(a + [ch]) == a && Last(a + [ch]) == ch;
  }

  /** A scope without a slash, starting with an at-sign, a slash, and the imitated name. */
  lemma ScopeImitatesIff(c: string, t: string)
    ensures ScopeImitates(c, t) <==>
      exists scope :: c == scope + "/" + t && scope != "" && scope[0] == '@' && '/' !in scope && t != ""
  {
    if ScopeImitates(c, t) {
      var scope := c[..IndexOf(c, '/')];
      assert c == scope + "/" + t && scope[0] == '@';
    }
    if scope :| c == scope + "/" + t && scope != "" && scope[0] == '@' && '/' !in scope && t != "" {
      FirstSlash(scope, t);
    }
  }

  lemma FirstSlash(scope: string, t: string)
    requires '/' !in scope
    ensures var c := scope + "/" + t; IndexOf(c, '/') == |scope| && c[|scope| + 1..] == t
  {
    var c := scope + "/" + t;
    assert c[|scope|] == '/' && c[|scope| + 1..] == t;
    assert forall j :: 0 <= j < |scope| ==> c[j] == scope[j];
  }

  /**
   When each rule is the one reported for a pair of lower-case names: separators before adjacency
   before transposition before distance one, which asks for four bytes of the popular name, before
   distance two, which asks for eight, and for ten of the longer name.
   */
  lemma RulesMean(u: Unicode, c: string, t: string)
    ensures var r := FirstRule(u, c, t);
      var separators, adjacent, transposed := SameButSeparators(c, t), Adjacent(c, t), Transposed(c, t);
      var distance, near := NameDistance(u, c, t), c != t && !separators && !adjacent && !transposed;
      && (r == Some(NormalizedSeparators) <==> c != t && separators)
      && (r == Some(KeyboardAdjacency) <==> c != t && !separators && adjacent)
      && (r == Some(Transposition) <==> c != t && !separators && !adjacent && transposed)
      && (r == Some(EditDistance1) <==> near && distance == 1 && |t| >= 4)
      && (r == Some(EditDistance2) <==> near && distance == 2 && |t| >= 8 && (|c| >= 10 || |t| >= 10))
      && (r.None? || r.value in {NormalizedSeparators, KeyboardAdjacency, Transposition, EditDistance1, EditDistance2})
  {
    hide SameButSeparators, Adjacent, Transposed, Distance;
    if |t| >= 8 {
      SimilarIff(Longer(c, t));
    }
  }

  lemma SimilarIff(n: nat)
    requires n > 0
    ensures 1.0 - 2.0 / n as real >= 0.80 <==> n >= 10
  {
    var x := n as real;
    assert 2.0 / x * x == 2.0;
    if n >= 10 {
      SimilarEnough(n);
    } else {
      assert 0.2 * x < 2.0;
      assert 2.0 / x > 0.2;
    }
  }

  // ---------------------------------------------------------- what is proved

  /** A keyboard-adjacency hit is at edit distance exactly one. */
  lemma AdjacentIsDistanceOne(c: string, t: string)
    requires Adjacent(c, t)
    ensures Distance(c, t) == 1
  {
    var i :| 0 <= i < |c| && t[i] in QwertyNeighbours(c[i]) && t == c[i := t[i]] && t != c;
    DiffsOfUpdate(c, t, i);
    FewDiffsAreDistance(c, t);
  }

  /** A transposition hit is at edit distance exactly two. */
  lemma TransposedIsDistanceTwo(c: string, t: string)
    requires Transposed(c, t)
    ensures Distance(c, t) == 2
  {
    var i :| 0 <= i < |c| - 1 && c[i] != c[i + 1] && t == c[i := c[i + 1]][i + 1 := c[i]];
    DiffsOfSwap(c, t, i);
    FewDiffsAreDistance(c, t);
  }

  lemma LowerIsAscii(s: string)
    requires Ascii(s)
    ensures Ascii(Lower(s))
  {
  }

  /** Lower-case names are the encoding of their characters, so different ones differ in those. */
  lemma LowerNameDecodes(u: Unicode, s: string)
    requires ValidUnicode(u)
    ensures u.encode(u.decode(LowerName(u, s))) == LowerName(u, s)
    ensures Ascii(s) ==> u.decode(LowerName(u, s)) == Lower(s)
  {
    if Ascii(s) {
      LowerIsAscii(s);
    }
  }

  /** On ASCII names the distance is that of the names themselves, without regard to case. */
  lemma AsciiDistance(u: Unicode, candidate: string, target: string)
    requires ValidUnicode(u) && Ascii(candidate) && Ascii(target)
    ensures NameDistance(u, LowerName(u, candidate), LowerName(u, target)) == Distance(Lower(candidate), Lower(target))
  {
    LowerNameDecodes(u, candidate);
    LowerNameDecodes(u, target);
  }

  /**
   An unreported candidate is at distance at least two from every other popular name of four or more
   bytes, and at least three from every other one of ten or more.
   */
  lemma UnreportedIsFarAway(u: Unicode, candidate: string, target: string)
    requires ValidUnicode(u) && !Imitates(u, candidate, target) && LowerName(u, candidate) != LowerName(u, target)
    ensures var c, t := LowerName(u, candidate), LowerName(u, target);
      && (|t| >= 4 ==> NameDistance(u, c, t) >= 2)
      && (|t| >= 10 ==> NameDistance(u, c, t) >= 3)
  {
    hide LowerName, Distance, SameButSeparators, Adjacent, Transposed, ScopeImitates, UnicodeImitates;
    var c, t := LowerName(u, candidate), LowerName(u, target);
    LowerNameDecodes(u, candidate);
    LowerNameDecodes(u, target);
    ZeroIffEqual(u.decode(c), u.decode(t));
    if |t| >= 10 {
      SimilarEnough(Longer(c, t));
    }
  }

  /** Two edits in ten characters still count as similar. */
  lemma SimilarEnough(n: nat)
    requires n >= 10
    ensures 1.0 - 2.0 / n as real >= 0.80
  {
    assert 2.0 / n as real <= 2.0 / 10.0;
  }
}
