/** The string primitives of Go's standard library that the components use. */
module Text {

  /** Unicode White_Space, as `strings.TrimSpace` sees it. */
  predicate IsSpace(c: char)
  {
    || '\t' <= c <= '\r'
    || c in {' ', '\U{85}', '\U{A0}', '\U{1680}', '\U{2028}', '\U{2029}', '\U{202F}', '\U{205F}', '\U{3000}'}
    || '\U{2000}' <= c <= '\U{200A}'
  }

  predicate AllSpace(s: string)
  {
    forall i :: 0 <= i < |s| ==> IsSpace(s[i])
  }

  function TrimLeft(s: string): string
  {
    if s != "" && IsSpace(s[0]) then TrimLeft(s[1..]) else s
  }

  function TrimRight(s: string): string
  {
    if s != "" && IsSpace(s[|s| - 1]) then TrimRight(s[..|s| - 1]) else s
  }

  function TrimSpace(s: string): string
  {
    TrimRight(TrimLeft(s))
  }

  function LowerChar(c: char): char
  {
    if 'A' <= c <= 'Z' then (c as int + 32) as char else c
  }

  /** Lower case of the ASCII letters. */
  function Lower(s: string): string
  {
    seq(|s|, i requires 0 <= i < |s| => LowerChar(s[i]))
  }

  /** The first position of `c` in `s`, or -1. */
  function IndexOf(s: string, c: char): (i: int)
    ensures -1 <= i < |s|
    ensures i >= 0 ==> s[i] == c && c !in s[..i]
    ensures i == -1 <==> c !in s
  {
    if s == "" then -1
    else if s[0] == c then 0
    else
      var rest := IndexOf(s[1..], c);
      assert s == [s[0]] + s[1..];
      if rest < 0 then -1 else
        assert s[..rest + 1] == [s[0]] + s[1..][..rest];
        rest + 1
  }

  /** `strings.Split(s, c)`: the parts between the separators, at least one. */
  function Split(s: string, c: char): (parts: seq<string>)
    ensures parts != []
  {
    var i := IndexOf(s, c);
    if i < 0 then [s] else [s[..i]] + Split(s[i + 1..], c)
  }

  function Join(parts: seq<string>, sep: string): string
  {
    if parts == [] then ""
    else if |parts| == 1 then parts[0]
    else parts[0] + sep + Join(parts[1..], sep)
  }

  lemma SplitFirst(part: string, c: char, rest: string)
    requires c !in part
    ensures Split(part + [c] + rest, c) == [part] + Split(rest, c)
  {
    var s := part + [c] + rest;
    var i := IndexOf(s, c);
    assert s[|part|] == c;
    assert forall j :: 0 <= j < |part| ==> s[j] == part[j];
    assert s[..i] == part && s[i + 1..] == rest;
  }

  lemma {:induction false} TrimLeftDrops(ws: string, s: string)
    requires AllSpace(ws)
    ensures TrimLeft(ws + s) == TrimLeft(s)
  {
    if ws == "" {
      assert ws + s == s;
    } else {
      assert (ws + s)[1..] == ws[1..] + s;
      TrimLeftDrops(ws[1..], s);
    }
  }

  lemma {:induction false} TrimRightDrops(s: string, ws: string)
    requires AllSpace(ws)
    ensures TrimRight(s + ws) == TrimRight(s)
  {
    if ws == "" {
      assert s + ws == s;
    } else {
      assert (s + ws)[..|s + ws| - 1] == s + ws[..|ws| - 1];
      TrimRightDrops(s, ws[..|ws| - 1]);
    }
  }

  lemma {:induction false} TrimLeftBefore(s: string, ws: string)
    requires AllSpace(ws)
    ensures TrimLeft(s + ws) == if TrimLeft(s) == "" then "" else TrimLeft(s) + ws
  {
    if s == "" {
      assert s + ws == ws + "";
      TrimLeftDrops(ws, "");
    } else if IsSpace(s[0]) {
      assert (s + ws)[1..] == s[1..] + ws;
      TrimLeftBefore(s[1..], ws);
    }
  }

  /** White space after a text does not show once it is trimmed. */
  lemma TrimSpaceDrops(s: string, ws: string)
    requires AllSpace(ws)
    ensures TrimSpace(s + ws) == TrimSpace(s)
  {
    TrimLeftBefore(s, ws);
    if TrimLeft(s) != "" {
      TrimRightDrops(TrimLeft(s), ws);
    }
  }

  /** Trimming removes exactly the white space around a text that neither starts nor ends with any. */
  lemma TrimSpaceAround(before: string, s: string, after: string)
    requires AllSpace(before) && AllSpace(after)
    requires s != "" && !IsSpace(s[0]) && !IsSpace(s[|s| - 1])
    ensures TrimSpace(before + s + after) == s
  {
    assert before + s + after == before + (s + after);
    TrimLeftDrops(before, s + after);
    TrimRightDrops(s, after);
  }
}
