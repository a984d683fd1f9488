/** Lexical processing of slash-separated paths, as Go's package path does it. */
module Paths {
  import opened Text

  /** A path element that names something: not empty, not "." and not "..". */
  predicate Plain(seg: string)
  {
    seg != "" && seg != "." && seg != ".." && '/' !in seg
  }

  predicate AllPlain(segs: seq<string>)
  {
    forall i :: 0 <= i < |segs| ==> Plain(segs[i])
  }

  /** One element of the cleaning rules: drop "" and ".", let ".." take back a named element. */
  function Push(stack: seq<string>, seg: string, rooted: bool): seq<string>
  {
    if seg == "" || seg == "." then stack
    else if seg != ".." then stack + [seg]
    else if stack != [] && stack[|stack| - 1] != ".." then stack[..|stack| - 1]
    else if rooted then stack
    else stack + [".."]
  }

  function PushAll(stack: seq<string>, segs: seq<string>, rooted: bool): seq<string>
    decreases |segs|
  {
    if segs == [] then stack else PushAll(Push(stack, segs[0], rooted), segs[1..], rooted)
  }

  predicate Rooted(s: string)
  {
    s != "" && s[0] == '/'
  }

  /** The elements of the cleaned path. */
  function Elements(s: string): seq<string>
  {
    PushAll([], Split(s, '/'), Rooted(s))
  }

  function Render(stack: seq<string>, rooted: bool): string
  {
    if rooted then "/" + Join(stack, "/") else if stack == [] then "." else Join(stack, "/")
  }

  /** `path.Clean`. */
  function Clean(s: string): string
  {
    Render(Elements(s), Rooted(s))
  }

  /** The last slash, or -1. */
  function LastSlash(s: string): (i: int)
    ensures -1 <= i < |s|
    ensures i >= 0 ==> s[i] == '/' && '/' !in s[i + 1..]
    ensures i < 0 ==> '/' !in s
  {
    if s == "" then -1
    else if s[|s| - 1] == '/' then |s| - 1
    else
      var i := LastSlash(s[..|s| - 1]);
      assert s == s[..|s| - 1] + [s[|s| - 1]];
      assert i >= 0 ==> s[i + 1..] == s[..|s| - 1][i + 1..] + [s[|s| - 1]];
      i
  }

  /** `path.Dir`. */
  function Dir(s: string): string
  {
    Clean(s[..LastSlash(s) + 1])
  }

  /** `path.Base` of a cleaned path. */
  function Base(s: string): string
  {
    s[LastSlash(s) + 1..]
  }

  /** `path.Join` of two non-empty elements. */
  function JoinPath(a: string, b: string): string
  {
    Clean(a + "/" + b)
  }

  // ------------------------------------------------------------------ lemmas

  /** Only leading ".." elements survive cleaning. */
  ghost predicate Shape(stack: seq<string>, rooted: bool)
  {
    forall i :: 0 <= i < |stack| ==>
      Plain(stack[i]) || (stack[i] == ".." && !rooted && forall j :: 0 <= j < i ==> stack[j] == "..")
  }

  lemma {:induction false} PushAllShape(stack: seq<string>, segs: seq<string>, rooted: bool)
    requires Shape(stack, rooted) && forall i :: 0 <= i < |segs| ==> '/' !in segs[i]
    ensures Shape(PushAll(stack, segs, rooted), rooted)
    decreases |segs|
  {
    if segs != [] {
      PushAllShape(Push(stack, segs[0], rooted), segs[1..], rooted);
    }
  }

  lemma {:induction false} SplitParts(s: string)
    ensures forall i :: 0 <= i < |Split(s, '/')| ==> '/' !in Split(s, '/')[i]
    decreases |s|
  {
    var i := IndexOf(s, '/');
    if i >= 0 {
      SplitParts(s[i + 1..]);
    }
  }

  /** A cleaned path that does not begin with ".." names elements below its starting point only. */
  lemma ElementsArePlain(s: string)
    requires !Rooted(s) && (Elements(s) != [] ==> Elements(s)[0] != "..")
    ensures AllPlain(Elements(s))
  {
    SplitParts(s);
    PushAllShape([], Split(s, '/'), false);
  }

  lemma SplitNext(head: string, rest: string)
    requires '/' !in head
    ensures Split(head + "/" + rest, '/') == [head] + Split(rest, '/')
  {
    hide Split;
    SplitFirst(head, '/', rest);
  }

  lemma SplitWhole(s: string)
    requires '/' !in s
    ensures Split(s, '/') == [s]
  {
  }

  lemma {:induction false} SplitConcat(a: string, b: string)
    ensures Split(a + "/" + b, '/') == Split(a, '/') + Split(b, '/')
    decreases |a|
  {
    hide Split;
    var i := IndexOf(a, '/');
    if i < 0 {
      SplitNext(a, b);
      SplitWhole(a);
    } else {
      var head, rest := a[..i], a[i + 1..];
      SplitConcat(rest, b);
      assert a == head + "/" + rest;
      assert a + "/" + b == head + "/" + (rest + "/" + b);
      SplitNext(head, rest + "/" + b);
      SplitNext(head, rest);
    }
  }

  lemma {:induction false} PushAllConcat(stack: seq<string>, p: seq<string>, q: seq<string>, rooted: bool)
    ensures PushAll(stack, p + q, rooted) == PushAll(PushAll(stack, p, rooted), q, rooted)
    decreases |p|
  {
    if p == [] {
      assert p + q == q;
    } else {
      assert (p + q)[1..] == p[1..] + q;
      PushAllConcat(Push(stack, p[0], rooted), p[1..], q, rooted);
    }
  }

  lemma {:induction false} PushPlain(stack: seq<string>, segs: seq<string>, rooted: bool)
    requires AllPlain(segs)
    ensures PushAll(stack, segs, rooted) == stack + segs
    decreases |segs|
  {
    if segs == [] {
      assert stack + segs == stack;
    } else {
      PushPlain(stack + [segs[0]], segs[1..], rooted);
      assert stack + [segs[0]] + segs[1..] == stack + segs;
    }
  }

  lemma {:induction false} SplitJoin(segs: seq<string>)
    requires segs != [] && forall i :: 0 <= i < |segs| ==> '/' !in segs[i]
    ensures Split(Join(segs, "/"), '/') == segs
  {
    hide Split;
    if |segs| == 1 {
      SplitWhole(segs[0]);
    } else {
      SplitJoin(segs[1..]);
      SplitNext(segs[0], Join(segs[1..], "/"));
      assert segs == [segs[0]] + segs[1..];
    }
  }

  lemma FirstOfJoin(segs: seq<string>)
    requires segs != [] && segs[0] != "" && '/' !in segs[0]
    ensures Join(segs, "/") != "" && Join(segs, "/")[0] == segs[0][0] != '/'
  {
    assert segs[0][0] in segs[0];
  }

  /** Cleaning a relative path keeps it relative, and its elements can be read off the text again. */
  lemma CleanedText(s: string)
    requires !Rooted(s)
    ensures !Rooted(Clean(s))
    ensures Elements(Clean(s)) == Elements(s)
    ensures Elements(s) != [] ==> Split(Clean(s), '/') == Elements(s)
  {
    hide Split;
    var e := Elements(s);
    SplitParts(s);
    PushAllShape([], Split(s, '/'), false);
    if e == [] {
      SplitWhole(".");
      assert PushAll([], ["."], false) == PushAll([], [], false) == [];
    } else {
      FirstOfJoin(e);
      SplitJoin(e);
      PushShape([], e);
    }
  }

  /** Pushing elements that are already in cleaned form changes nothing. */
  lemma {:induction false} PushShape(stack: seq<string>, segs: seq<string>)
    requires Shape(stack + segs, false)
    ensures PushAll(stack, segs, false) == stack + segs
    decreases |segs|
  {
    if segs == [] {
      assert stack + segs == stack;
    } else {
      assert (stack + segs)[|stack|] == segs[0];
      assert stack != [] ==> (stack + segs)[|stack| - 1] == stack[|stack| - 1];
      assert Push(stack, segs[0], false) == stack + [segs[0]];
      assert (stack + [segs[0]]) + segs[1..] == stack + segs;
      PushShape(stack + [segs[0]], segs[1..]);
    }
  }

  /** The textual test for escaping upwards: the cleaned path is ".." or starts with "../". */
  predicate Escapes(clean: string)
  {
    clean == ".." || "../" <= clean
  }

  lemma EscapingText(c: string)
    requires Escapes(c)
    ensures Split(c, '/')[0] == ".."
  {
    hide Split;
    if c == ".." {
      SplitWhole("..");
    } else {
      assert c == ".." + "/" + c[3..];
      SplitNext("..", c[3..]);
    }
  }

  lemma EscapingElements(e: seq<string>)
    requires e != [] && e[0] == ".."
    ensures Escapes(Join(e, "/"))
  {
    if |e| > 1 {
      assert Join(e, "/") == "../" + Join(e[1..], "/");
    }
  }

  lemma EscapesByElements(s: string)
    requires !Rooted(s)
    ensures Escapes(Clean(s)) <==> Elements(s) != [] && Elements(s)[0] == ".."
  {
    hide Split, Elements, Join;
    CleanedText(s);
    if Escapes(Clean(s)) {
      EscapingText(Clean(s));
    }
    if Elements(s) != [] && Elements(s)[0] == ".." {
      EscapingElements(Elements(s));
    }
  }

  /** Cleaning makes up no parent element. */
  lemma {:induction false} NoParentFromNone(stack: seq<string>, segs: seq<string>, rooted: bool)
    requires ".." !in stack && ".." !in segs
    ensures ".." !in PushAll(stack, segs, rooted)
    decreases |segs|
  {
    if segs != [] {
      NoParentFromNone(Push(stack, segs[0], rooted), segs[1..], rooted);
    }
  }

  /** The second character of a cleaned relative path is that of its first element, if it has one. */
  lemma SecondCharacter(s: string, c: char)
    requires !Rooted(s) && c != '/'
    ensures (|Clean(s)| >= 2 && Clean(s)[1] == c) <==> (Elements(s) != [] && |Elements(s)[0]| >= 2 && Elements(s)[0][1] == c)
  {
    hide Split;
    SplitParts(s);
    PushAllShape([], Split(s, '/'), false);
    hide Elements;
    var e := Elements(s);
    if e != [] {
      JoinStartsWith(e);
      assert |e[0]| >= 1;
      if |e| > 1 {
        assert Join(e, "/")[|e[0]|] == '/';
      }
    }
  }

  lemma JoinStartsWith(e: seq<string>)
    requires e != []
    ensures e[0] <= Join(e, "/") && (|e| == 1 ==> Join(e, "/") == e[0])
    ensures |e| > 1 ==> |Join(e, "/")| > |e[0]| && Join(e, "/")[|e[0]|] == '/'
  {
  }
}
