/** Inspection of an .npmrc file and the content that points it at the gateway. */
module Npmrc {
  import opened Prelude
  import opened Text

  // ------------------------------------------------------------ lines of a file

  /** `strings.ReplaceAll(s, "\r\n", "\n")`. */
  function ReplaceCrLf(s: string): string
  {
    if |s| >= 2 && s[0] == '\r' && s[1] == '\n' then "\n" + ReplaceCrLf(s[2..])
    else if s == "" then ""
    else [s[0]] + ReplaceCrLf(s[1..])
  }

  function Lines(s: string): seq<string>
  {
    Split(ReplaceCrLf(s), '\n')
  }

  function DropCr(line: string): string
  {
    if line != "" && line[|line| - 1] == '\r' then line[..|line| - 1] else line
  }

  lemma ReplaceStep(s: string)
    requires s != ""
    ensures |s| >= 2 && s[0] == '\r' && s[1] == '\n' ==> ReplaceCrLf(s) == "\n" + ReplaceCrLf(s[2..])
    ensures !(|s| >= 2 && s[0] == '\r' && s[1] == '\n') ==> ReplaceCrLf(s) == [s[0]] + ReplaceCrLf(s[1..])
  {
  }

  lemma {:induction false} ReplaceUpToBreak(line: string, rest: string)
    requires '\n' !in line
    ensures ReplaceCrLf(line + "\n" + rest) == DropCr(line) + "\n" + ReplaceCrLf(rest)
  {
    hide ReplaceCrLf;
    var s := line + "\n" + rest;
    ReplaceStep(s);
    if line == "" {
      assert s[1..] == rest;
    } else if line == "\r" {
      assert s[2..] == rest;
    } else {
      assert s[0] == line[0] && s[1..] == line[1..] + "\n" + rest;
      assert |line| > 1 ==> s[1] == line[1] && line[1] in line;
      ReplaceUpToBreak(line[1..], rest);
      assert DropCr(line) == [line[0]] + DropCr(line[1..]);
      assert [line[0]] + (DropCr(line[1..]) + "\n" + ReplaceCrLf(rest)) == DropCr(line) + "\n" + ReplaceCrLf(rest);
    }
  }

  lemma {:induction false} ReplaceWithoutBreak(line: string)
    requires '\n' !in line
    ensures ReplaceCrLf(line) == line
  {
    if line != "" {
      assert line[0] in line && (|line| > 1 ==> line[1] in line);
      ReplaceWithoutBreak(line[1..]);
    }
  }

  /** The first line of a text ends at its first line feed, without one carriage return before it. */
  lemma LinesFirst(line: string, rest: string)
    requires '\n' !in line
    ensures Lines(line + "\n" + rest) == [DropCr(line)] + Lines(rest)
  {
    ReplaceUpToBreak(line, rest);
    SplitFirst(DropCr(line), '\n', ReplaceCrLf(rest));
  }

  lemma LinesWithoutBreak(line: string)
    requires '\n' !in line
    ensures Lines(line) == [line]
  {
    ReplaceWithoutBreak(line);
  }

  predicate IsLine(line: string)
  {
    '\n' !in line
  }

  ghost predicate AllLines(lines: seq<string>)
  {
    forall i :: 0 <= i < |lines| ==> IsLine(lines[i])
  }

  predicate EndsWithCr(s: string)
  {
    s != "" && s[|s| - 1] == '\r'
  }

  /** No carriage return would merge with a plain line feed put after one of the lines but the last. */
  ghost predicate Joinable(lines: seq<string>, le: string)
  {
    le == "\r\n" || forall i :: 0 <= i < |lines| - 1 ==> !EndsWithCr(lines[i])
  }

  predicate LineEnding(le: string)
  {
    le == "\n" || le == "\r\n"
  }

  lemma LinesAfterJoinStep(line: string, le: string, rest: string)
    requires IsLine(line) && LineEnding(le) && (le == "\r\n" || !EndsWithCr(line))
    ensures Lines(line + le + rest) == [line] + Lines(rest)
  {
    hide Lines;
    if le == "\n" {
      LinesFirst(line, rest);
    } else {
      var l := line + "\r";
      LinesFirst(l, rest);
      assert DropCr(l) == line;
      assert line + le + rest == l + "\n" + rest;
    }
  }

  lemma {:induction false} LinesOfJoin(lines: seq<string>, le: string)
    requires lines != [] && AllLines(lines) && LineEnding(le) && Joinable(lines, le)
    ensures Lines(Join(lines, le)) == lines
  {
    hide Lines;
    if |lines| == 1 {
      LinesWithoutBreak(lines[0]);
    } else {
      LinesOfJoin(lines[1..], le);
      LinesAfterJoinStep(lines[0], le, Join(lines[1..], le));
      assert lines == [lines[0]] + lines[1..];
    }
  }

  /** Cuts a text with a line feed into its first line, as it stands, and the rest. */
  lemma CutLine(s: string) returns (line: string, rest: string)
    requires '\n' in s
    ensures s == line + "\n" + rest && IsLine(line)
  {
    var i := IndexOf(s, '\n');
    line, rest := s[..i], s[i + 1..];
  }

  lemma {:induction false} LinesAreLines(s: string)
    ensures AllLines(Lines(s)) && Lines(s) != []
    decreases |s|
  {
    hide Lines;
    if '\n' in s {
      var line, rest := CutLine(s);
      LinesAreLines(rest);
      LinesFirst(line, rest);
    } else {
      LinesWithoutBreak(s);
    }
  }

  predicate HasCrLf(s: string)
  {
    exists i :: 0 <= i < |s| - 1 && s[i] == '\r' && s[i + 1] == '\n'
  }

  function DetectLineEnding(s: string): string
  {
    if HasCrLf(s) then "\r\n" else "\n"
  }

  lemma CrBeforeBreak(line: string, rest: string)
    requires EndsWithCr(line)
    ensures HasCrLf(line + "\n" + rest)
  {
    var s, i := line + "\n" + rest, |line| - 1;
    assert s[i] == '\r' && s[i + 1] == '\n';
  }

  /** Without a CR-LF pair, only the last line of a text can end in a carriage return. */
  lemma {:induction false} LinesAreJoinable(s: string)
    ensures Joinable(Lines(s), DetectLineEnding(s))
    decreases |s|
  {
    hide Lines;
    if !HasCrLf(s) {
      if '\n' in s {
        var line, rest := CutLine(s);
        if EndsWithCr(line) {
          CrBeforeBreak(line, rest);
        }
        forall i | 0 <= i < |rest| - 1 ensures !(rest[i] == '\r' && rest[i + 1] == '\n') {
          assert rest[i] == s[i + |line| + 1] && rest[i + 1] == s[i + |line| + 1 + 1];
        }
        LinesAreJoinable(rest);
        LinesFirst(line, rest);
      } else {
        LinesWithoutBreak(s);
      }
    }
  }

  /** What is written after a line feed starts a new line; the lines before it stay. */
  lemma {:induction false} LinesAfterBreak(a: string, b: string)
    requires a != "" && a[|a| - 1] == '\n'
    ensures Lines(a + b) == Lines(a)[..|Lines(a)| - 1] + Lines(b)
    decreases |a|
  {
    hide Lines;
    var line, rest := CutLine(a);
    LinesFirst(line, rest);
    LinesFirst(line, rest + b);
    assert a + b == line + "\n" + (rest + b);
    LinesAreLines(rest);
    if rest == "" {
      assert rest + b == b;
      LinesWithoutBreak("");
    } else {
      assert rest[|rest| - 1] == a[|a| - 1];
      LinesAfterBreak(rest, b);
      var l := Lines(rest);
      assert ([DropCr(line)] + l)[..|l|] == [DropCr(line)] + l[..|l| - 1];
    }
  }

  function Ended(lines: seq<string>, le: string): seq<string>
    requires lines != []
  {
    var last := lines[|lines| - 1];
    lines[..|lines| - 1] + [if le == "\n" then DropCr(last) else last, ""]
  }

  lemma LineWhenEnded(a: string, le: string)
    requires IsLine(a) && LineEnding(le)
    ensures Lines(a + le) == Ended([a], le)
  {
    hide Lines;
    LinesWithoutBreak("");
    if le == "\n" {
      LinesFirst(a, "");
      assert a + le == a + "\n" + "";
    } else {
      LinesFirst(a + "\r", "");
      assert a + le == (a + "\r") + "\n" + "";
      assert DropCr(a + "\r") == a;
    }
  }

  lemma EndedTail(first: string, lines: seq<string>, le: string)
    requires lines != []
    ensures Ended([first] + lines, le) == [first] + Ended(lines, le)
  {
    assert ([first] + lines)[..|lines|] == [first] + lines[..|lines| - 1];
  }

  /** Ending an unfinished last line: it is kept, unless a carriage return at its end is swallowed. */
  lemma {:induction false} LinesWhenEnded(a: string, le: string)
    requires (a == "" || a[|a| - 1] != '\n') && LineEnding(le)
    ensures Lines(a) != [] && Lines(a + le) == Ended(Lines(a), le)
    decreases |a|
  {
    hide Lines;
    if '\n' in a {
      var line, rest := CutLine(a);
      assert a[|a| - 1] == if rest == "" then '\n' else rest[|rest| - 1];
      LinesWhenEnded(rest, le);
      LinesFirst(line, rest);
      LinesFirst(line, rest + le);
      assert a + le == line + "\n" + (rest + le);
      EndedTail(DropCr(line), Lines(rest), le);
    } else {
      LinesWithoutBreak(a);
      LineWhenEnded(a, le);
    }
  }

  // ------------------------------------------------------------- inspection

  datatype NpmrcError = UnsupportedAuth | UnsupportedScopedRegistry | UnsupportedRegistry

  datatype NpmrcInfo = NpmrcInfo(present: bool, raw: string, lines: seq<string>, hasRegistry: bool,
                                 registryValue: string, registryLineIdx: int, lineEnding: string)

  /** The credential and scope patterns, and the loopback test of a parsed URL, left abstract. */
  datatype Rules = Rules(auth: string -> bool, scoped: string -> bool, loopback: string -> bool)

  /** `\s` of the regular expressions. */
  predicate ReSpace(c: char)
  {
    c in {'\t', '\n', '\U{C}', '\r', ' '}
  }

  function SkipSpace(s: string): string
  {
    if s != "" && ReSpace(s[0]) then SkipSpace(s[1..]) else s
  }

  function DropSpace(s: string): string
  {
    if s != "" && ReSpace(s[|s| - 1]) then DropSpace(s[..|s| - 1]) else s
  }

  /** Case folding of `(?i)` on the letters of "registry": the long s folds to s. */
  function Fold(c: char): char
  {
    if c == '\U{17F}' then 's' else LowerChar(c)
  }

  predicate StartsWithRegistry(s: string)
  {
    |s| >= 8 && forall i :: 0 <= i < 8 ==> Fold(s[i]) == "registry"[i]
  }

  /** The group captured by `^(?i)\s*registry\s*=\s*(.*?)\s*$`, if the line matches. */
  function RegistryValue(line: string): Option<string>
  {
    var s := SkipSpace(line);
    if !StartsWithRegistry(s) then None else
      var afterName := SkipSpace(s[8..]);
      if afterName == "" || afterName[0] != '=' then None
      else Some(DropSpace(SkipSpace(afterName[1..])))
  }

  /** Blank lines and comments. */
  predicate Ignored(line: string)
  {
    var trimmed := TrimSpace(line);
    trimmed == "" || trimmed[0] == '#' || trimmed[0] == ';'
  }

  function Offence(rules: Rules, line: string): Option<NpmrcError>
  {
    if Ignored(line) then None
    else if rules.auth(TrimSpace(line)) then Some(UnsupportedAuth)
    else if rules.scoped(TrimSpace(line)) then Some(UnsupportedScopedRegistry)
    else None
  }

  predicate SetsRegistry(line: string)
  {
    !Ignored(line) && RegistryValue(line).Some?
  }

  predicate IsQuote(c: char)
  {
    c == '"' || c == '\''
  }

  function TrimQuotes(s: string): string
  {
    if s != "" && IsQuote(s[0]) then TrimQuotes(s[1..])
    else if s != "" && IsQuote(s[|s| - 1]) then TrimQuotes(s[..|s| - 1])
    else s
  }

  predicate RegistryAllowed(rules: Rules, rawUrl: string)
  {
    var trimmed := TrimQuotes(TrimSpace(rawUrl));
    var norm := if trimmed != "" && trimmed[|trimmed| - 1] == '/' then trimmed[..|trimmed| - 1] else trimmed;
    trimmed == "" || norm == "https://registry.npmjs.org" || norm == "http://registry.npmjs.org" || rules.loopback(trimmed)
  }

  /** The first line that makes the file unsupported decides the error. */
  function FirstOffence(rules: Rules, lines: seq<string>): Option<NpmrcError>
  {
    if lines == [] then None
    else if Offence(rules, lines[0]).Some? then Offence(rules, lines[0])
    else FirstOffence(rules, lines[1..])
  }

  /** The last line that sets the registry is the effective one. */
  function LastRegistry(lines: seq<string>): (i: int)
    ensures -1 <= i < |lines|
    ensures i >= 0 ==> SetsRegistry(lines[i])
    ensures forall j :: i < j < |lines| ==> !SetsRegistry(lines[j])
  {
    if lines == [] then -1
    else if SetsRegistry(lines[|lines| - 1]) then |lines| - 1
    else LastRegistry(lines[..|lines| - 1])
  }

  /** What inspecting a file, or the absence of one, has to give. */
  function Inspect(rules: Rules, content: Option<string>): Result<NpmrcInfo, NpmrcError>
  {
    if content.None? then Ok(NpmrcInfo(false, "", [], false, "", -1, "\n")) else
      var lines := Lines(content.value);
      var offence := FirstOffence(rules, lines);
      if offence.Some? then Err(offence.value) else
        var at := LastRegistry(lines);
        var value := if at < 0 then "" else RegistryValue(lines[at]).value;
        if at >= 0 && !RegistryAllowed(rules, value) then Err(UnsupportedRegistry)
        else Ok(NpmrcInfo(true, content.value, lines, at >= 0, value, at, DetectLineEnding(content.value)))
  }

  lemma {:induction false} OffenceFree(rules: Rules, lines: seq<string>)
    ensures FirstOffence(rules, lines).None? <==> forall i :: 0 <= i < |lines| ==> Offence(rules, lines[i]).None?
  {
    if lines != [] {
      OffenceFree(rules, lines[1..]);
      assert forall i :: 1 <= i < |lines| ==> lines[i] == lines[1..][i - 1];
    }
  }

  lemma {:induction false} OffenceAt(rules: Rules, lines: seq<string>, i: nat)
    requires i < |lines| && Offence(rules, lines[i]).Some?
    requires forall j :: 0 <= j < i ==> Offence(rules, lines[j]).None?
    ensures FirstOffence(rules, lines) == Offence(rules, lines[i])
  {
    if i > 0 {
      OffenceAt(rules, lines[1..], i - 1);
    }
  }

  /** The pass over the lines: stops at the first offence, remembers the last registry line. */
  method ScanLines(rules: Rules, lines: seq<string>) returns (offence: Option<NpmrcError>, at: int)
    ensures offence == FirstOffence(rules, lines)
    ensures offence.None? ==> at == LastRegistry(lines)
  {
    hide Ignored, RegistryValue, TrimSpace;
    offence, at := None, -1;
    for idx := 0 to |lines|
      invariant offence.None?
      invariant forall j :: 0 <= j < idx ==> Offence(rules, lines[j]).None?
      invariant at == LastRegistry(lines[..idx])
    {
      var line := lines[idx];
      assert lines[..idx + 1][..idx] == lines[..idx];
      if Ignored(line) {
        continue;
      }
      if rules.auth(TrimSpace(line)) || rules.scoped(TrimSpace(line)) {
        OffenceAt(rules, lines, idx);
        offence := Some(if rules.auth(TrimSpace(line)) then UnsupportedAuth else UnsupportedScopedRegistry);
        return;
      }
      if RegistryValue(line).Some? {
        at := idx;
      }
    }
    OffenceFree(rules, lines);
    assert lines[..|lines|] == lines;
  }

  method InspectNpmrc(rules: Rules, content: Option<string>) returns (r: Result<NpmrcInfo, NpmrcError>)
    ensures r == Inspect(rules, content)
  {
    if content.None? {
      return Ok(NpmrcInfo(false, "", [], false, "", -1, "\n"));
    }
    var lines := Lines(content.value);
    var offence, at := ScanLines(rules, lines);
    if offence.Some? {
      return Err(offence.value);
    }
    var value := if at < 0 then "" else RegistryValue(lines[at]).value;
    if at >= 0 && !RegistryAllowed(rules, value) {
      return Err(UnsupportedRegistry);
    }
    r := Ok(NpmrcInfo(true, content.value, lines, at >= 0, value, at, DetectLineEnding(content.value)));
  }

  // --------------------------------------------------- what inspection looks for

  predicate Blank(s: string)
  {
    forall i :: 0 <= i < |s| ==> ReSpace(s[i])
  }

  /** Neither starts nor ends with white space. */
  predicate Bare(s: string)
  {
    s == "" || (!ReSpace(s[0]) && !ReSpace(s[|s| - 1]))
  }

  lemma {:induction false} SkipSpaceSplits(s: string) returns (ws: string)
    ensures s == ws + SkipSpace(s) && Blank(ws) && (SkipSpace(s) == "" || !ReSpace(SkipSpace(s)[0]))
  {
    ws := "";
    if s != "" && ReSpace(s[0]) {
      var rest := SkipSpaceSplits(s[1..]);
      ws := [s[0]] + rest;
    }
  }

  lemma {:induction false} DropSpaceSplits(s: string) returns (ws: string)
    ensures s == DropSpace(s) + ws && Blank(ws) && (DropSpace(s) == "" || !ReSpace(DropSpace(s)[|DropSpace(s)| - 1]))
    ensures DropSpace(s) <= s
  {
    ws := "";
    if s != "" && ReSpace(s[|s| - 1]) {
      var rest := DropSpaceSplits(s[..|s| - 1]);
      ws := rest + [s[|s| - 1]];
    }
  }

  lemma {:induction false} SkipSpaceDrops(ws: string, s: string)
    requires Blank(ws)
    ensures SkipSpace(ws + s) == SkipSpace(s)
  {
    if ws == "" {
      assert ws + s == s;
    } else {
      assert (ws + s)[1..] == ws[1..] + s;
      SkipSpaceDrops(ws[1..], s);
    }
  }

  lemma {:induction false} DropSpaceDrops(s: string, ws: string)
    requires Blank(ws)
    ensures DropSpace(s + ws) == DropSpace(s)
  {
    if ws == "" {
      assert s + ws == s;
    } else {
      assert (s + ws)[..|s + ws| - 1] == s + ws[..|ws| - 1];
      DropSpaceDrops(s, ws[..|ws| - 1]);
    }
  }

  /** The value without the white space around it. */
  lemma ValueBetween(c: string, v: string, d: string)
    requires Blank(c) && Blank(d) && Bare(v)
    ensures DropSpace(SkipSpace(c + v + d)) == v
  {
    assert c + v + d == c + (v + d);
    SkipSpaceDrops(c, v + d);
    if v == "" {
      assert v + d == d + "";
      SkipSpaceDrops(d, "");
    } else {
      assert SkipSpace(v + d) == v + d;
      DropSpaceDrops(v, d);
    }
  }

  /** The parts of a registry line: the word, the equals sign and the value, with white space between. */
  datatype RegistryLine = RegistryLine(before: string, word: string, between: string, after: string, value: string, trailing: string)

  predicate IsRegistryLine(line: string, p: RegistryLine)
  {
    && line == p.before + p.word + p.between + "=" + p.after + p.value + p.trailing
    && Blank(p.before) && Blank(p.between) && Blank(p.after) && Blank(p.trailing) && Bare(p.value)
    && |p.word| == 8 && StartsWithRegistry(p.word)
  }

  lemma Regroup(a: string, w: string, b: string, c: string, v: string, d: string)
    ensures a + w + b + "=" + c + v + d == a + (w + (b + ("=" + (c + v + d))))
  {
    var tail := c + v + d;
    assert a + w + b + "=" + c + v + d == a + w + b + "=" + tail;
    assert a + w + b + "=" + tail == a + w + b + ("=" + tail);
    assert a + w + b + ("=" + tail) == a + w + (b + ("=" + tail));
  }

  /** The value after the equals sign, and what is around it. */
  lemma ValueParts(rest: string) returns (after: string, value: string, trailing: string)
    ensures rest == after + value + trailing && Blank(after) && Blank(trailing) && Bare(value)
    ensures value == DropSpace(SkipSpace(rest))
  {
    after := SkipSpaceSplits(rest);
    var kept := SkipSpace(rest);
    trailing := DropSpaceSplits(kept);
    value := DropSpace(kept);
    hide SkipSpace, DropSpace;
    assert rest == after + (value + trailing);
  }

  lemma RegistryLineParts(line: string) returns (p: RegistryLine)
    requires RegistryValue(line).Some?
    ensures IsRegistryLine(line, p) && p.value == RegistryValue(line).value
  {
    hide SkipSpace, DropSpace, Fold;
    var s := SkipSpace(line);
    var before := SkipSpaceSplits(line);
    var word, afterWord := s[..8], s[8..];
    var between := SkipSpaceSplits(afterWord);
    var rest := SkipSpace(afterWord)[1..];
    assert SkipSpace(afterWord) == "=" + rest;
    var after, value, trailing := ValueParts(rest);
    p := RegistryLine(before, word, between, after, value, trailing);
    assert line == before + (word + (between + ("=" + rest)));
    Regroup(before, word, between, after, value, trailing);
    assert StartsWithRegistry(word);
  }

  lemma RegistryLineMatches(line: string, p: RegistryLine)
    requires IsRegistryLine(line, p)
    ensures RegistryValue(line) == Some(p.value)
  {
    hide SkipSpace, DropSpace, StartsWithRegistry, Blank, Bare;
    Regroup(p.before, p.word, p.between, p.after, p.value, p.trailing);
    var tail := p.after + p.value + p.trailing;
    var s := p.word + (p.between + ("=" + tail));
    SkipSpaceDrops(p.before, s);
    WordIsNoSpace(p.word, s);
    assert s[8..] == p.between + ("=" + tail);
    SkipSpaceDrops(p.between, "=" + tail);
    EqualsIsNoSpace(tail);
    assert ("=" + tail)[1..] == tail;
    ValueBetween(p.after, p.value, p.trailing);
  }

  lemma WordIsNoSpace(word: string, s: string)
    requires |word| == 8 && StartsWithRegistry(word) && word <= s
    ensures SkipSpace(s) == s && StartsWithRegistry(s)
  {
    assert Fold(word[0]) == 'r' && s[0] == word[0];
  }

  lemma EqualsIsNoSpace(tail: string)
    ensures SkipSpace("=" + tail) == "=" + tail
  {
  }

  /** A line matches with value `v` exactly when it is made up of these parts. */
  lemma RegistryLineIff(line: string, v: string)
    ensures RegistryValue(line) == Some(v) <==> exists p :: IsRegistryLine(line, p) && p.value == v
  {
    if RegistryValue(line) == Some(v) {
      var p := RegistryLineParts(line);
    }
    if p :| IsRegistryLine(line, p) && p.value == v {
      RegistryLineMatches(line, p);
    }
  }

  /** The word, without regard to case. */
  lemma RegistryWord(word: string)
    requires |word| == 8 && forall i :: 0 <= i < 8 ==> word[i] < '\U{80}'
    ensures StartsWithRegistry(word) <==> Lower(word) == "registry"
  {
    if Lower(word) == "registry" {
      forall i | 0 <= i < 8 ensures Fold(word[i]) == "registry"[i] {
        assert Lower(word)[i] == LowerChar(word[i]);
      }
    }
  }

  /** Only white space, or white space and then a comment sign. */
  lemma IgnoredIff(line: string)
    ensures Ignored(line) <==>
      exists ws, rest :: line == ws + rest && AllSpace(ws) && (rest == "" || rest[0] == '#' || rest[0] == ';')
  {
    var lead := TrimLeftSplits(line);
    var text := TrimLeft(line);
    if text != "" {
      FirstKept(text);
    }
    assert line == lead + text;
    if ws, rest :| line == ws + rest && AllSpace(ws) && (rest == "" || rest[0] == '#' || rest[0] == ';') {
      TrimLeftDrops(ws, rest);
      assert TrimLeft(rest) == rest;
    }
  }

  lemma {:induction false} TrimLeftSplits(s: string) returns (ws: string)
    ensures s == ws + TrimLeft(s) && AllSpace(ws) && (TrimLeft(s) == "" || !IsSpace(TrimLeft(s)[0]))
  {
    ws := "";
    if s != "" && IsSpace(s[0]) {
      var rest := TrimLeftSplits(s[1..]);
      ws := [s[0]] + rest;
    }
  }

  lemma {:induction false} FirstKept(s: string)
    requires s != "" && !IsSpace(s[0])
    ensures TrimRight(s) != "" && TrimRight(s)[0] == s[0]
  {
    if |s| > 1 && IsSpace(s[|s| - 1]) {
      FirstKept(s[..|s| - 1]);
    }
  }

  predicate Quotes(s: string)
  {
    forall i :: 0 <= i < |s| ==> s[i] in {'"', '\''}
  }

  predicate Unquoted(s: string)
  {
    s == "" || (s[0] !in {'"', '\''} && s[|s| - 1] !in {'"', '\''})
  }

  lemma {:induction false} TrimQuotesSplits(s: string) returns (left: string, right: string)
    ensures s == left + TrimQuotes(s) + right && Quotes(left) && Quotes(right) && Unquoted(TrimQuotes(s))
    decreases |s|
  {
    left, right := "", "";
    if s != "" && IsQuote(s[0]) {
      left, right := TrimQuotesSplits(s[1..]);
      left := [s[0]] + left;
    } else if s != "" && IsQuote(s[|s| - 1]) {
      left, right := TrimQuotesSplits(s[..|s| - 1]);
      right := right + [s[|s| - 1]];
    }
  }

  lemma {:induction false} TrimQuotesAround(left: string, t: string, right: string)
    requires Quotes(left) && Quotes(right) && Unquoted(t)
    ensures TrimQuotes(left + t + right) == t
    decreases |left| + |right|
  {
    var s := left + t + right;
    if left != "" {
      assert s[1..] == left[1..] + t + right;
      TrimQuotesAround(left[1..], t, right);
    } else if right != "" {
      if t == "" {
        assert s == right + t + left && s[1..] == right[1..] + t + left;
        TrimQuotesAround(right[1..], t, "");
      } else {
        assert s[..|s| - 1] == left + t + right[..|right| - 1];
        TrimQuotesAround(left, t, right[..|right| - 1]);
      }
    } else {
      assert s == t;
    }
  }

  /** The public registry under either scheme, with or without a final slash. */
  predicate PublicRegistry(t: string)
  {
    t in {"https://registry.npmjs.org", "https://registry.npmjs.org/", "http://registry.npmjs.org", "http://registry.npmjs.org/"}
  }

  /** A registry is allowed exactly when, without white space and quotes around, it is empty, public or loopback. */
  lemma RegistryAllowedIff(rules: Rules, value: string)
    ensures RegistryAllowed(rules, value) <==>
      exists left, t, right :: TrimSpace(value) == left + t + right && Quotes(left) && Quotes(right) && Unquoted(t) &&
        (t == "" || PublicRegistry(t) || rules.loopback(t))
  {
    hide TrimSpace, TrimQuotes;
    var v := TrimSpace(value);
    var left, right := TrimQuotesSplits(v);
    var t := TrimQuotes(v);
    WithoutSlash(t);
    assert v == left + t + right;
    if l, x, r :| v == l + x + r && Quotes(l) && Quotes(r) && Unquoted(x) && (x == "" || PublicRegistry(x) || rules.loopback(x)) {
      TrimQuotesAround(l, x, r);
    }
  }

  lemma WithoutSlash(t: string)
    ensures PublicRegistry(t) <==>
      var norm := if t != "" && t[|t| - 1] == '/' then t[..|t| - 1] else t;
      norm == "https://registry.npmjs.org" || norm == "http://registry.npmjs.org"
  {
    if t != "" && t[|t| - 1] == '/' {
      assert t == t[..|t| - 1] + "/";
      assert "https://registry.npmjs.org/" == "https://registry.npmjs.org" + "/";
      assert "http://registry.npmjs.org/" == "http://registry.npmjs.org" + "/";
      assert t != "https://registry.npmjs.org" && t != "http://registry.npmjs.org";
    }
  }

  /** The line may stay: it is ignored, or neither of the two patterns finds anything in it. */
  predicate Harmless(rules: Rules, line: string)
  {
    Ignored(line) || (!rules.auth(TrimSpace(line)) && !rules.scoped(TrimSpace(line)))
  }

  predicate AllHarmless(rules: Rules, lines: seq<string>, n: nat)
    requires n <= |lines|
  {
    forall j :: 0 <= j < n ==> Harmless(rules, lines[j])
  }

  lemma FirstOffenceIff(rules: Rules, lines: seq<string>, e: NpmrcError)
    ensures FirstOffence(rules, lines) == Some(e) <==>
      exists i :: 0 <= i < |lines| && AllHarmless(rules, lines, i) && !Ignored(lines[i]) &&
        if rules.auth(TrimSpace(lines[i])) then e == UnsupportedAuth
        else rules.scoped(TrimSpace(lines[i])) && e == UnsupportedScopedRegistry
    ensures FirstOffence(rules, lines).None? <==> AllHarmless(rules, lines, |lines|)
  {
    hide Ignored;
    OffenceFree(rules, lines);
    if FirstOffence(rules, lines).Some? {
      var i := OffenceFound(rules, lines);
      assert AllHarmless(rules, lines, i);
    }
    if i :| 0 <= i < |lines| && AllHarmless(rules, lines, i) && !Harmless(rules, lines[i]) {
      forall j | 0 <= j < i ensures Offence(rules, lines[j]).None? {
        assert Harmless(rules, lines[j]);
      }
      OffenceAt(rules, lines, i);
    }
  }

  lemma {:induction false} OffenceFound(rules: Rules, lines: seq<string>) returns (i: nat)
    requires FirstOffence(rules, lines).Some?
    ensures i < |lines| && Offence(rules, lines[i]) == FirstOffence(rules, lines)
    ensures forall j :: 0 <= j < i ==> Offence(rules, lines[j]).None?
  {
    hide Offence;
    i := 0;
    if Offence(rules, lines[0]).None? {
      var k := OffenceFound(rules, lines[1..]);
      i := k + 1;
      forall j | 0 <= j < i ensures Offence(rules, lines[j]).None? {
        assert j > 0 ==> lines[j] == lines[1..][j - 1];
      }
    }
  }

  /** A file is accepted exactly when every line is harmless and the registry its last registry line sets is allowed. */
  lemma InspectAcceptsIff(rules: Rules, s: string)
    ensures Inspect(rules, Some(s)).Ok? <==>
      && AllHarmless(rules, Lines(s), |Lines(s)|)
      && (LastRegistry(Lines(s)) >= 0 ==> RegistryAllowed(rules, RegistryValue(Lines(s)[LastRegistry(Lines(s))]).value))
    ensures Inspect(rules, Some(s)) == Err(UnsupportedRegistry) <==>
      && AllHarmless(rules, Lines(s), |Lines(s)|)
      && LastRegistry(Lines(s)) >= 0 && !RegistryAllowed(rules, RegistryValue(Lines(s)[LastRegistry(Lines(s))]).value)
  {
    hide Lines, RegistryAllowed, RegistryValue, Ignored, AllHarmless, FirstOffence;
    FirstOffenceIff(rules, Lines(s), UnsupportedAuth);
    NeverRegistry(rules, Lines(s));
  }

  lemma NeverRegistry(rules: Rules, lines: seq<string>)
    ensures FirstOffence(rules, lines) != Some(UnsupportedRegistry)
  {
    hide AllHarmless, Ignored;
    FirstOffenceIff(rules, lines, UnsupportedRegistry);
  }

  // ------------------------------------------------------------- generation

  function EnsureTrailingSlash(u: string): string
  {
    if u != "" && u[|u| - 1] == '/' then u else u + "/"
  }

  function TargetLine(url: string): string
  {
    "registry=" + EnsureTrailingSlash(url)
  }

  function GenerateEnabledContent(info: NpmrcInfo, url: string): string
  {
    WithLine(info, TargetLine(url))
  }

  function WithLine(info: NpmrcInfo, target: string): string
  {
    if !info.present then target + "\n"
    else if info.hasRegistry && 0 <= info.registryLineIdx < |info.lines| then
      Join(info.lines[info.registryLineIdx := target], info.lineEnding)
    else if info.raw == "" then target + info.lineEnding
    else if info.raw[|info.raw| - 1] == '\n' then info.raw + target + info.lineEnding
    else info.raw + info.lineEnding + target + info.lineEnding
  }

  // ---------------------------------------------------------- what is proved

  /** A gateway URL that fits on a registry line and that inspection has nothing against. */
  ghost predicate UsableUrl(rules: Rules, url: string)
  {
    && '\n' !in url && '\r' !in url && (url != "" ==> !ReSpace(url[0]))
    && !rules.auth(TargetLine(url)) && !rules.scoped(TargetLine(url))
    && RegistryAllowed(rules, EnsureTrailingSlash(url))
  }

  lemma RegistryTextValue(t: string, u: string)
    requires t == "registry=" + u && u != "" && !ReSpace(u[0]) && !ReSpace(u[|u| - 1])
    ensures RegistryValue(t) == Some(u)
  {
    assert t[..8] == "registry";
    forall i | 0 <= i < 8 ensures Fold(t[i]) == "registry"[i] {
      assert t[i] == t[..8][i];
    }
    assert t[8] == '=' && t[8..][0] == '=' && t[8..][1..] == u;
  }

  /** A line that inspection accepts and takes the registry from. */
  ghost predicate GoodLine(rules: Rules, target: string)
  {
    IsLine(target) && !EndsWithCr(target) && Offence(rules, target).None? && SetsRegistry(target)
  }

  lemma TargetIsNotIgnored(t: string, u: string)
    requires t == "registry=" + u && u != "" && u[|u| - 1] == '/'
    ensures TrimSpace(t) == t && !Ignored(t) && !EndsWithCr(t)
  {
    assert t[0] == 'r' && t[|t| - 1] == '/';
    assert "" + t + "" == t;
    TrimSpaceAround("", t, "");
  }

  lemma TargetLineIsGood(rules: Rules, url: string)
    requires UsableUrl(rules, url)
    ensures GoodLine(rules, TargetLine(url))
    ensures RegistryValue(TargetLine(url)) == Some(EnsureTrailingSlash(url))
  {
    var t, u := TargetLine(url), EnsureTrailingSlash(url);
    RegistryTextValue(t, u);
    TargetIsNotIgnored(t, u);
    assert IsLine(t) by {
      assert '\n' !in "registry=" && '\n' !in u;
    }
  }

  /** The lines before the place where a registry line is appended. */
  function Kept(info: NpmrcInfo): seq<string>
  {
    if info.lines != [] && info.lines[|info.lines| - 1] == "" then info.lines[..|info.lines| - 1] else info.lines
  }

  /** The lines of the enabled file: one line replaced, or the registry line added at the end. */
  function ExpectedLines(info: NpmrcInfo, target: string): seq<string>
  {
    if info.hasRegistry && 0 <= info.registryLineIdx < |info.lines| then
      info.lines[info.registryLineIdx := target]
    else Kept(info) + [target, ""]
  }

  /** The one kind of file whose last line an appended line feed would change. */
  predicate LosesCr(content: Option<string>)
  {
    content.Some? && LastRegistry(Lines(content.value)) < 0 && EndsWithCr(content.value) && !HasCrLf(content.value)
  }

  /** An unfinished last line is not empty and ends like the text. */
  lemma {:induction false} LastLine(s: string)
    requires s != "" && s[|s| - 1] != '\n'
    ensures var l := Lines(s); l != [] && l[|l| - 1] != "" && l[|l| - 1][|l[|l| - 1]| - 1] == s[|s| - 1]
    decreases |s|
  {
    hide Lines;
    if '\n' in s {
      var line, rest := CutLine(s);
      assert s[|s| - 1] == if rest == "" then '\n' else rest[|rest| - 1];
      LastLine(rest);
      LinesFirst(line, rest);
    } else {
      LinesWithoutBreak(s);
    }
  }

  lemma LinesOfFinished(s: string)
    requires s != "" && s[|s| - 1] == '\n'
    ensures Lines(s) != [] && Lines(s)[|Lines(s)| - 1] == ""
  {
    hide Lines;
    LinesAreLines(s);
    assert s + "" == s;
    LinesAfterBreak(s, "");
    LinesWithoutBreak("");
  }

  lemma AppendedLines(raw: string, target: string)
    requires IsLine(target) && !EndsWithCr(target) && raw != "" && raw[|raw| - 1] != '\n'
    ensures var le, l := DetectLineEnding(raw), Lines(raw);
      && l != []
      && Lines(raw + le + target + le) == Ended(l, le)[..|l|] + [target, ""]
  {
    hide Lines;
    var le := DetectLineEnding(raw);
    LinesWhenEnded(raw, le);
    LineWhenEnded(target, le);
    LinesAfterBreak(raw + le, target + le);
    assert raw + le + target + le == (raw + le) + (target + le);
  }

  lemma UnfinishedLines(raw: string, target: string)
    requires IsLine(target) && !EndsWithCr(target) && raw != "" && raw[|raw| - 1] != '\n'
    ensures var le, l := DetectLineEnding(raw), Lines(raw);
      && l != [] && l[|l| - 1] != ""
      && (Lines(raw + le + target + le) == l + [target, ""] <==> !(EndsWithCr(raw) && !HasCrLf(raw)))
  {
    hide Lines;
    var le, l := DetectLineEnding(raw), Lines(raw);
    LastLine(raw);
    AppendedLines(raw, target);
    var last := l[|l| - 1];
    var out := Lines(raw + le + target + le);
    assert l == l[..|l| - 1] + [last];
    if EndsWithCr(raw) && !HasCrLf(raw) {
      assert out[|l| - 1] == DropCr(last) != last;
      assert (l + [target, ""])[|l| - 1] == last;
    } else {
      assert Ended(l, le)[..|l|] == l;
    }
  }

  lemma ReplacedLines(raw: string, at: nat, target: string)
    requires IsLine(target) && !EndsWithCr(target) && at < |Lines(raw)|
    ensures Lines(Join(Lines(raw)[at := target], DetectLineEnding(raw))) == Lines(raw)[at := target]
  {
    hide Lines;
    LinesAreLines(raw);
    LinesAreJoinable(raw);
    LinesOfJoin(Lines(raw)[at := target], DetectLineEnding(raw));
  }

  lemma FinishedLines(raw: string, target: string)
    requires IsLine(target) && !EndsWithCr(target) && raw != "" && raw[|raw| - 1] == '\n'
    ensures var l := Lines(raw);
      && l != [] && l[|l| - 1] == ""
      && Lines(raw + target + DetectLineEnding(raw)) == l[..|l| - 1] + [target, ""]
  {
    hide Lines;
    var le := DetectLineEnding(raw);
    LinesOfFinished(raw);
    LineWhenEnded(target, le);
    LinesAfterBreak(raw, target + le);
    assert raw + target + le == raw + (target + le);
  }

  /** An inspection result, as far as generation relies on it. */
  ghost predicate Faithful(info: NpmrcInfo)
  {
    if info.present then
      info.lines == Lines(info.raw) && info.lineEnding == DetectLineEnding(info.raw) &&
      -1 <= info.registryLineIdx < |info.lines| && (info.hasRegistry <==> info.registryLineIdx >= 0)
    else
      info.lines == [] && !info.hasRegistry
  }

  lemma GeneratedByReplacing(info: NpmrcInfo, target: string)
    requires Faithful(info) && IsLine(target) && !EndsWithCr(target) && info.present && info.hasRegistry
    ensures Lines(WithLine(info, target)) == ExpectedLines(info, target)
  {
    hide Lines;
    ReplacedLines(info.raw, info.registryLineIdx, target);
  }

  lemma GeneratedFromNothing(info: NpmrcInfo, target: string)
    requires Faithful(info) && IsLine(target) && !EndsWithCr(target) && !info.hasRegistry
    requires info.present ==> info.raw == ""
    ensures Lines(WithLine(info, target)) == ExpectedLines(info, target)
  {
    hide Lines;
    LinesWithoutBreak("");
    LineWhenEnded(target, if info.present then info.lineEnding else "\n");
  }

  lemma GeneratedByAppending(info: NpmrcInfo, target: string)
    requires Faithful(info) && IsLine(target) && !EndsWithCr(target)
    requires info.present && !info.hasRegistry && info.raw != ""
    ensures Lines(WithLine(info, target)) == ExpectedLines(info, target) <==> !(EndsWithCr(info.raw) && !HasCrLf(info.raw))
  {
    hide Lines;
    if info.raw[|info.raw| - 1] == '\n' {
      FinishedLines(info.raw, target);
    } else {
      UnfinishedLines(info.raw, target);
    }
  }

  /** Enabling changes no line but the registry line, exactly when no final carriage return is lost. */
  lemma EnabledLines(rules: Rules, content: Option<string>, url: string)
    requires Inspect(rules, content).Ok? && UsableUrl(rules, url)
    ensures var info := Inspect(rules, content).value;
      Lines(GenerateEnabledContent(info, url)) == ExpectedLines(info, TargetLine(url)) <==> !LosesCr(content)
  {
    hide Lines, TargetLine, RegistryValue, RegistryAllowed, Offence, WithLine, ExpectedLines;
    TargetLineIsGood(rules, url);
    var info := Inspect(rules, content).value;
    if info.hasRegistry {
      GeneratedByReplacing(info, TargetLine(url));
    } else if content.None? || info.raw == "" {
      GeneratedFromNothing(info, TargetLine(url));
    } else {
      GeneratedByAppending(info, TargetLine(url));
    }
  }

  lemma ExpectedLinesOffence(rules: Rules, info: NpmrcInfo, target: string)
    requires Faithful(info) && GoodLine(rules, target) && FirstOffence(rules, info.lines).None?
    ensures FirstOffence(rules, ExpectedLines(info, target)).None?
  {
    hide Lines;
    var lines := ExpectedLines(info, target);
    OffenceFree(rules, info.lines);
    OffenceFree(rules, lines);
    assert Offence(rules, "").None?;
    forall i | 0 <= i < |lines| ensures Offence(rules, lines[i]).None? {
      assert lines[i] == target || lines[i] == "" || (i < |info.lines| && lines[i] == info.lines[i]);
    }
  }

  lemma ExpectedLinesRegistry(rules: Rules, info: NpmrcInfo, target: string)
    requires Faithful(info) && GoodLine(rules, target)
    requires info.present ==> info.registryLineIdx == LastRegistry(info.lines)
    ensures var lines := ExpectedLines(info, target);
      LastRegistry(lines) >= 0 && lines[LastRegistry(lines)] == target
  {
    hide Lines, RegistryValue;
    var lines := ExpectedLines(info, target);
    var at := if info.hasRegistry then info.registryLineIdx else |Kept(info)|;
    assert !SetsRegistry("");
    assert lines[at] == target;
    forall j | at < j < |lines| ensures !SetsRegistry(lines[j]) {
      assert lines[j] == "" || lines[j] == info.lines[j];
    }
  }

  /** What inspection says once the lines are known. */
  lemma InspectByLines(rules: Rules, s: string, target: string, value: string)
    requires FirstOffence(rules, Lines(s)).None?
    requires LastRegistry(Lines(s)) >= 0 && Lines(s)[LastRegistry(Lines(s))] == target
    requires RegistryValue(target) == Some(value) && RegistryAllowed(rules, value)
    ensures var r := Inspect(rules, Some(s));
      r.Ok? && r.value.hasRegistry && r.value.registryValue == value && r.value.lines == Lines(s)
  {
    hide Lines, RegistryAllowed;
  }

  /** The lines of a file whose last line loses its carriage return. */
  function WithoutLastCr(lines: seq<string>): seq<string>
    requires lines != []
  {
    lines[..|lines| - 1] + [DropCr(lines[|lines| - 1])]
  }

  lemma LinesWithCrLost(rules: Rules, content: Option<string>, target: string)
    requires Inspect(rules, content).Ok? && LosesCr(content) && GoodLine(rules, target)
    ensures var info := Inspect(rules, content).value;
      info.lines != [] && Lines(WithLine(info, target)) == WithoutLastCr(info.lines) + [target, ""]
  {
    hide Lines, RegistryAllowed, RegistryValue, Offence;
    var info := Inspect(rules, content).value;
    AppendedLines(info.raw, target);
    assert Ended(info.lines, "\n")[..|info.lines|] == WithoutLastCr(info.lines);
  }

  /** Only the trimmed line decides whether it offends. */
  lemma OffenceWithoutCr(rules: Rules, line: string)
    ensures Offence(rules, DropCr(line)) == Offence(rules, line)
  {
    hide TrimSpace;
    if EndsWithCr(line) {
      assert line == DropCr(line) + "\r";
      TrimSpaceDrops(DropCr(line), "\r");
    }
  }

  lemma CrLostOffence(rules: Rules, lines: seq<string>, target: string)
    requires lines != [] && GoodLine(rules, target) && FirstOffence(rules, lines).None?
    ensures var out := WithoutLastCr(lines) + [target, ""];
      FirstOffence(rules, out).None? && LastRegistry(out) == |out| - 2
  {
    hide RegistryValue;
    var out := WithoutLastCr(lines) + [target, ""];
    OffenceFree(rules, lines);
    OffenceFree(rules, out);
    OffenceWithoutCr(rules, lines[|lines| - 1]);
    assert Offence(rules, "").None? && !SetsRegistry("");
    hide Offence, DropCr, SetsRegistry;
    forall i | 0 <= i < |out| ensures Offence(rules, out[i]).None? {
      assert out[i] == target || out[i] == "" || out[i] == DropCr(lines[|lines| - 1]) || (i < |lines| && out[i] == lines[i]);
    }
    assert out[|out| - 2] == target && out[|out| - 1] == "";
  }

  lemma EnabledContentInspected(rules: Rules, content: Option<string>, url: string)
    requires Inspect(rules, content).Ok? && UsableUrl(rules, url)
    ensures var info := Inspect(rules, content).value;
      var again := Inspect(rules, Some(GenerateEnabledContent(info, url)));
      && again.Ok? && again.value.hasRegistry
      && again.value.registryValue == EnsureTrailingSlash(url)
      && (again.value.lines == ExpectedLines(info, TargetLine(url)) <==> !LosesCr(content))
  {
    hide Lines, TargetLine, RegistryAllowed, WithLine, ExpectedLines, Offence, EnsureTrailingSlash;
    var info, target := Inspect(rules, content).value, TargetLine(url);
    EnabledLines(rules, content, url);
    TargetLineIsGood(rules, url);
    if LosesCr(content) {
      LinesWithCrLost(rules, content, target);
      CrLostOffence(rules, info.lines, target);
    } else {
      ExpectedLinesOffence(rules, info, target);
      ExpectedLinesRegistry(rules, info, target);
    }
    InspectByLines(rules, GenerateEnabledContent(info, url), target, EnsureTrailingSlash(url));
  }

  /**
   The enabled file always passes inspection again, with the gateway as the registry npm will use;
   every other line is as it was exactly when no final carriage return is lost.
   */
  lemma EnabledContentIsEffective(rules: Rules, content: Option<string>, url: string)
    requires Inspect(rules, content).Ok? && UsableUrl(rules, url)
    ensures var info := Inspect(rules, content).value;
      var again := Inspect(rules, Some(GenerateEnabledContent(info, url)));
      && again.Ok? && again.value.hasRegistry
      && again.value.registryValue == (if url != "" && url[|url| - 1] == '/' then url else url + "/")
      && (again.value.lines == ExpectedLines(info, "registry=" + again.value.registryValue) <==> !LosesCr(content))
  {
    hide Inspect, GenerateEnabledContent, ExpectedLines, UsableUrl, LosesCr;
    EnabledContentInspected(rules, content, url);
  }

  /**
   The text that is written.  Without a registry line the file stays as it is, byte for byte, in front
   of the added line, which is ended as the file's lines are; with one, the lines are joined again by
   that ending.
   */
  lemma EnabledText(rules: Rules, content: Option<string>, url: string)
    requires Inspect(rules, content).Ok?
    ensures var info, line := Inspect(rules, content).value, "registry=" + if url != "" && url[|url| - 1] == '/' then url else url + "/";
      var text := GenerateEnabledContent(info, url);
      var ending := if content.Some? && HasCrLf(content.value) then "\r\n" else "\n";
      if content.None? then text == line + "\n"
      else if info.hasRegistry then text == Join(info.lines[info.registryLineIdx := line], ending)
      else content.value <= text && exists pad :: pad in {"", ending} && text == content.value + pad + line + ending
  {
    hide Lines, RegistryAllowed, RegistryValue, Offence;
    var info, line := Inspect(rules, content).value, TargetLine(url);
    if content.Some? && !info.hasRegistry {
      var s, text := content.value, GenerateEnabledContent(info, url);
      var ending := DetectLineEnding(s);
      var pad := if s == "" || s[|s| - 1] == '\n' then "" else ending;
      assert text == s + pad + line + ending;
    }
  }
}
