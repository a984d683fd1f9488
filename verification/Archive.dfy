/** The walk over the entries of a tarball, and what an archive it accepts looks like. */
module Archive {
  import opened Prelude
  import opened Text
  import opened Paths

  const TWO63: int := 0x8000_0000_0000_0000

  /** A signed 64-bit integer, as the size of a tar header is. */
  type Int64 = x: int | -TWO63 <= x < TWO63

  /** `HeaderOnly` are directories, devices and pipes; `OtherData` any other kind of entry that has data. */
  datatype Kind = Regular | Symlink | Hardlink | HeaderOnly | OtherData

  datatype AnyHeader = Header(name: string, kind: Kind, linkname: string, size: Int64)

  predicate HasData(h: AnyHeader)
  {
    h.kind == Regular || h.kind == OtherData
  }

  /** The tar reader refuses a negative size where data follows, and only there. */
  type Header = h: AnyHeader | HasData(h) ==> h.size >= 0 witness Header("", Regular, "", 0)

  /** Positive limits, as Validate demands, of Go's integer types. */
  datatype Limits = Limits(maxEntryCount: int, maxFileBytes: int, maxExtractedBytes: int, maxNestingDepth: int)

  predicate ValidLimits(l: Limits)
  {
    && 0 < l.maxEntryCount < TWO63 && 0 < l.maxFileBytes < TWO63
    && 0 < l.maxExtractedBytes < TWO63 && 0 < l.maxNestingDepth < TWO63
  }

  datatype ArchiveError =
    | TooManyEntries | PathTraversal | DepthExceeded | DuplicateEntry | SymlinkEscape | HardlinkEscape
    | EntryTooLarge | Bomb | NestedArchive

  // ---------------------------------------------------------- checks on names

  /** Backslashes count as slashes. */
  function Slashed(s: string): string
  {
    seq(|s|, i requires 0 <= i < |s| => if s[i] == '\\' then '/' else s[i])
  }

  function CleanName(name: string): string
  {
    Clean(Slashed(name))
  }

  predicate Absolute(clean: string, raw: string)
  {
    Rooted(clean) || Rooted(raw) || (|clean| >= 2 && clean[1] == ':')
  }

  predicate Traverses(name: string)
  {
    Absolute(CleanName(name), name) || Escapes(CleanName(name)) || ".." in Split(Slashed(name), '/')
  }

  /** Where a link inside the archive leads, by text. */
  function Resolved(cleanName: string, linkname: string): string
  {
    Clean(JoinPath(Dir(cleanName), CleanName(linkname)))
  }

  predicate LinkEscapes(cleanName: string, linkname: string)
  {
    || Absolute(CleanName(linkname), linkname)
    || Escapes(CleanName(linkname)) || Escapes(Resolved(cleanName, linkname))
  }

  function CountNamed(parts: seq<string>): nat
  {
    if parts == [] then 0 else
      CountNamed(parts[..|parts| - 1]) + if parts[|parts| - 1] != "" && parts[|parts| - 1] != "." then 1 else 0
  }

  method PathDepth(cleanName: string) returns (count: nat)
    ensures count == CountNamed(Split(cleanName, '/'))
  {
    if cleanName == "" || cleanName == "." {
      SplitWhole(cleanName);
      assert CountNamed([cleanName][..0]) == 0;
      return 0;
    }
    var parts := Split(cleanName, '/');
    count := 0;
    for i := 0 to |parts|
      invariant count == CountNamed(parts[..i])
    {
      assert parts[..i + 1][..i] == parts[..i];
      if parts[i] != "" && parts[i] != "." {
        count := count + 1;
      }
    }
    assert parts[..|parts|] == parts;
  }

  const NESTED_EXTENSIONS := [
    ".tar", ".tar.gz", ".tgz", ".gz", ".zip", ".bz2", ".tar.bz2", ".tbz", ".tbz2", ".xz", ".tar.xz", ".txz",
    ".7z", ".rar", ".whl", ".egg", ".gem", ".nupkg", ".jar", ".war", ".zst", ".tar.zst"]

  predicate HasSuffix(s: string, suffix: string)
  {
    |suffix| <= |s| && s[|s| - |suffix|..] == suffix
  }

  predicate IsNestedArchive(name: string)
  {
    exists i :: 0 <= i < |NESTED_EXTENSIONS| && HasSuffix(Lower(name), NESTED_EXTENSIONS[i])
  }

  /** By extension, without regard to case. */
  lemma IsNestedArchiveIff(name: string)
    ensures IsNestedArchive(name) <==>
      exists ext :: |ext| <= |name| && Lower(name)[|name| - |ext|..] == ext && ext in [
        ".tar", ".tar.gz", ".tgz", ".gz", ".zip", ".bz2", ".tar.bz2", ".tbz", ".tbz2", ".xz", ".tar.xz", ".txz",
        ".7z", ".rar", ".whl", ".egg", ".gem", ".nupkg", ".jar", ".war", ".zst", ".tar.zst"]
  {
    if IsNestedArchive(name) {
      var i :| 0 <= i < |NESTED_EXTENSIONS| && HasSuffix(Lower(name), NESTED_EXTENSIONS[i]);
      assert NESTED_EXTENSIONS[i] in NESTED_EXTENSIONS;
    }
    if ext :| |ext| <= |name| && Lower(name)[|name| - |ext|..] == ext && ext in NESTED_EXTENSIONS {
      var i :| 0 <= i < |NESTED_EXTENSIONS| && NESTED_EXTENSIONS[i] == ext;
      assert HasSuffix(Lower(name), NESTED_EXTENSIONS[i]);
    }
  }

  // -------------------------------------------------------------- the walk

  datatype Walked = Walked(count: nat, seen: set<string>, total: int)

  /** 64-bit two's complement addition. */
  function Wrap64(x: int): int
  {
    (x + TWO63) % (2 * TWO63) - TWO63
  }

  /** What is wrong with an entry, in the order the source looks; sizes are added with wrap-around. */
  function EntryError(l: Limits, w: Walked, h: Header): Option<ArchiveError>
  {
    var clean := CleanName(h.name);
    if w.count + 1 > l.maxEntryCount then Some(TooManyEntries)
    else if Traverses(h.name) then Some(PathTraversal)
    else if CountNamed(Split(clean, '/')) > l.maxNestingDepth then Some(DepthExceeded)
    else if clean in w.seen then Some(DuplicateEntry)
    else if h.kind == Symlink && LinkEscapes(clean, h.linkname) then Some(SymlinkEscape)
    else if h.kind == Hardlink && LinkEscapes(clean, h.linkname) then Some(HardlinkEscape)
    else if h.size > l.maxFileBytes then Some(EntryTooLarge)
    else if Wrap64(w.total + h.size) > l.maxExtractedBytes then Some(Bomb)
    else if h.kind == Regular && IsNestedArchive(Base(clean)) then Some(NestedArchive)
    else None
  }

  function WalkEntry(w: Walked, h: Header): Walked
  {
    Walked(w.count + 1, w.seen + {CleanName(h.name)}, Wrap64(w.total + h.size))
  }

  /** The walk over all entries: stops at the first error. */
  function Walk(l: Limits, hs: seq<Header>): Result<Walked, ArchiveError>
  {
    if hs == [] then Ok(Walked(0, {}, 0)) else
      var before := Walk(l, hs[..|hs| - 1]);
      if before.Err? then before else
        var e := EntryError(l, before.value, hs[|hs| - 1]);
        if e.Some? then Err(e.value) else Ok(WalkEntry(before.value, hs[|hs| - 1]))
  }

  lemma {:induction false} ErrorSticks(l: Limits, hs: seq<Header>, n: nat)
    requires n <= |hs| && Walk(l, hs[..n]).Err?
    ensures Walk(l, hs) == Walk(l, hs[..n])
    decreases |hs|
  {
    hide EntryError;
    if n == |hs| {
      assert hs[..n] == hs;
    } else {
      assert hs[..|hs| - 1][..n] == hs[..n];
      ErrorSticks(l, hs[..|hs| - 1], n);
    }
  }

  /** The checks on one entry, in the order of the source. */
  method CheckEntry(l: Limits, entryCount: nat, seenPaths: set<string>, totalExtracted: int, h: Header) returns (e: Option<ArchiveError>)
    ensures e == EntryError(l, Walked(entryCount, seenPaths, totalExtracted), h)
  {
    hide Traverses, LinkEscapes, IsNestedArchive, CountNamed, CleanName, Wrap64, Base, Split;
    if entryCount + 1 > l.maxEntryCount { return Some(TooManyEntries); }
    var cleanName := CleanName(h.name);
    if Traverses(h.name) { return Some(PathTraversal); }
    var depth := PathDepth(cleanName);
    if depth > l.maxNestingDepth { return Some(DepthExceeded); }
    if cleanName in seenPaths { return Some(DuplicateEntry); }
    if h.kind == Symlink && LinkEscapes(cleanName, h.linkname) { return Some(SymlinkEscape); }
    if h.kind == Hardlink && LinkEscapes(cleanName, h.linkname) { return Some(HardlinkEscape); }
    if h.size > l.maxFileBytes { return Some(EntryTooLarge); }
    if Wrap64(totalExtracted + h.size) > l.maxExtractedBytes { return Some(Bomb); }
    if h.kind == Regular && IsNestedArchive(Base(cleanName)) { return Some(NestedArchive); }
    return None;
  }

  method InspectEntries(l: Limits, hs: seq<Header>) returns (r: Result<Walked, ArchiveError>)
    ensures r == Walk(l, hs)
  {
    hide EntryError, CleanName, Wrap64;
    var entryCount, seenPaths, totalExtracted := 0, {}, 0;
    for i := 0 to |hs|
      invariant Walk(l, hs[..i]) == Ok(Walked(entryCount, seenPaths, totalExtracted))
    {
      var h := hs[i];
      assert hs[..i + 1][..i] == hs[..i];
      var e := CheckEntry(l, entryCount, seenPaths, totalExtracted, h);
      if e.Some? {
        ErrorSticks(l, hs, i + 1);
        return Err(e.value);
      }
      entryCount := entryCount + 1;
      seenPaths := seenPaths + {CleanName(h.name)};
      totalExtracted := Wrap64(totalExtracted + h.size);
    }
    assert hs[..|hs|] == hs;
    r := Ok(Walked(entryCount, seenPaths, totalExtracted));
  }

  // ------------------------------------------------------ accepted archives

  /** The path elements under which an entry will be placed. */
  function Place(h: Header): seq<string>
  {
    Elements(Slashed(h.name))
  }

  /** What the walk has checked of one entry. */
  ghost predicate Checked(l: Limits, h: Header)
  {
    && !Traverses(h.name) && CountNamed(Split(CleanName(h.name), '/')) <= l.maxNestingDepth
    && (h.kind == Symlink || h.kind == Hardlink ==> !LinkEscapes(CleanName(h.name), h.linkname))
    && h.size <= l.maxFileBytes
  }

  /** Which error an entry gives: the first of the checks it fails, in this order. */
  lemma EntryErrorIs(l: Limits, w: Walked, h: Header)
    ensures var e, clean := EntryError(l, w, h), CleanName(h.name);
      var counted := w.count < l.maxEntryCount;
      var placed := counted && !FromRoot(h.name) && ".." !in Split(Slashed(h.name), '/');
      var shallow := placed && |Place(h)| <= l.maxNestingDepth;
      var unique := shallow && clean !in w.seen;
      var leadsOut := FromRoot(h.linkname) || GoesUp(h.linkname);
      var linked := unique && !((h.kind == Symlink || h.kind == Hardlink) && leadsOut);
      var small := linked && h.size <= l.maxFileBytes;
      var fits := small && Wrap64(w.total + h.size) <= l.maxExtractedBytes;
      && (!counted ==> e == Some(TooManyEntries))
      && (counted && !placed ==> e == Some(PathTraversal))
      && (placed && !shallow ==> e == Some(DepthExceeded))
      && (shallow && !unique ==> e == Some(DuplicateEntry))
      && (unique && !linked ==> e == Some(if h.kind == Symlink then SymlinkEscape else HardlinkEscape))
      && (linked && !small ==> e == Some(EntryTooLarge))
      && (small && !fits ==> e == Some(Bomb))
      && (fits && IsNested(h) ==> e == Some(NestedArchive))
      && (fits && !IsNested(h) ==> e == None)
  {
    hide FromRoot, GoesUp, Split, Elements, CountNamed, LinkEscapes, Traverses, IsNestedArchive, Wrap64, Base, CleanName;
    TraversesIff(h.name);
    if !Traverses(h.name) {
      DepthIsElements(h.name);
      LinkEscapesIff(Place(h), h.linkname);
    }
  }

  /** The error of the walk is that of the first entry that fails, after all before it were let through. */
  lemma {:induction false} WalkErrorIff(l: Limits, hs: seq<Header>, e: ArchiveError)
    ensures Walk(l, hs) == Err(e) <==>
      exists n :: 0 <= n < |hs| && Walk(l, hs[..n]).Ok? && EntryError(l, Walk(l, hs[..n]).value, hs[n]) == Some(e)
  {
    hide EntryError;
    if n :| 0 <= n < |hs| && Walk(l, hs[..n]).Ok? && EntryError(l, Walk(l, hs[..n]).value, hs[n]) == Some(e) {
      assert hs[..n + 1][..n] == hs[..n];
      ErrorSticks(l, hs, n + 1);
    }
    if Walk(l, hs) == Err(e) {
      var before := hs[..|hs| - 1];
      if Walk(l, before).Err? {
        WalkErrorIff(l, before, e);
        var n :| 0 <= n < |before| && Walk(l, before[..n]).Ok? && EntryError(l, Walk(l, before[..n]).value, before[n]) == Some(e);
        assert before[..n] == hs[..n] && before[n] == hs[n];
      }
    }
  }

  lemma WalkStep(l: Limits, hs: seq<Header>)
    requires hs != [] && Walk(l, hs).Ok?
    ensures var before, last := Walk(l, hs[..|hs| - 1]), hs[|hs| - 1];
      before.Ok? && EntryError(l, before.value, last).None? && Walk(l, hs) == Ok(WalkEntry(before.value, last))
  {
    hide EntryError, WalkEntry;
  }

  // What the walk accepts, said of the whole archive.

  /** A path that starts at a root: with a slash, a backslash, or something like a drive letter. */
  predicate FromRoot(path: string)
  {
    || (path != "" && path[0] in {'/', '\\'})
    || (var e := Elements(Slashed(path)); e != [] && |e[0]| >= 2 && e[0][1] == ':')
  }

  /** The path goes up from where it starts. */
  predicate GoesUp(path: string)
  {
    var e := Elements(Slashed(path)); e != [] && e[0] == ".."
  }

  /** An entry that lies below the root and not too deep, leads nowhere else if it is a link, and is not too large. */
  predicate Inside(l: Limits, h: Header)
  {
    && !FromRoot(h.name) && ".." !in Split(Slashed(h.name), '/') && |Place(h)| <= l.maxNestingDepth
    && (h.kind == Symlink || h.kind == Hardlink ==> !FromRoot(h.linkname) && !GoesUp(h.linkname))
    && h.size <= l.maxFileBytes
  }

  lemma RootedClean(path: string)
    ensures Rooted(Slashed(path)) <==> path != "" && path[0] in {'/', '\\'}
    ensures Rooted(Clean(Slashed(path))) <==> Rooted(Slashed(path))
  {
    hide Elements;
    if !Rooted(Slashed(path)) {
      CleanedText(Slashed(path));
    }
  }

  lemma AbsoluteIff(path: string)
    ensures Absolute(CleanName(path), path) <==> FromRoot(path)
  {
    hide Elements, Clean;
    RootedClean(path);
    if !Rooted(Slashed(path)) {
      SecondCharacter(Slashed(path), ':');
    }
  }

  /** A name is refused exactly when it starts at a root or has a parent element anywhere. */
  lemma TraversesIff(path: string)
    ensures Traverses(path) <==> FromRoot(path) || ".." in Split(Slashed(path), '/')
  {
    hide FromRoot, Absolute, Split;
    var s := Slashed(path);
    AbsoluteIff(path);
    if !FromRoot(path) && ".." !in Split(s, '/') {
      NotRooted(path);
      NoParentFromNone([], Split(s, '/'), false);
      EscapesByElements(s);
    }
  }

  lemma NotRooted(path: string)
    requires !FromRoot(path)
    ensures !Rooted(Slashed(path))
  {
    hide Elements;
    RootedClean(path);
  }

  /** The named parts of a cleaned path are its elements. */
  lemma DepthIsElements(path: string)
    requires !Traverses(path)
    ensures CountNamed(Split(CleanName(path), '/')) == |Elements(Slashed(path))| && AllPlain(Elements(Slashed(path)))
    ensures CleanName(path) == Render(Elements(Slashed(path)), false)
  {
    hide Split, CountNamed, Elements;
    var s := Slashed(path);
    SlashedRoot(path);
    EscapesByElements(s);
    ElementsArePlain(s);
    CleanedText(s);
    CountPlain(Elements(s));
    if Elements(s) == [] {
      OnlyDot();
    }
  }

  lemma OnlyDot()
    ensures CountNamed(Split(".", '/')) == 0
  {
    SplitWhole(".");
    assert CountNamed(["."][..0]) == 0;
  }

  /** A link in a place below the root is refused exactly when its target starts at a root or goes up. */
  lemma LinkEscapesIff(e: seq<string>, link: string)
    requires AllPlain(e)
    ensures LinkEscapes(Render(e, false), link) <==> FromRoot(link) || GoesUp(link)
  {
    hide FromRoot, Absolute, Elements, Render, JoinPath, Dir;
    AbsoluteIff(link);
    if !FromRoot(link) {
      NotRooted(link);
      EscapesByElements(Slashed(link));
      if !GoesUp(link) {
        TargetStaysInside(e, link);
      }
    }
  }

  lemma TargetStaysInside(e: seq<string>, link: string)
    requires AllPlain(e) && !Rooted(Slashed(link)) && !GoesUp(link)
    ensures !Escapes(Resolved(Render(e, false), link))
  {
    hide Split, Elements, LastSlash, Escapes;
    var s := Slashed(link);
    var dir, target := Dir(Render(e, false)), Clean(s);
    ElementsArePlain(s);
    CleanedText(s);
    DirElements(e);
    JoinedElements(dir, Parent(e), target, Elements(s));
    var x := JoinPath(dir, target);
    JoinedRelative(dir, target);
    CleanedText(x);
    PlainIsInside(Parent(e) + Elements(s));
  }

  lemma JoinedRelative(dir: string, target: string)
    requires !Rooted(dir) && dir != ""
    ensures !Rooted(JoinPath(dir, target))
  {
    hide Elements;
    CleanedText(dir + "/" + target);
  }

  /** The checks of the walk on one entry come down to this. */
  lemma CheckedIff(l: Limits, h: Header)
    ensures Checked(l, h) <==> Inside(l, h)
  {
    hide FromRoot, GoesUp, Split, Elements, CountNamed, LinkEscapes, Traverses;
    TraversesIff(h.name);
    if !Traverses(h.name) {
      DepthIsElements(h.name);
      LinkEscapesIff(Place(h), h.linkname);
    }
  }

  /** The 64-bit total of all sizes. */
  function RunningTotal(hs: seq<Header>): int
  {
    if hs == [] then 0 else Wrap64(RunningTotal(hs[..|hs| - 1]) + hs[|hs| - 1].size)
  }

  predicate IsNested(h: Header)
  {
    h.kind == Regular && IsNestedArchive(Base(CleanName(h.name)))
  }

  ghost predicate Distinct(hs: seq<Header>)
  {
    forall i, j :: 0 <= i < j < |hs| ==> CleanName(hs[i].name) != CleanName(hs[j].name)
  }

  ghost predicate Acceptable(l: Limits, hs: seq<Header>)
  {
    && |hs| <= l.maxEntryCount && Distinct(hs)
    && (forall i :: 0 <= i < |hs| ==> Inside(l, hs[i]) && !IsNested(hs[i]))
    && (forall n :: 0 < n <= |hs| ==> RunningTotal(hs[..n]) <= l.maxExtractedBytes)
  }

  lemma EntryOkIff(l: Limits, w: Walked, h: Header)
    ensures EntryError(l, w, h).None? <==>
      && w.count + 1 <= l.maxEntryCount && CleanName(h.name) !in w.seen && Inside(l, h) && !IsNested(h)
      && Wrap64(w.total + h.size) <= l.maxExtractedBytes
  {
    hide Traverses, LinkEscapes, IsNestedArchive, CountNamed, CleanName, Wrap64, Base, Split, Inside;
    CheckedIff(l, h);
  }

  lemma AcceptableStep(l: Limits, hs: seq<Header>)
    requires hs != []
    ensures var before, last := hs[..|hs| - 1], hs[|hs| - 1];
      Acceptable(l, hs) <==>
      && Acceptable(l, before) && |hs| <= l.maxEntryCount && Inside(l, last) && !IsNested(last)
      && (forall i :: 0 <= i < |before| ==> CleanName(before[i].name) != CleanName(last.name))
      && RunningTotal(hs) <= l.maxExtractedBytes
  {
    hide Inside, IsNested, CleanName, RunningTotal;
    var before, last := hs[..|hs| - 1], hs[|hs| - 1];
    assert hs[..|hs|] == hs;
    forall n | 0 < n < |hs| ensures hs[..n] == before[..n] {}
    forall i | 0 <= i < |before| ensures before[i] == hs[i] {}
    if Acceptable(l, hs) {
      forall n | 0 < n <= |before| ensures RunningTotal(before[..n]) <= l.maxExtractedBytes {
        assert before[..n] == hs[..n];
      }
    }
  }

  /** The walk accepts an archive exactly when it is acceptable as a whole, and then its counters say so. */
  lemma {:induction false} AcceptedIff(l: Limits, hs: seq<Header>)
    requires ValidLimits(l)
    ensures Walk(l, hs).Ok? <==> Acceptable(l, hs)
    ensures Walk(l, hs).Ok? ==> var w := Walk(l, hs).value;
      w.count == |hs| && w.total == RunningTotal(hs) && forall x :: x in w.seen <==> exists i :: 0 <= i < |hs| && CleanName(hs[i].name) == x
  {
    hide EntryError, Inside, CleanName, IsNested, Wrap64, Acceptable;
    if hs == [] {
      EmptyIsAcceptable(l);
    } else {
      var before, last := hs[..|hs| - 1], hs[|hs| - 1];
      AcceptedIff(l, before);
      AcceptableStep(l, hs);
      if Walk(l, before).Ok? {
        EntryOkIff(l, Walk(l, before).value, last);
        forall i | 0 <= i < |before| ensures before[i] == hs[i] {}
      }
    }
  }

  lemma EmptyIsAcceptable(l: Limits)
    requires ValidLimits(l)
    ensures Acceptable(l, [])
  {
  }

  lemma SlashedRoot(s: string)
    requires !Rooted(Clean(Slashed(s)))
    ensures !Rooted(Slashed(s))
  {
  }

  lemma {:induction false} CountPlain(parts: seq<string>)
    requires AllPlain(parts)
    ensures CountNamed(parts) == |parts|
  {
    if parts != [] {
      CountPlain(parts[..|parts| - 1]);
    }
  }

  /** An entry the walk lets through lies below the root, at most as deep as allowed. */
  lemma CheckedIsInside(l: Limits, h: Header)
    requires Inside(l, h)
    ensures !Rooted(CleanName(h.name)) && !Escapes(CleanName(h.name))
    ensures AllPlain(Place(h)) && |Place(h)| <= l.maxNestingDepth
    ensures CleanName(h.name) == Render(Place(h), false)
    ensures h.kind == Symlink ==> !LinkEscapes(CleanName(h.name), h.linkname)
  {
    hide Split, CountNamed, Elements, LinkEscapes;
    CheckedIff(l, h);
    DepthIsElements(h.name);
  }

  // ------------------------------------------------------------------- sizes

  /** What the entries unpack to: the sizes of those that have data. */
  function DataSize(hs: seq<Header>): nat
  {
    if hs == [] then 0 else DataSize(hs[..|hs| - 1]) + if HasData(hs[|hs| - 1]) then hs[|hs| - 1].size else 0
  }

  /** The sum of all the sizes the headers claim. */
  function ClaimedSize(hs: seq<Header>): int
  {
    if hs == [] then 0 else ClaimedSize(hs[..|hs| - 1]) + hs[|hs| - 1].size
  }

  ghost predicate NoneNegative(hs: seq<Header>)
  {
    forall i :: 0 <= i < |hs| ==> hs[i].size >= 0
  }

  lemma WrapSmall(x: int)
    requires -TWO63 <= x < TWO63
    ensures Wrap64(x) == x
  {
  }

  lemma WrapLarge(x: int)
    requires TWO63 <= x < 2 * TWO63
    ensures Wrap64(x) < 0
  {
  }

  lemma {:induction false} DataIsClaimed(hs: seq<Header>)
    requires NoneNegative(hs)
    ensures DataSize(hs) <= ClaimedSize(hs)
  {
    if hs != [] {
      DataIsClaimed(hs[..|hs| - 1]);
    }
  }

  lemma {:induction false} SmallTotalIsExact(l: Limits, hs: seq<Header>)
    requires ValidLimits(l) && Walk(l, hs).Ok? && NoneNegative(hs) && ClaimedSize(hs) < TWO63
    ensures 0 <= Walk(l, hs).value.total == ClaimedSize(hs) <= l.maxExtractedBytes
  {
    hide EntryError, Inside, IsNested, CleanName, Wrap64;
    if hs != [] {
      var before, last := hs[..|hs| - 1], hs[|hs| - 1];
      assert NoneNegative(before) && last.size >= 0;
      WalkStep(l, hs);
      SmallTotalIsExact(l, before);
      EntryOkIff(l, Walk(l, before).value, last);
      WrapSmall(ClaimedSize(hs));
    }
  }

  /** An accepted archive with no negative size claims no more than the limit exactly when its sizes add up to less than 2^63. */
  lemma HonestSizesIff(l: Limits, hs: seq<Header>)
    requires ValidLimits(l) && Walk(l, hs).Ok?
    ensures NoneNegative(hs) ==> (ClaimedSize(hs) <= l.maxExtractedBytes <==> ClaimedSize(hs) < TWO63)
    ensures NoneNegative(hs) && ClaimedSize(hs) < TWO63 ==> DataSize(hs) <= l.maxExtractedBytes
  {
    hide Walk;
    if NoneNegative(hs) && ClaimedSize(hs) < TWO63 {
      SmallTotalIsExact(l, hs);
      DataIsClaimed(hs);
    }
  }

  // ------------------------------------------------- when the limit always binds

  /** Limits under which non-negative sizes cannot push the running total past 2^63. */
  predicate NoOverflow(l: Limits)
  {
    l.maxExtractedBytes + l.maxFileBytes < TWO63 || l.maxEntryCount * l.maxFileBytes < TWO63
  }

  /** Limits under which the files that fit beside one entry without data are within the limit anyway. */
  predicate NoSlack(l: Limits)
  {
    (l.maxEntryCount - 1) * l.maxFileBytes <= l.maxExtractedBytes
  }

  lemma {:induction false} LimitsPreventOverflow(l: Limits, hs: seq<Header>)
    requires ValidLimits(l) && l.maxExtractedBytes + l.maxFileBytes < TWO63 && Walk(l, hs).Ok? && NoneNegative(hs)
    ensures ClaimedSize(hs) < TWO63
  {
    hide EntryError, Walk, FromRoot, GoesUp, IsNested, Wrap64, CleanName;
    if hs != [] {
      var before, last := hs[..|hs| - 1], hs[|hs| - 1];
      assert NoneNegative(before);
      WalkStep(l, hs);
      LimitsPreventOverflow(l, before);
      SmallTotalIsExact(l, before);
      EntryOkIff(l, Walk(l, before).value, last);
    }
  }

  lemma {:induction false} ClaimedByCount(hs: seq<Header>, most: nat)
    requires forall i :: 0 <= i < |hs| ==> hs[i].size <= most
    ensures ClaimedSize(hs) <= |hs| * most
  {
    if hs != [] {
      ClaimedByCount(hs[..|hs| - 1], most);
      assert |hs| * most == (|hs| - 1) * most + most;
    }
  }

  /** Entries without data leave that much less room for data. */
  lemma {:induction false} DataByCount(hs: seq<Header>, most: nat)
    requires forall i :: 0 <= i < |hs| ==> hs[i].size <= most
    ensures DataSize(hs) <= |hs| * most
    ensures (exists i :: 0 <= i < |hs| && !HasData(hs[i])) ==> DataSize(hs) <= (|hs| - 1) * most
  {
    if hs != [] {
      var before, last := hs[..|hs| - 1], hs[|hs| - 1];
      DataByCount(before, most);
      assert |hs| * most == (|hs| - 1) * most + most;
      if (exists i :: 0 <= i < |hs| && !HasData(hs[i])) && HasData(last) {
        var i :| 0 <= i < |hs| && !HasData(hs[i]);
        assert before[i] == hs[i];
        assert (|before| - 1) * most + most == (|hs| - 1) * most;
      }
    }
  }

  lemma ProductMonotone(a: nat, b: nat, c: nat)
    requires a <= b
    ensures a * c <= b * c
  {
    assert b * c == a * c + (b - a) * c;
  }

  /** With an entry that has no data, only the number of the others bounds what they unpack to. */
  lemma SlackBounds(l: Limits, hs: seq<Header>, i: nat)
    requires ValidLimits(l) && NoSlack(l) && Walk(l, hs).Ok? && i < |hs| && !HasData(hs[i])
    ensures DataSize(hs) <= l.maxExtractedBytes
  {
    hide Walk, FromRoot, GoesUp, IsNested, CleanName, Distinct, RunningTotal;
    AcceptedIff(l, hs);
    DataByCount(hs, l.maxFileBytes);
    ProductMonotone(|hs| - 1, l.maxEntryCount - 1, l.maxFileBytes);
  }

  /** With data in every entry, no size is negative. */
  lemma AllDataBounds(l: Limits, hs: seq<Header>)
    requires ValidLimits(l) && NoOverflow(l) && Walk(l, hs).Ok? && forall i :: 0 <= i < |hs| ==> HasData(hs[i])
    ensures DataSize(hs) <= l.maxExtractedBytes
  {
    hide Walk, FromRoot, GoesUp, IsNested, CleanName, Distinct, RunningTotal;
    assert NoneNegative(hs) by {
      forall i | 0 <= i < |hs| ensures hs[i].size >= 0 {
        assert HasData(hs[i]);
      }
    }
    if l.maxExtractedBytes + l.maxFileBytes < TWO63 {
      LimitsPreventOverflow(l, hs);
    } else {
      AcceptedIff(l, hs);
      ClaimedByCount(hs, l.maxFileBytes);
      ProductMonotone(|hs|, l.maxEntryCount, l.maxFileBytes);
    }
    SmallTotalIsExact(l, hs);
    DataIsClaimed(hs);
  }

  // ------------------------------------------------ archives that use the limits up

  /** Names "a", "aa", "aaa", ... of entries that pass every check but those on sizes. */
  function Name(n: nat): (s: string)
    ensures |s| == n + 1 && forall i :: 0 <= i < |s| ==> s[i] == 'a'
  {
    seq(n + 1, i => 'a')
  }

  function Least(a: int, b: int): int
  {
    if a <= b then a else b
  }

  lemma NameIsClean(n: nat)
    ensures CleanName(Name(n)) == Name(n) && !Traverses(Name(n)) && CountNamed(Split(CleanName(Name(n)), '/')) == 1
  {
    hide Split;
    var s := Name(n);
    assert Slashed(s) == s;
    SplitWhole(s);
    assert s != "." && s != ".." && s != "" by { assert s[0] == 'a'; }
    assert PushAll([], [s], false) == PushAll([s], [], false) == [s];
    assert Elements(s) == [s];
    CountPlain([s]);
  }

  predicate Fits(kind: Kind, size: Int64)
  {
    kind == HeaderOnly || (kind == OtherData && size >= 0)
  }

  function Filler(n: nat, kind: Kind, size: Int64): Header
    requires Fits(kind, size)
  {
    Header(Name(n), kind, "", size)
  }

  /** One more filler entry is let through when its size and the wrapped total are within limits. */
  lemma FillerAccepted(l: Limits, w: Walked, n: nat, kind: Kind, size: Int64)
    requires ValidLimits(l) && w.count < l.maxEntryCount && Name(n) !in w.seen && Fits(kind, size)
    requires size <= l.maxFileBytes && Wrap64(w.total + size) <= l.maxExtractedBytes
    ensures EntryError(l, w, Filler(n, kind, size)).None?
  {
    hide Traverses, CountNamed, Split, CleanName, Wrap64, LinkEscapes, IsNestedArchive, Base;
    NameIsClean(n);
  }

  /** Accepted so far, with the running total `total`, room for one more entry and its name still free. */
  ghost predicate Filled(l: Limits, hs: seq<Header>, total: int)
  {
    && Walk(l, hs).Ok?
    && var w := Walk(l, hs).value;
       w.count == |hs| && w.total == total && forall x :: x in w.seen ==> |x| <= |hs|
  }

  lemma Extend(l: Limits, before: seq<Header>, total: int, kind: Kind, size: Int64) returns (hs: seq<Header>)
    requires ValidLimits(l) && Filled(l, before, total) && |before| < l.maxEntryCount && Fits(kind, size)
    requires size <= l.maxFileBytes && Wrap64(total + size) <= l.maxExtractedBytes
    ensures |hs| == |before| + 1 && Filled(l, hs, Wrap64(total + size))
    ensures DataSize(hs) == DataSize(before) + if kind == OtherData then size else 0
  {
    hide EntryError, CleanName, Wrap64;
    var h := Filler(|before|, kind, size);
    hs := before + [h];
    assert hs[..|before|] == before;
    FillerAccepted(l, Walk(l, before).value, |before|, kind, size);
    NameIsClean(|before|);
  }

  lemma LeastStep(n: int, f: int, e: int)
    requires f >= 0
    ensures Least(e, n * f) == Least(e, (n - 1) * f) + Least(f, e - Least(e, (n - 1) * f))
  {
    assert n * f == (n - 1) * f + f;
  }

  /** `n` entries with data that use up as much of the limit as they can. */
  ghost predicate FilledTo(l: Limits, hs: seq<Header>, n: nat)
  {
    |hs| == n && DataSize(hs) == Least(l.maxExtractedBytes, n * l.maxFileBytes) && Filled(l, hs, DataSize(hs))
  }

  lemma FillOneMore(l: Limits, before: seq<Header>, n: nat) returns (hs: seq<Header>)
    requires ValidLimits(l) && 0 < n < l.maxEntryCount && FilledTo(l, before, n - 1)
    ensures FilledTo(l, hs, n)
  {
    hide Filled, Wrap64;
    var size := Least(l.maxFileBytes, l.maxExtractedBytes - DataSize(before));
    LeastStep(n, l.maxFileBytes, l.maxExtractedBytes);
    WrapSmall(DataSize(before) + size);
    hs := Extend(l, before, DataSize(before), OtherData, size);
  }

  lemma {:induction false} Fill(l: Limits, n: nat) returns (hs: seq<Header>)
    requires ValidLimits(l) && n < l.maxEntryCount
    ensures FilledTo(l, hs, n)
  {
    hide EntryError, CleanName, Wrap64;
    if n == 0 {
      hs := [];
    } else {
      var before := Fill(l, n - 1);
      hide *;
      hs := FillOneMore(l, before, n);
    }
  }

  /** Limits that do not exclude it let an archive through whose files make the running total wrap around. */
  lemma Overflows(l: Limits) returns (hs: seq<Header>)
    requires ValidLimits(l) && !NoOverflow(l)
    ensures Walk(l, hs).Ok? && DataSize(hs) >= TWO63
  {
    hide Walk;
    var n := l.maxEntryCount - 1;
    var before := Fill(l, n);
    assert l.maxEntryCount * l.maxFileBytes == n * l.maxFileBytes + l.maxFileBytes;
    assert TWO63 <= DataSize(before) + l.maxFileBytes < 2 * TWO63;
    WrapLarge(DataSize(before) + l.maxFileBytes);
    hs := Extend(l, before, DataSize(before), OtherData, l.maxFileBytes);
  }

  lemma DiscountedOneMore(l: Limits, before: seq<Header>, data: nat) returns (hs: seq<Header>)
    requires ValidLimits(l) && Filled(l, before, data - TWO63) && DataSize(before) == data
    requires |before| < l.maxEntryCount && data + l.maxFileBytes <= TWO63 + l.maxExtractedBytes
    ensures |hs| == |before| + 1 && DataSize(hs) == data + l.maxFileBytes
    ensures Filled(l, hs, data + l.maxFileBytes - TWO63)
  {
    hide Filled, Wrap64;
    WrapSmall(data + l.maxFileBytes - TWO63);
    hs := Extend(l, before, data - TWO63, OtherData, l.maxFileBytes);
  }

  /** One entry without data that claims the least possible size, then `n` files of the largest allowed size. */
  lemma {:induction false} Discounted(l: Limits, n: nat) returns (hs: seq<Header>)
    requires ValidLimits(l) && n < l.maxEntryCount && n * l.maxFileBytes <= TWO63 + l.maxExtractedBytes
    ensures |hs| == n + 1 && DataSize(hs) == n * l.maxFileBytes && Filled(l, hs, n * l.maxFileBytes - TWO63)
  {
    hide Filled, DataSize, Walk;
    if n == 0 {
      hs := DiscountEntry(l);
    } else {
      assert n * l.maxFileBytes == (n - 1) * l.maxFileBytes + l.maxFileBytes;
      ProductMonotone(0, n - 1, l.maxFileBytes);
      var before := Discounted(l, n - 1);
      hs := DiscountedOneMore(l, before, (n - 1) * l.maxFileBytes);
    }
  }

  lemma DiscountEntry(l: Limits) returns (hs: seq<Header>)
    requires ValidLimits(l)
    ensures |hs| == 1 && DataSize(hs) == 0 && Filled(l, hs, -TWO63)
  {
    hide EntryError, CleanName, Wrap64;
    assert Filled(l, [], 0);
    WrapSmall(-TWO63);
    hs := Extend(l, [], 0, HeaderOnly, -TWO63);
  }

  /** The least number of files of the largest size that unpack to more than the limit. */
  lemma FirstBeyond(l: Limits) returns (n: nat)
    requires ValidLimits(l) && !NoSlack(l)
    ensures 0 < n < l.maxEntryCount && l.maxExtractedBytes < n * l.maxFileBytes <= l.maxExtractedBytes + l.maxFileBytes
  {
    n := 1;
    while n * l.maxFileBytes <= l.maxExtractedBytes
      invariant 0 < n < l.maxEntryCount && n * l.maxFileBytes <= l.maxExtractedBytes + l.maxFileBytes
      decreases l.maxEntryCount - n
    {
      assert (n + 1) * l.maxFileBytes == n * l.maxFileBytes + l.maxFileBytes;
      n := n + 1;
    }
  }

  /** Limits that leave that slack let an archive through that unpacks to more than the limit. */
  lemma ExceedsLimit(l: Limits) returns (hs: seq<Header>)
    requires ValidLimits(l) && !NoSlack(l)
    ensures Walk(l, hs).Ok? && DataSize(hs) > l.maxExtractedBytes
  {
    var n := FirstBeyond(l);
    hs := Discounted(l, n);
  }

  /**
   The extraction limit binds every accepted archive exactly when the limits leave no room for the
   64-bit running total to wrap around, nor for files beside an entry whose negative size lowers it.
   */
  lemma SizeLimitBindsIff(l: Limits)
    requires ValidLimits(l)
    ensures (forall hs :: Walk(l, hs).Ok? ==> DataSize(hs) <= l.maxExtractedBytes) <==> NoOverflow(l) && NoSlack(l)
  {
    hide Walk;
    if NoOverflow(l) && NoSlack(l) {
      forall hs | Walk(l, hs).Ok? ensures DataSize(hs) <= l.maxExtractedBytes {
        if i :| 0 <= i < |hs| && !HasData(hs[i]) {
          SlackBounds(l, hs, i);
        } else {
          AllDataBounds(l, hs);
        }
      }
    } else if !NoSlack(l) {
      var hs := ExceedsLimit(l);
    } else {
      var hs := Overflows(l);
    }
  }

  const DEFAULT_LIMITS := Limits(10000, 20 * 1024 * 1024, 250 * 1024 * 1024, 20)

  /** The default limits do not bind: any number of files up to 9999, each of 20 MiB, can be let through. */
  lemma DefaultLimitsDoNotBind(n: nat) returns (hs: seq<Header>)
    requires n <= 9999
    ensures Walk(DEFAULT_LIMITS, hs).Ok? && DataSize(hs) == n * (20 * 1024 * 1024)
  {
    hide Walk;
    hs := Discounted(DEFAULT_LIMITS, n);
  }

  // ------------------------------------------------------------------- links

  /** The elements of the directory an element list lies in. */
  function Parent(e: seq<string>): seq<string>
  {
    if e == [] then [] else e[..|e| - 1]
  }

  lemma {:induction false} LastSlashOfJoin(e: seq<string>)
    requires |e| > 1
    ensures Join(e, "/") == Join(Parent(e), "/") + "/" + e[|e| - 1]
    decreases |e|
  {
    if |e| > 2 {
      LastSlashOfJoin(e[1..]);
      assert Parent(e)[1..] == Parent(e[1..]);
      assert Join(Parent(e), "/") == e[0] + "/" + Join(Parent(e[1..]), "/");
    } else {
      assert e[1..] == [e[1]];
    }
  }

  lemma {:induction false} LastSlashIsUnique(s: string, k: nat)
    requires k < |s| && s[k] == '/' && '/' !in s[k + 1..]
    ensures LastSlash(s) == k
    decreases |s|
  {
    if k < |s| - 1 {
      var init := s[..|s| - 1];
      assert s[k + 1..] == init[k + 1..] + [s[|s| - 1]];
      LastSlashIsUnique(init, k);
    }
  }

  lemma SlashIsLast(head: string, last: string)
    requires '/' !in last
    ensures LastSlash(head + "/" + last) == |head|
  {
    var s := head + "/" + last;
    assert s[|head|] == '/' && s[|head| + 1..] == last;
    LastSlashIsUnique(s, |head|);
  }

  /** The directory part of a cleaned path. */
  lemma DirElements(e: seq<string>)
    requires AllPlain(e)
    ensures !Rooted(Dir(Render(e, false))) && Dir(Render(e, false)) != ""
    ensures Elements(Dir(Render(e, false))) == Parent(e)
  {
    hide Split, LastSlash;
    var c := Render(e, false);
    if |e| <= 1 {
      assert '/' !in c;
      assert c[..LastSlash(c) + 1] == "";
      SplitWhole("");
      assert PushAll([], [""], false) == PushAll([], [], false) == [];
      CleanedText("");
    } else {
      var head := Join(Parent(e), "/");
      LastSlashOfJoin(e);
      SlashIsLast(head, e[|e| - 1]);
      var x := head + "/" + "";
      assert c[..LastSlash(c) + 1] == x;
      SplitConcat(head, "");
      SplitJoin(Parent(e));
      SplitWhole("");
      PushAllConcat([], Parent(e), [""], false);
      PushPlain([], Parent(e), false);
      assert PushAll(Parent(e), [""], false) == PushAll(Parent(e), [], false) == Parent(e);
      FirstOfJoin(Parent(e));
      CleanedText(x);
    }
  }

  /** A link that passed the check leads to a place below the directory it lies in. */
  lemma ResolvedElements(e: seq<string>, linkname: string)
    requires AllPlain(e) && !LinkEscapes(Render(e, false), linkname)
    ensures AllPlain(Elements(Slashed(linkname)))
    ensures Elements(Resolved(Render(e, false), linkname)) == Parent(e) + Elements(Slashed(linkname))
    ensures !Rooted(Resolved(Render(e, false), linkname))
  {
    hide Split, Elements, LastSlash;
    var s := Slashed(linkname);
    var link := Clean(s);
    var dir := Dir(Render(e, false));
    SlashedRoot(linkname);
    EscapesByElements(s);
    ElementsArePlain(s);
    CleanedText(s);
    DirElements(e);
    JoinedElements(dir, Parent(e), link, Elements(s));
  }

  lemma JoinedElements(dir: string, d: seq<string>, link: string, k: seq<string>)
    requires !Rooted(dir) && dir != "" && Elements(dir) == d && !Rooted(link) && Elements(link) == k
    requires AllPlain(d) && AllPlain(k) && link == Render(k, false)
    ensures var r := Clean(JoinPath(dir, link)); !Rooted(r) && Elements(r) == d + k
  {
    hide Split;
    var x := dir + "/" + link;
    SplitConcat(dir, link);
    PushAllConcat([], Split(dir, '/'), Split(link, '/'), false);
    if k == [] {
      SplitWhole(".");
      assert PushAll(d, ["."], false) == PushAll(d, [], false) == d;
    } else {
      SplitJoin(k);
      PushPlain(d, k, false);
    }
    CleanedText(x);
    CleanedText(Clean(x));
  }

  /** The elements a checked link resolves to. */
  function TargetOf(h: Header): seq<string>
  {
    Elements(Resolved(CleanName(h.name), h.linkname))
  }

  /** Replacing a leading symlink of a path by what it resolves to. */
  ghost predicate Follows(hs: seq<Header>, a: seq<string>, b: seq<string>)
  {
    exists i, rest :: 0 <= i < |hs| && hs[i].kind == Symlink && a == Place(hs[i]) + rest && b == TargetOf(hs[i]) + rest
  }

  ghost predicate Chain(hs: seq<Header>, ps: seq<seq<string>>)
  {
    forall i :: 0 <= i < |ps| - 1 ==> Follows(hs, ps[i], ps[i + 1])
  }

  lemma TargetIsPlain(l: Limits, h: Header)
    requires Inside(l, h) && h.kind == Symlink
    ensures AllPlain(TargetOf(h))
  {
    hide Elements, Resolved, LinkEscapes, Traverses, CountNamed, Slashed;
    CheckedIsInside(l, h);
    ResolvedElements(Place(h), h.linkname);
  }

  lemma PlainConcat(a: seq<string>, b: seq<string>, rest: seq<string>)
    requires AllPlain(a + rest) && AllPlain(b)
    ensures AllPlain(b + rest)
  {
    forall j | 0 <= j < |rest| ensures Plain(rest[j]) {
      assert rest[j] == (a + rest)[|a| + j];
    }
  }

  lemma FollowStaysInside(l: Limits, hs: seq<Header>, a: seq<string>, b: seq<string>)
    requires ValidLimits(l) && Walk(l, hs).Ok? && AllPlain(a) && Follows(hs, a, b)
    ensures AllPlain(b)
  {
    hide Walk, AllPlain, Place, TargetOf, Inside;
    AcceptedIff(l, hs);
    var i, rest :| 0 <= i < |hs| && hs[i].kind == Symlink && a == Place(hs[i]) + rest && b == TargetOf(hs[i]) + rest;
    TargetIsPlain(l, hs[i]);
    PlainConcat(Place(hs[i]), TargetOf(hs[i]), rest);
  }

  lemma PlainIsInside(e: seq<string>)
    requires AllPlain(e)
    ensures !Rooted(Render(e, false)) && !Escapes(Render(e, false))
  {
    hide Split;
    if e != [] {
      FirstOfJoin(e);
      SplitJoin(e);
      if Escapes(Join(e, "/")) {
        EscapingText(Join(e, "/"));
      }
    }
  }

  /** Following symlinks of an accepted archive any number of times, also as directories, stays below the root. */
  lemma {:induction false} LinksNeverEscape(l: Limits, hs: seq<Header>, ps: seq<seq<string>>, n: nat)
    requires ValidLimits(l) && Walk(l, hs).Ok? && Chain(hs, ps) && n < |ps| && AllPlain(ps[0])
    ensures AllPlain(ps[n]) && !Rooted(Render(ps[n], false)) && !Escapes(Render(ps[n], false))
  {
    hide Walk, Follows, Escapes, Render;
    if n > 0 {
      LinksNeverEscape(l, hs, ps, n - 1);
      FollowStaysInside(l, hs, ps[n - 1], ps[n]);
    }
    PlainIsInside(ps[n]);
  }

  /**
   Every accepted archive: within the entry count, every entry relative, without parent elements,
   within the depth and file-size limits, and no two entries in one place.
   */
  lemma AcceptedArchive(l: Limits, hs: seq<Header>)
    requires ValidLimits(l) && Walk(l, hs).Ok?
    ensures |hs| <= l.maxEntryCount
    ensures forall i :: 0 <= i < |hs| ==>
      && !Rooted(CleanName(hs[i].name)) && !Escapes(CleanName(hs[i].name))
      && AllPlain(Place(hs[i])) && |Place(hs[i])| <= l.maxNestingDepth && hs[i].size <= l.maxFileBytes
    ensures forall i, j :: 0 <= i < j < |hs| ==> Place(hs[i]) != Place(hs[j])
  {
    hide Walk, Elements, Traverses, LinkEscapes, CountNamed, Escapes;
    AcceptedIff(l, hs);
    forall i | 0 <= i < |hs|
      ensures !Rooted(CleanName(hs[i].name)) && !Escapes(CleanName(hs[i].name)) && CleanName(hs[i].name) == Render(Place(hs[i]), false)
      ensures AllPlain(Place(hs[i])) && |Place(hs[i])| <= l.maxNestingDepth && hs[i].size <= l.maxFileBytes
    {
      CheckedIsInside(l, hs[i]);
    }
  }
}
