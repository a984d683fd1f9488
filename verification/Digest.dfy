/**
 Digest strings: W3C Subresource Integrity (section 3.1), prefixed hex and bare hex, and the
 content-addressed key every one of them is normalised to.
 */
module Digest {
  import opened Prelude
  import opened Text
  import opened Encodings

  datatype ParsedDigest = ParsedDigest(algorithm: string, hex: string, sri: string, bytes: Bytes)

  datatype DigestError = InvalidFormat | UnsupportedAlgorithm

  function Key(d: ParsedDigest): string
  {
    d.algorithm + "-" + d.hex
  }

  /** The digest length of a supported algorithm, in bytes. */
  function ByteLen(algo: string): Option<nat>
  {
    if algo == "sha512" then Some(64)
    else if algo == "sha384" then Some(48)
    else if algo == "sha256" then Some(32)
    else if algo == "sha1" then Some(20)
    else None
  }

  function AlgorithmOfLength(n: nat): Option<string>
  {
    if n == 20 then Some("sha1")
    else if n == 32 then Some("sha256")
    else if n == 48 then Some("sha384")
    else if n == 64 then Some("sha512")
    else None
  }

  function ParseDigest(raw: string): Result<ParsedDigest, DigestError>
  {
    var trimmed := TrimSpace(raw);
    if trimmed == "" then Err(InvalidFormat) else
      var dash := IndexOf(trimmed, '-');
      if dash > 0 then ParsePrefixed(Lower(trimmed[..dash]), trimmed[dash + 1..])
      else ParseBareHex(trimmed)
  }

  function ParsePrefixed(algo: string, encoded: string): Result<ParsedDigest, DigestError>
  {
    var expectedLen := ByteLen(algo);
    if expectedLen.None? then Err(UnsupportedAlgorithm) else
      var hexBytes := HexDecode(encoded);
      if hexBytes.Some? && |hexBytes.value| == expectedLen.value then
        Ok(ParsedDigest(algo, Lower(encoded), algo + "-" + Encode64(hexBytes.value, false), hexBytes.value))
      else
        var std := Decode64(encoded, false);
        var rawBytes := if std.Some? then std else Decode64(encoded, true);
        if rawBytes.None? || |rawBytes.value| != expectedLen.value then Err(InvalidFormat)
        else Ok(ParsedDigest(algo, HexEncode(rawBytes.value), algo + "-" + Encode64(rawBytes.value, false), rawBytes.value))
  }

  function ParseBareHex(trimmed: string): Result<ParsedDigest, DigestError>
  {
    var hexBytes := HexDecode(trimmed);
    if hexBytes.None? then Err(InvalidFormat) else
      var algo := AlgorithmOfLength(|hexBytes.value|);
      if algo.None? then Err(InvalidFormat)
      else Ok(ParsedDigest(algo.value, Lower(trimmed), algo.value + "-" + Encode64(hexBytes.value, false), hexBytes.value))
  }

  // ------------------------------------------------------------ what is proved

  /** The one value every spelling of digest `b` under `algo` has to be normalised to. */
  function Canonical(algo: string, b: Bytes): ParsedDigest
  {
    ParsedDigest(algo, HexEncode(b), algo + "-" + Encode64(b, false), b)
  }

  predicate IsDigest(algo: string, b: Bytes)
  {
    ByteLen(algo) == Some(|b|)
  }

  /** SRI base64, unpadded URL-safe base64, prefixed hex or bare hex, letters of the name and the hex in any case. */
  predicate Spells(s: string, algo: string, b: Bytes)
  {
    || Lower(s) == HexEncode(b)
    || (&& |s| > |algo| && Lower(s[..|algo|]) == algo && s[|algo|] == '-'
        && var e := s[|algo| + 1..];
           e == Encode64(b, false) || e == Encode64(b, true) || Lower(e) == HexEncode(b))
  }

  /** Whatever is accepted comes out in canonical form: the key depends on algorithm and bytes only. */
  lemma ParsedIsCanonical(raw: string)
    requires ParseDigest(raw).Ok?
    ensures var d := ParseDigest(raw).value; IsDigest(d.algorithm, d.bytes) && d == Canonical(d.algorithm, d.bytes)
  {
    var trimmed := TrimSpace(raw);
    var dash := IndexOf(trimmed, '-');
    var encoded := if dash > 0 then trimmed[dash + 1..] else trimmed;
    if HexDecode(encoded).Some? {
      HexDecodeLowers(encoded);
    }
  }

  lemma PrefixedHexParses(algo: string, e: string, b: Bytes)
    requires IsDigest(algo, b) && Lower(e) == HexEncode(b)
    ensures ParsePrefixed(algo, e) == Ok(Canonical(algo, b))
  {
    HexRoundTrip(e, b);
  }

  lemma Base64IsNoHexDigest(algo: string, b: Bytes, url: bool)
    requires IsDigest(algo, b)
    ensures var h := HexDecode(Encode64(b, url)); h.Some? ==> |h.value| != |b|
  {
    Encode64Length(b, url);
    if HexDecode(Encode64(b, url)).Some? {
      HexDecodeDigits(Encode64(b, url));
    }
  }

  lemma EitherAlphabetDecodes(b: Bytes, url: bool)
    ensures var std := Decode64(Encode64(b, url), false);
      (if std.Some? then std else Decode64(Encode64(b, url), true)) == Some(b)
  {
    Base64RoundTrip(b, url);
    if url && Decode64(Encode64(b, url), false).Some? {
      AlphabetsAgree(Unbroken(Encode64(b, url)));
    }
  }

  lemma PrefixedBase64Parses(algo: string, b: Bytes, url: bool)
    requires IsDigest(algo, b)
    ensures ParsePrefixed(algo, Encode64(b, url)) == Ok(Canonical(algo, b))
  {
    Base64IsNoHexDigest(algo, b, url);
    EitherAlphabetDecodes(b, url);
  }

  predicate Tight(s: string)
  {
    s != "" && !IsSpace(s[0]) && !IsSpace(s[|s| - 1])
  }

  lemma HexIsTight(e: string, b: Bytes)
    requires b != [] && Lower(e) == HexEncode(b)
    ensures Tight(e)
  {
    HexEncodeIsLower(b);
    assert |e| == |Lower(e)|;
    forall i | 0 <= i < |e| ensures !IsSpace(e[i]) {
      assert LowerChar(e[i]) == Lower(e)[i] == HexEncode(b)[i];
    }
  }

  lemma Base64IsTight(b: Bytes, url: bool)
    requires b != []
    ensures Tight(Encode64(b, url))
  {
    Encode64Chars(b, url);
    Encode64Length(b, url);
    var e := Encode64(b, url);
    forall i | 0 <= i < |e| ensures !IsSpace(e[i]) {
      assert Value64(e[i], url) >= 0 || e[i] == '=';
    }
  }

  lemma SpellingIsTight(s: string, algo: string, b: Bytes)
    requires IsDigest(algo, b) && Spells(s, algo, b)
    ensures Tight(s)
  {
    if Lower(s) == HexEncode(b) {
      HexIsTight(s, b);
    } else {
      var e := s[|algo| + 1..];
      if Lower(e) == HexEncode(b) {
        HexIsTight(e, b);
      } else {
        Base64IsTight(b, e != Encode64(b, false));
      }
      assert LowerChar(s[0]) == Lower(s[..|algo|])[0] == algo[0] == 's';
      assert s[|s| - 1] == e[|e| - 1];
    }
  }

  lemma DashAfterPrefix(s: string, algo: string)
    requires ByteLen(algo).Some? && |s| > |algo| && Lower(s[..|algo|]) == algo && s[|algo|] == '-'
    ensures IndexOf(s, '-') == |algo|
  {
    var i := IndexOf(s, '-');
    assert '-' !in algo;
    forall j | 0 <= j < |algo| ensures s[j] != '-' {
      assert algo[j] == Lower(s[..|algo|])[j] == LowerChar(s[j]);
    }
  }

  lemma BareHexHasNoDash(s: string, b: Bytes)
    requires Lower(s) == HexEncode(b)
    ensures '-' !in s
  {
    HexEncodeIsLower(b);
    forall j | 0 <= j < |s| ensures s[j] != '-' {
      assert Lower(s)[j] == LowerChar(s[j]) == HexEncode(b)[j];
    }
  }

  /** All accepted spellings of one digest, with any white space around, parse to the same value. */
  lemma SpellingsParseAlike(before: string, s: string, after: string, algo: string, b: Bytes)
    requires IsDigest(algo, b) && Spells(s, algo, b) && AllSpace(before) && AllSpace(after)
    ensures ParseDigest(before + s + after) == Ok(Canonical(algo, b))
  {
    SpellingIsTight(s, algo, b);
    TrimSpaceAround(before, s, after);
    if Lower(s) == HexEncode(b) {
      BareHexHasNoDash(s, b);
      HexRoundTrip(s, b);
    } else {
      var e := s[|algo| + 1..];
      DashAfterPrefix(s, algo);
      if Lower(e) == HexEncode(b) {
        PrefixedHexParses(algo, e, b);
      } else {
        PrefixedBase64Parses(algo, b, e != Encode64(b, false));
      }
    }
  }

  lemma CanonicalTextParses(algo: string, b: Bytes, e: string)
    requires IsDigest(algo, b) && (e == Encode64(b, false) || e == HexEncode(b))
    ensures ParseDigest(algo + "-" + e) == Ok(Canonical(algo, b))
  {
    var s := algo + "-" + e;
    HexEncodeIsLower(b);
    assert s[..|algo|] == algo && s[|algo| + 1..] == e && Lower(algo) == algo;
    assert "" + s + "" == s;
    SpellingsParseAlike("", s, "", algo, b);
  }

  /** Parsing the SRI form or the key of a parsed digest gives that digest back. */
  lemma ReparseGivesBack(raw: string)
    requires ParseDigest(raw).Ok?
    ensures var d := ParseDigest(raw).value; ParseDigest(d.sri) == Ok(d) && ParseDigest(Key(d)) == Ok(d)
  {
    ParsedIsCanonical(raw);
    var d := ParseDigest(raw).value;
    CanonicalTextParses(d.algorithm, d.bytes, Encode64(d.bytes, false));
    CanonicalTextParses(d.algorithm, d.bytes, HexEncode(d.bytes));
  }

  /** Distinct digests have distinct keys. */
  lemma KeyInjective(raw1: string, raw2: string)
    requires ParseDigest(raw1).Ok? && ParseDigest(raw2).Ok?
    requires Key(ParseDigest(raw1).value) == Key(ParseDigest(raw2).value)
    ensures ParseDigest(raw1) == ParseDigest(raw2)
  {
    ReparseGivesBack(raw1);
    ReparseGivesBack(raw2);
  }

  /** When the hex reading of a prefixed digest applies, neither base64 reading yields a digest. */
  lemma ReadingsNeverCompete(algo: string, encoded: string, url: bool)
    requires ByteLen(algo).Some? && HexDecode(encoded).Some?
    requires |HexDecode(encoded).value| == ByteLen(algo).value
    ensures Decode64(encoded, url).Some? ==> |Decode64(encoded, url).value| != ByteLen(algo).value
  {
    HexDecodeDigits(encoded);
    HexAndBase64NeverCompete(encoded, url);
  }

  // -------------------------------------------------- what is accepted, and what not

  /** The four algorithms and their digest lengths in bytes. */
  predicate KnownDigest(algo: string, b: Bytes)
  {
    (algo, |b|) in {("sha512", 64), ("sha384", 48), ("sha256", 32), ("sha1", 20)}
  }

  lemma KnownIff(algo: string, b: Bytes)
    ensures KnownDigest(algo, b) <==> IsDigest(algo, b)
    ensures KnownDigest(algo, b) <==> AlgorithmOfLength(|b|) == Some(algo)
  {
  }

  /** Every spelling of a digest of a known algorithm and length is accepted, and comes out canonical. */
  lemma KnownSpellingsParse(before: string, s: string, after: string, algo: string, b: Bytes)
    requires KnownDigest(algo, b) && Spells(s, algo, b) && AllSpace(before) && AllSpace(after)
    ensures ParseDigest(before + s + after) == Ok(Canonical(algo, b))
  {
    KnownIff(algo, b);
    SpellingsParseAlike(before, s, after, algo, b);
  }

  /** The text after a prefix reads as the bytes, in hexadecimal or in one of the base64 alphabets. */
  predicate EncodingReads(e: string, b: Bytes)
  {
    HexDecode(e) == Some(b) || Decode64(e, false) == Some(b) || Decode64(e, true) == Some(b)
  }

  /** Bare hexadecimal, or the name of the algorithm in any case, a dash and an encoding. */
  ghost predicate Reads(t: string, algo: string, b: Bytes)
  {
    || HexDecode(t) == Some(b)
    || exists name, e :: Prefixed(t, name, e) && Lower(name) == algo && EncodingReads(e, b)
  }

  /** The text is a non-empty name without a dash, a dash, and the rest. */
  predicate Prefixed(t: string, name: string, e: string)
  {
    t == name + "-" + e && name != "" && '-' !in name
  }

  lemma PrefixedByDash(t: string, name: string, e: string)
    ensures Prefixed(t, name, e) <==> IndexOf(t, '-') > 0 && name == t[..IndexOf(t, '-')] && e == t[IndexOf(t, '-') + 1..]
  {
    var i := IndexOf(t, '-');
    if i > 0 {
      assert t == t[..i] + "-" + t[i + 1..];
    }
    if Prefixed(t, name, e) {
      assert t[|name|] == '-' && t[..|name|] == name && t[|name| + 1..] == e;
      assert forall j :: 0 <= j < |name| ==> t[j] == name[j];
    }
  }

  lemma PrefixedParse(algo: string, e: string, b: Bytes)
    requires KnownDigest(algo, b)
    ensures EncodingReads(e, b) <==> ParsePrefixed(algo, e) == Ok(Canonical(algo, b))
  {
    KnownIff(algo, b);
    hide Decode64;
    var hex, std, url := HexDecode(e), Decode64(e, false), Decode64(e, true);
    if std.Some? && url.Some? {
      BothAlphabets(e);
    }
    if hex.Some? {
      HexDecodeLowers(e);
      if |hex.value| == |b| {
        ReadingsNeverCompete(algo, e, false);
        ReadingsNeverCompete(algo, e, true);
      }
    }
  }

  lemma BothAlphabets(e: string)
    requires Decode64(e, false).Some? && Decode64(e, true).Some?
    ensures Decode64(e, false) == Decode64(e, true)
  {
    AlphabetsAgree(Unbroken(e));
  }

  lemma PrefixedOkIsKnown(algo: string, e: string)
    requires ParsePrefixed(algo, e).Ok?
    ensures var d := ParsePrefixed(algo, e).value; KnownDigest(algo, d.bytes) && d == Canonical(algo, d.bytes)
  {
    hide Decode64;
    if HexDecode(e).Some? {
      HexDecodeLowers(e);
    }
  }

  lemma BareParse(t: string, algo: string, b: Bytes)
    requires KnownDigest(algo, b)
    ensures HexDecode(t) == Some(b) <==> ParseBareHex(t) == Ok(Canonical(algo, b))
  {
    KnownIff(algo, b);
    if HexDecode(t).Some? {
      HexDecodeLowers(t);
    }
  }

  lemma BareHexNeverPrefixed(t: string)
    requires HexDecode(t).Some?
    ensures '-' !in t
  {
    HexDecodeDigits(t);
  }

  /** Parsing succeeds with `d` exactly when the trimmed text reads as the bytes of a known digest, and `d` is its canonical form. */
  lemma ParsesIff(raw: string, d: ParsedDigest)
    ensures ParseDigest(raw) == Ok(d) <==>
      KnownDigest(d.algorithm, d.bytes) && d == Canonical(d.algorithm, d.bytes) && Reads(TrimSpace(raw), d.algorithm, d.bytes)
  {
    hide ParsePrefixed, ParseBareHex, HexDecode, Decode64, Canonical, KnownDigest;
    var t := TrimSpace(raw);
    var i := IndexOf(t, '-');
    if ParseDigest(raw) == Ok(d) {
      AcceptedReads(raw);
    }
    if KnownDigest(d.algorithm, d.bytes) && d == Canonical(d.algorithm, d.bytes) && Reads(t, d.algorithm, d.bytes) {
      ReadsIsAccepted(raw, d.algorithm, d.bytes);
    }
  }

  lemma AcceptedReads(raw: string)
    requires ParseDigest(raw).Ok?
    ensures var d := ParseDigest(raw).value;
      KnownDigest(d.algorithm, d.bytes) && d == Canonical(d.algorithm, d.bytes) && Reads(TrimSpace(raw), d.algorithm, d.bytes)
  {
    ParsedIsCanonical(raw);
    var t, d := TrimSpace(raw), ParseDigest(raw).value;
    KnownIff(d.algorithm, d.bytes);
    hide HexDecode, Decode64, TrimSpace;
    var i := IndexOf(t, '-');
    if i > 0 {
      var name, e := t[..i], t[i + 1..];
      PrefixedByDash(t, name, e);
      PrefixedOkIsKnown(Lower(name), e);
      PrefixedParse(Lower(name), e, d.bytes);
    } else {
      BareParse(t, d.algorithm, d.bytes);
    }
  }

  lemma ReadsIsAccepted(raw: string, algo: string, b: Bytes)
    requires KnownDigest(algo, b) && Reads(TrimSpace(raw), algo, b)
    ensures ParseDigest(raw) == Ok(Canonical(algo, b))
  {
    var t := TrimSpace(raw);
    if HexDecode(t) == Some(b) {
      BareHexNeverPrefixed(t);
      HexDecodeDigits(t);
      BareParse(t, algo, b);
    } else {
      var name, e :| Prefixed(t, name, e) && Lower(name) == algo && EncodingReads(e, b);
      PrefixedByDash(t, name, e);
      PrefixedParse(algo, e, b);
    }
  }

  /** The algorithm is called unsupported exactly when there is a prefix that is none of the four names. */
  lemma UnsupportedIff(raw: string)
    ensures ParseDigest(raw) == Err(UnsupportedAlgorithm) <==>
      exists name, e :: Prefixed(TrimSpace(raw), name, e) && Lower(name) !in {"sha512", "sha384", "sha256", "sha1"}
  {
    hide HexDecode, Decode64, TrimSpace;
    var t := TrimSpace(raw);
    var i := IndexOf(t, '-');
    if i > 0 {
      PrefixedByDash(t, t[..i], t[i + 1..]);
    }
    forall name, e | Prefixed(t, name, e) ensures i > 0 && name == t[..i] && e == t[i + 1..] {
      PrefixedByDash(t, name, e);
    }
  }
}
