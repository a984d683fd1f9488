/** Hexadecimal and base64 (sections 4, 5 and 8 of RFC 4648), as Go decodes and encodes them. */
module Encodings {
  import opened Prelude
  import opened Text

  // -------------------------------------------------------------------- hex

  function HexValue(c: char): (v: int)
    ensures -1 <= v < 16
  {
    if '0' <= c <= '9' then c as int - '0' as int
    else if 'a' <= c <= 'f' then c as int - 'a' as int + 10
    else if 'A' <= c <= 'F' then c as int - 'A' as int + 10
    else -1
  }

  function HexChar(v: int): char
    requires 0 <= v < 16
  {
    if v < 10 then ('0' as int + v) as char else ('a' as int + v - 10) as char
  }

  function HexDecode(s: string): Option<Bytes>
  {
    if s == "" then Some([])
    else if |s| == 1 || HexValue(s[0]) < 0 || HexValue(s[1]) < 0 then None
    else
      var rest := HexDecode(s[2..]);
      if rest.None? then None else Some([16 * HexValue(s[0]) + HexValue(s[1])] + rest.value)
  }

  function HexEncode(b: Bytes): string
  {
    if b == [] then "" else [HexChar(b[0] / 16), HexChar(b[0] % 16)] + HexEncode(b[1..])
  }

  lemma HexCharValue(c: char, v: int)
    requires 0 <= v < 16 && LowerChar(c) == HexChar(v)
    ensures HexValue(c) == v
  {
  }

  lemma {:induction false} HexRoundTrip(s: string, b: Bytes)
    requires Lower(s) == HexEncode(b)
    ensures HexDecode(s) == Some(b)
    ensures |s| == 2 * |b|
    decreases |b|
  {
    if b == [] {
      assert |Lower(s)| == 0;
    } else {
      var e := HexEncode(b[1..]);
      assert |s| == |Lower(s)| == 2 + |e|;
      forall i | 0 <= i < |s| - 2 ensures Lower(s[2..])[i] == e[i] {
        assert Lower(s)[i + 2] == e[i];
      }
      assert Lower(s[2..]) == e;
      HexRoundTrip(s[2..], b[1..]);
      assert LowerChar(s[0]) == Lower(s)[0];
      assert LowerChar(s[1]) == Lower(s)[1];
      HexCharValue(s[0], b[0] / 16);
      HexCharValue(s[1], b[0] % 16);
      assert b == [b[0]] + b[1..];
    }
  }

  lemma {:induction false} HexDecodeDigits(s: string)
    requires HexDecode(s).Some?
    ensures |s| == 2 * |HexDecode(s).value|
    ensures forall i :: 0 <= i < |s| ==> HexValue(s[i]) >= 0
  {
    if s != "" {
      HexDecodeDigits(s[2..]);
      forall i | 2 <= i < |s| ensures HexValue(s[i]) >= 0 {
        assert s[i] == s[2..][i - 2];
      }
    }
  }

  lemma HexValueChar(c: char)
    requires HexValue(c) >= 0
    ensures HexChar(HexValue(c)) == LowerChar(c)
  {
  }

  lemma {:induction false} HexDecodeLowers(s: string)
    requires HexDecode(s).Some?
    ensures Lower(s) == HexEncode(HexDecode(s).value)
  {
    if s != "" {
      HexDecodeLowers(s[2..]);
      HexValueChar(s[0]);
      HexValueChar(s[1]);
      var b := HexDecode(s).value;
      assert b[0] / 16 == HexValue(s[0]) && b[0] % 16 == HexValue(s[1]);
      assert b[1..] == HexDecode(s[2..]).value;
      assert Lower(s) == [LowerChar(s[0]), LowerChar(s[1])] + Lower(s[2..]);
    }
  }

  lemma {:induction false} HexEncodeIsLower(b: Bytes)
    ensures Lower(HexEncode(b)) == HexEncode(b)
    ensures |HexEncode(b)| == 2 * |b|
    ensures forall i :: 0 <= i < |HexEncode(b)| ==> HexValue(HexEncode(b)[i]) >= 0
  {
    if b != [] {
      HexEncodeIsLower(b[1..]);
      var e, r := HexEncode(b), HexEncode(b[1..]);
      forall i | 0 <= i < |e| ensures LowerChar(e[i]) == e[i] && HexValue(e[i]) >= 0 {
        if i >= 2 {
          assert e[i] == r[i - 2] == Lower(r)[i - 2];
        }
      }
    }
  }

  // ----------------------------------------------------------------- base64

  /** The two alphabets differ in the last two characters only. */
  function Char64(v: int, url: bool): char
    requires 0 <= v < 64
  {
    if v < 26 then ('A' as int + v) as char
    else if v < 52 then ('a' as int + v - 26) as char
    else if v < 62 then ('0' as int + v - 52) as char
    else if v == 62 then (if url then '-' else '+')
    else (if url then '_' else '/')
  }

  function Value64(c: char, url: bool): (v: int)
    ensures -1 <= v < 64
  {
    if 'A' <= c <= 'Z' then c as int - 'A' as int
    else if 'a' <= c <= 'z' then c as int - 'a' as int + 26
    else if '0' <= c <= '9' then c as int - '0' as int + 52
    else if c == (if url then '-' else '+') then 62
    else if c == (if url then '_' else '/') then 63
    else -1
  }

  predicate Valid64(s: string, url: bool)
  {
    forall i :: 0 <= i < |s| ==> Value64(s[i], url) >= 0
  }

  /** Four characters as the three bytes they carry. */
  function Ungroup(g: string, url: bool): (b: Bytes)
    requires |g| == 4 && Valid64(g, url)
    ensures |b| == 3
  {
    var v0, v1, v2, v3 := Value64(g[0], url), Value64(g[1], url), Value64(g[2], url), Value64(g[3], url);
    [4 * v0 + v1 / 16, 16 * (v1 % 16) + v2 / 4, 64 * (v2 % 4) + v3]
  }

  function Group(b0: Byte, b1: Byte, b2: Byte, url: bool): (g: string)
    ensures |g| == 4
  {
    [Char64(b0 / 4, url), Char64(16 * (b0 % 4) + b1 / 16, url),
     Char64(4 * (b1 % 16) + b2 / 64, url), Char64(b2 % 64, url)]
  }

  /** Decoding skips line breaks, as Go's decoder does. */
  function Unbroken(s: string): string
  {
    if s == "" then ""
    else if s[0] == '\r' || s[0] == '\n' then Unbroken(s[1..])
    else [s[0]] + Unbroken(s[1..])
  }

  /** Padded standard alphabet when `url` is false, unpadded URL-safe alphabet when it is true. */
  function Quanta(s: string, url: bool): Option<Bytes>
  {
    if s == "" then Some([])
    else if |s| >= 4 && Valid64(s[..4], url) then
      var rest := Quanta(s[4..], url);
      if rest.None? then None else
        Some(Ungroup(s[..4], url) + rest.value)
    else
      var t := if url then s
               else if |s| == 4 && s[2..] == "==" then s[..2]
               else if |s| == 4 && s[3] == '=' then s[..3]
               else "";
      if |t| == 2 && Valid64(t + "AA", url) then Some(Ungroup(t + "AA", url)[..1])
      else if |t| == 3 && Valid64(t + "A", url) then Some(Ungroup(t + "A", url)[..2])
      else None
  }

  function Decode64(s: string, url: bool): Option<Bytes>
  {
    Quanta(Unbroken(s), url)
  }

  function Encode64(b: Bytes, url: bool): string
  {
    if b == [] then ""
    else if |b| == 1 then Group(b[0], 0, 0, url)[..2] + (if url then "" else "==")
    else if |b| == 2 then Group(b[0], b[1], 0, url)[..3] + (if url then "" else "=")
    else Group(b[0], b[1], b[2], url) + Encode64(b[3..], url)
  }

  lemma Char64RoundTrip(v: int, url: bool)
    requires 0 <= v < 64
    ensures Value64(Char64(v, url), url) == v
  {
  }

  lemma Recombine(b0: Byte, b1: Byte, b2: Byte, v0: int, v1: int, v2: int, v3: int)
    requires v0 == b0 / 4 && v1 == 16 * (b0 % 4) + b1 / 16 && v2 == 4 * (b1 % 16) + b2 / 64 && v3 == b2 % 64
    ensures 4 * v0 + v1 / 16 == b0
    ensures 16 * (v1 % 16) + v2 / 4 == b1
    ensures 64 * (v2 % 4) + v3 == b2
  {
  }

  lemma UngroupValues(g: string, url: bool, v0: int, v1: int, v2: int, v3: int)
    requires |g| == 4 && 0 <= v0 && 0 <= v1 && 0 <= v2 && 0 <= v3
    requires Value64(g[0], url) == v0 && Value64(g[1], url) == v1
    requires Value64(g[2], url) == v2 && Value64(g[3], url) == v3
    ensures Valid64(g, url)
    ensures Ungroup(g, url) == [4 * v0 + v1 / 16, 16 * (v1 % 16) + v2 / 4, 64 * (v2 % 4) + v3]
  {
  }

  lemma GroupRoundTrip(b0: Byte, b1: Byte, b2: Byte, url: bool)
    ensures Valid64(Group(b0, b1, b2, url), url)
    ensures Ungroup(Group(b0, b1, b2, url), url) == [b0, b1, b2]
  {
    var v0, v1, v2, v3 := b0 / 4, 16 * (b0 % 4) + b1 / 16, 4 * (b1 % 16) + b2 / 64, b2 % 64;
    Char64RoundTrip(v0, url);
    Char64RoundTrip(v1, url);
    Char64RoundTrip(v2, url);
    Char64RoundTrip(v3, url);
    UngroupValues(Group(b0, b1, b2, url), url, v0, v1, v2, v3);
    Recombine(b0, b1, b2, v0, v1, v2, v3);
  }

  lemma {:induction false} UnbrokenIdentity(s: string)
    requires '\r' !in s && '\n' !in s
    ensures Unbroken(s) == s
  {
    if s != "" {
      assert s[0] in s;
      UnbrokenIdentity(s[1..]);
    }
  }

  predicate Encoded64(s: string, url: bool)
  {
    forall i :: 0 <= i < |s| ==> Value64(s[i], url) >= 0 || s[i] == '='
  }

  lemma {:induction false} Encode64Chars(b: Bytes, url: bool)
    ensures Encoded64(Encode64(b, url), url)
    decreases |b|
  {
    if |b| == 1 {
      GroupRoundTrip(b[0], 0, 0, url);
    } else if |b| == 2 {
      GroupRoundTrip(b[0], b[1], 0, url);
    } else if b != [] {
      GroupRoundTrip(b[0], b[1], b[2], url);
      Encode64Chars(b[3..], url);
    }
  }

  function Length64(n: nat, url: bool): nat
  {
    if url then (4 * n + 2) / 3 else (n + 2) / 3 * 4
  }

  lemma Length64Step(n: nat, url: bool)
    requires n >= 3
    ensures Length64(n, url) == 4 + Length64(n - 3, url)
  {
  }

  lemma {:induction false} Encode64Length(b: Bytes, url: bool)
    ensures |Encode64(b, url)| == Length64(|b|, url)
    decreases |b|
  {
    if |b| > 2 {
      Encode64Length(b[3..], url);
      Length64Step(|b|, url);
    }
  }

  /** The last, short group of one or two bytes. */
  lemma TailRoundTrip(b: Bytes, url: bool)
    requires 1 <= |b| <= 2
    ensures Quanta(Encode64(b, url), url) == Some(b)
  {
    var e := Encode64(b, url);
    var g := Group(b[0], if |b| == 2 then b[1] else 0, 0, url);
    GroupRoundTrip(b[0], if |b| == 2 then b[1] else 0, 0, url);
    assert g[3] == 'A' && (|b| == 1 ==> g[2] == 'A');
    assert |b| == 1 ==> g[..2] + "AA" == g && b == [b[0], 0, 0][..1];
    assert |b| == 2 ==> g[..3] + "A" == g && b == [b[0], b[1], 0][..2];
    if url {
      assert e == g[..|b| + 1];
    } else {
      assert |e| == 4 && e[..4][3] == '=' && Value64('=', false) < 0;
      assert |b| == 1 ==> e[2..] == "==" && e[..2] == g[..2];
      assert |b| == 2 ==> e[2..][0] == g[2] && Value64(g[2], false) >= 0 && e[..3] == g[..3];
    }
  }

  lemma {:induction false} QuantaRoundTrip(b: Bytes, url: bool)
    ensures Quanta(Encode64(b, url), url) == Some(b)
    decreases |b|
  {
    if 1 <= |b| <= 2 {
      TailRoundTrip(b, url);
    } else if b != [] {
      var e := Encode64(b, url);
      var g := Group(b[0], b[1], b[2], url);
      GroupRoundTrip(b[0], b[1], b[2], url);
      QuantaRoundTrip(b[3..], url);
      assert e[..4] == g && e[4..] == Encode64(b[3..], url);
      assert b == [b[0], b[1], b[2]] + b[3..];
    }
  }

  /** Decoding gives back the encoded bytes, padded standard or unpadded URL-safe alike. */
  lemma Base64RoundTrip(b: Bytes, url: bool)
    ensures Decode64(Encode64(b, url), url) == Some(b)
  {
    Encode64Chars(b, url);
    UnbrokenIdentity(Encode64(b, url));
    QuantaRoundTrip(b, url);
  }

  /** A text the padded decoder accepts as well is read the same way by it. */
  lemma {:induction false} AlphabetsAgree(s: string)
    requires Quanta(s, false).Some? && Quanta(s, true).Some?
    ensures Quanta(s, false) == Quanta(s, true)
  {
    if s != "" {
      if |s| >= 4 && Valid64(s[..4], false) && Valid64(s[..4], true) {
        AlphabetsAgree(s[4..]);
        forall i | 0 <= i < 4 ensures Value64(s[i], false) == Value64(s[i], true) {
          assert s[i] == s[..4][i];
        }
      }
    }
  }

  lemma {:induction false} DecodedLength(s: string, url: bool)
    requires Valid64(s, url) && Quanta(s, url).Some?
    ensures |Quanta(s, url).value| == 3 * |s| / 4
  {
    if |s| >= 4 {
      DecodedLength(s[4..], url);
    } else if s != "" {
      assert !url ==> false;
    }
  }

  /** A text that is hexadecimal for n > 1 bytes is never base64 for n bytes. */
  lemma HexAndBase64NeverCompete(s: string, url: bool)
    requires HexDecode(s).Some? && |s| > 2
    ensures Decode64(s, url).Some? ==> |Decode64(s, url).value| != |HexDecode(s).value|
  {
    HexDecodeDigits(s);
    forall i | 0 <= i < |s| ensures Value64(s[i], url) >= 0 && s[i] != '\r' && s[i] != '\n' {
      assert HexValue(s[i]) >= 0;
    }
    UnbrokenIdentity(s);
    if Decode64(s, url).Some? {
      DecodedLength(s, url);
    }
  }

  // ---------------------------------------------- the encodings by the standard

  const HEX_DIGITS := "0123456789abcdef"

  /** The alphabets of section 4 and of section 5, in four parts. */
  function Part(k: int, url: bool): (part: string)
    ensures |part| == 16
  {
    if k == 0 then "ABCDEFGHIJKLMNOP"
    else if k == 1 then "QRSTUVWXYZabcdef"
    else if k == 2 then "ghijklmnopqrstuv"
    else if url then "wxyz0123456789-_"
    else "wxyz0123456789+/"
  }

  function Alphabet(url: bool): (alphabet: string)
    ensures |alphabet| == 64
  {
    Part(0, url) + Part(1, url) + Part(2, url) + Part(3, url)
  }

  lemma HexCharIsDigit(v: int)
    requires 0 <= v < 16
    ensures HexChar(v) == HEX_DIGITS[v]
  {
  }

  /** Two digits for each byte, the high one first. */
  lemma {:induction false} HexDigitsOf(b: Bytes, i: nat)
    requires i < |b|
    ensures |HexEncode(b)| == 2 * |b|
    ensures HexEncode(b)[2 * i] == HEX_DIGITS[b[i] / 16] && HexEncode(b)[2 * i + 1] == HEX_DIGITS[b[i] % 16]
  {
    HexEncodeIsLower(b);
    if i == 0 {
      HexCharIsDigit(b[0] / 16);
      HexCharIsDigit(b[0] % 16);
    } else {
      HexDigitsOf(b[1..], i - 1);
    }
  }

  /** Exactly the texts that are the hexadecimal form, in any case, decode to the bytes. */
  lemma HexDecodeIff(s: string, b: Bytes)
    ensures HexDecode(s) == Some(b) <==> Lower(s) == HexEncode(b)
  {
    if HexDecode(s) == Some(b) {
      HexDecodeLowers(s);
    }
    if Lower(s) == HexEncode(b) {
      HexRoundTrip(s, b);
    }
  }

  lemma CharInPart(v: int, url: bool)
    requires 0 <= v < 16
    ensures Char64(v, url) == Part(0, url)[v] && Char64(v + 16, url) == Part(1, url)[v]
    ensures Char64(v + 32, url) == Part(2, url)[v] && Char64(v + 48, url) == Part(3, url)[v]
  {
  }

  lemma CharInAlphabet(v: int, url: bool)
    requires 0 <= v < 64
    ensures Char64(v, url) == Alphabet(url)[v]
  {
    hide Char64, Part;
    CharInPart(if v < 16 then v else if v < 32 then v - 16 else if v < 48 then v - 32 else v - 48, url);
  }

  lemma DivMod64(q: int, r: int)
    requires 0 <= r < 64
    ensures (64 * q + r) / 64 == q && (64 * q + r) % 64 == r
  {
  }

  lemma LastDigit(b0: Byte, b1: Byte, b2: Byte)
    ensures var n := 65536 * b0 + 256 * b1 + b2;
      n % 64 == b2 % 64 && n / 64 == 1024 * b0 + 4 * b1 + b2 / 64
  {
    DivMod64(1024 * b0 + 4 * b1 + b2 / 64, b2 % 64);
  }

  lemma MiddleDigits(b0: Byte, b1: Byte, k: int)
    requires 0 <= k < 4
    ensures var m := 1024 * b0 + 4 * b1 + k;
      && m % 64 == 4 * (b1 % 16) + k && m / 64 == 16 * b0 + b1 / 16
      && m / 64 % 64 == 16 * (b0 % 4) + b1 / 16 && m / 64 / 64 == b0 / 4
  {
    DivMod64(16 * b0 + b1 / 16, 4 * (b1 % 16) + k);
    DivMod64(b0 / 4, 16 * (b0 % 4) + b1 / 16);
  }

  /** The digits of four characters are the base-64 digits of the number the three bytes make. */
  lemma GroupIsPositional(b0: Byte, b1: Byte, b2: Byte, url: bool)
    ensures var g, n := Group(b0, b1, b2, url), 65536 * b0 + 256 * b1 + b2;
      && 0 <= n / 64 / 64 / 64 < 64
      && g[0] == Alphabet(url)[n / 64 / 64 / 64] && g[1] == Alphabet(url)[n / 64 / 64 % 64]
      && g[2] == Alphabet(url)[n / 64 % 64] && g[3] == Alphabet(url)[n % 64]
  {
    hide Char64, Alphabet;
    var n := 65536 * b0 + 256 * b1 + b2;
    LastDigit(b0, b1, b2);
    MiddleDigits(b0, b1, b2 / 64);
    CharInAlphabet(n / 64 / 64 / 64, url);
    CharInAlphabet(n / 64 / 64 % 64, url);
    CharInAlphabet(n / 64 % 64, url);
    CharInAlphabet(n % 64, url);
  }

  /** Three bytes at a time, the last one or two filled up with zeros and, in the standard alphabet, padded. */
  lemma Encode64Unfolds(b: Bytes, url: bool)
    ensures |b| >= 3 ==> Encode64(b, url) == Group(b[0], b[1], b[2], url) + Encode64(b[3..], url)
    ensures |b| == 2 ==> Encode64(b, url) == Group(b[0], b[1], 0, url)[..3] + if url then "" else "="
    ensures |b| == 1 ==> Encode64(b, url) == Group(b[0], 0, 0, url)[..2] + if url then "" else "=="
    ensures |b| == 0 ==> Encode64(b, url) == ""
  {
  }

  lemma Value64OfChar(c: char, url: bool)
    requires Value64(c, url) >= 0
    ensures Char64(Value64(c, url), url) == c
  {
  }

  lemma Resplit(v0: int, v1: int, v2: int, v3: int)
    requires 0 <= v0 < 64 && 0 <= v1 < 64 && 0 <= v2 < 64 && 0 <= v3 < 64
    ensures (4 * v0 + v1 / 16) / 4 == v0 && (4 * v0 + v1 / 16) % 4 == v1 / 16
    ensures (16 * (v1 % 16) + v2 / 4) / 16 == v1 % 16 && (16 * (v1 % 16) + v2 / 4) % 16 == v2 / 4
    ensures (64 * (v2 % 4) + v3) / 64 == v2 % 4 && (64 * (v2 % 4) + v3) % 64 == v3
  {
  }

  /** Every four characters of the alphabet are the encoding of the bytes they decode to. */
  lemma UngroupRoundTrip(g: string, url: bool)
    requires |g| == 4 && Valid64(g, url)
    ensures var b := Ungroup(g, url); Group(b[0], b[1], b[2], url) == g
  {
    hide Char64, Value64;
    Value64OfChar(g[0], url);
    Value64OfChar(g[1], url);
    Value64OfChar(g[2], url);
    Value64OfChar(g[3], url);
    Resplit(Value64(g[0], url), Value64(g[1], url), Value64(g[2], url), Value64(g[3], url));
  }
}
