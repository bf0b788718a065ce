/**
  Base64 as section 4 of RFC 4648 defines it (alphabet `A-Z a-z 0-9 + /`, `=`
  padding) for the encoder, and the "forgiving-base64 decode" of the WHATWG
  Infra standard for the decoder, which is what the browser's `atob` runs.
 */
module Base64 {
  import opened Wrappers

  type byte = b: int | 0 <= b < 256
  type sextet = n: int | 0 <= n < 64

  /** Table 1 of RFC 4648: the character for a 6-bit value. */
  function Char(n: sextet): (c: char)
    ensures IsAlphabet(c)
  {
    if n < 26 then ('A' as int + n) as char
    else if n < 52 then ('a' as int + (n - 26)) as char
    else if n < 62 then ('0' as int + (n - 52)) as char
    else if n == 62 then '+'
    else '/'
  }

  predicate IsAlphabet(c: char) {
    'A' <= c <= 'Z' || 'a' <= c <= 'z' || '0' <= c <= '9' || c == '+' || c == '/'
  }

  /** The 6-bit value of an alphabet character. */
  function Value(c: char): sextet
    requires IsAlphabet(c)
  {
    if 'A' <= c <= 'Z' then c as int - 'A' as int
    else if 'a' <= c <= 'z' then c as int - 'a' as int + 26
    else if '0' <= c <= '9' then c as int - '0' as int + 52
    else if c == '+' then 62
    else 63
  }

  lemma ValueOfChar(n: sextet)
    ensures Value(Char(n)) == n
  {
  }

  /** One full group: three bytes as four characters. */
  function EncodeGroup(b0: byte, b1: byte, b2: byte): string {
    [Char(b0 / 4), Char((b0 % 4) * 16 + b1 / 16), Char((b1 % 16) * 4 + b2 / 64), Char(b2 % 64)]
  }

  /** The alphabet characters for `b`: four per full group of three bytes, then three or two for a final partial group. */
  function EncodeChars(b: seq<byte>): (s: string)
    ensures forall i :: 0 <= i < |s| ==> IsAlphabet(s[i])
    ensures |s| % 4 != 1
    ensures |b| > 0 ==> |s| > 0
    decreases |b|
  {
    if |b| == 0 then ""
    else if |b| == 1 then [Char(b[0] / 4), Char((b[0] % 4) * 16)]
    else if |b| == 2 then [Char(b[0] / 4), Char((b[0] % 4) * 16 + b[1] / 16), Char((b[1] % 16) * 4)]
    else EncodeGroup(b[0], b[1], b[2]) + EncodeChars(b[3..])
  }

  /** `=` padding that completes the final group of four characters. */
  function Padding(n: nat): string {
    if n % 3 == 1 then "==" else if n % 3 == 2 then "=" else ""
  }

  /** Base64 encoding with padding (section 4 of RFC 4648). */
  function Encode(b: seq<byte>): string {
    EncodeChars(b) + Padding(|b|)
  }

  lemma {:induction false} EncodeCharsLength(b: seq<byte>)
    ensures |EncodeChars(b)| == 4 * (|b| / 3) + (if |b| % 3 == 0 then 0 else |b| % 3 + 1)
    decreases |b|
  {
    if |b| >= 3 {
      EncodeCharsLength(b[3..]);
      assert |EncodeChars(b)| == 4 + |EncodeChars(b[3..])|;
      assert |b[3..]| == |b| - 3;
    }
  }

  /** Every encoding is a whole number of four-character groups. */
  lemma EncodeLength(b: seq<byte>)
    ensures |Encode(b)| % 4 == 0
  {
    EncodeCharsLength(b);
    var q := |b| / 3;
    assert |Encode(b)| == 4 * q + (if |b| % 3 == 0 then 0 else 4);
    MultipleOfFour(q);
  }

  lemma MultipleOfFour(q: int)
    ensures (4 * q) % 4 == 0 && (4 * q + 4) % 4 == 0
  {
  }

  /** Whitespace that forgiving-base64 decode removes first: TAB, LF, FF, CR, SPACE. */
  predicate IsAsciiWhitespace(c: char) {
    c == '\t' || c == '\n' || c == '\U{000C}' || c == '\r' || c == ' '
  }

  function RemoveWhitespace(s: string): (r: string)
    ensures forall i :: 0 <= i < |s| && !IsAsciiWhitespace(s[i]) ==> s[i] in r
    ensures forall i :: 0 <= i < |r| ==> !IsAsciiWhitespace(r[i])
    decreases |s|
  {
    if s == [] then []
    else (if IsAsciiWhitespace(s[0]) then [] else [s[0]]) + RemoveWhitespace(s[1..])
  }

  /** If the length is a multiple of four, drop one or two trailing `=`. */
  function RemovePadding(s: string): string {
    if |s| % 4 == 0 && |s| >= 2 && s[|s| - 2..] == "==" then s[..|s| - 2]
    else if |s| % 4 == 0 && |s| >= 1 && s[|s| - 1] == '=' then s[..|s| - 1]
    else s
  }

  /** One full group: four characters as three bytes. */
  function DecodeGroup(c0: char, c1: char, c2: char, c3: char): seq<byte>
    requires IsAlphabet(c0) && IsAlphabet(c1) && IsAlphabet(c2) && IsAlphabet(c3)
  {
    [Value(c0) * 4 + Value(c1) / 16, (Value(c1) % 16) * 16 + Value(c2) / 4, (Value(c2) % 4) * 64 + Value(c3)]
  }

  /** The bytes of a run of alphabet characters; a final group of two or three characters yields one or two bytes and its spare bits are dropped. */
  function DecodeChars(s: string): seq<byte>
    requires forall i :: 0 <= i < |s| ==> IsAlphabet(s[i])
    requires |s| % 4 != 1
    decreases |s|
  {
    if |s| == 0 then []
    else if |s| == 2 then [Value(s[0]) * 4 + Value(s[1]) / 16]
    else if |s| == 3 then
      [Value(s[0]) * 4 + Value(s[1]) / 16, (Value(s[1]) % 16) * 16 + Value(s[2]) / 4]
    else DecodeGroup(s[0], s[1], s[2], s[3]) + DecodeChars(s[4..])
  }

  /** `atob`: forgiving-base64 decode; `None` where the browser throws `InvalidCharacterError`. */
  function Atob(s: string): Option<seq<byte>> {
    var t := RemovePadding(RemoveWhitespace(s));
    if |t| % 4 == 1 || exists i :: 0 <= i < |t| && !IsAlphabet(t[i]) then None
    else Some(DecodeChars(t))
  }

  lemma SplitBy16(hi: int, lo: int)
    requires 0 <= lo < 16
    ensures (hi * 16 + lo) / 16 == hi && (hi * 16 + lo) % 16 == lo
  {
  }

  lemma SplitBy4(hi: int, lo: int)
    requires 0 <= lo < 4
    ensures (hi * 4 + lo) / 4 == hi && (hi * 4 + lo) % 4 == lo
  {
  }

  /** The bit arithmetic of one group: regrouping 8-bit values into 6-bit values and back is the identity. */
  lemma GroupArithmetic(b0: byte, b1: byte, b2: byte)
    ensures (b0 / 4) * 4 + ((b0 % 4) * 16 + b1 / 16) / 16 == b0
    ensures (((b0 % 4) * 16 + b1 / 16) % 16) * 16 + ((b1 % 16) * 4 + b2 / 64) / 4 == b1
    ensures (((b1 % 16) * 4 + b2 / 64) % 4) * 64 + b2 % 64 == b2
  {
    SplitBy16(b0 % 4, b1 / 16);
    SplitBy4(b1 % 16, b2 / 64);
  }

  /** The three bytes of one group survive encoding and decoding. */
  lemma GroupRoundTrip(b0: byte, b1: byte, b2: byte)
    ensures var g := EncodeGroup(b0, b1, b2); DecodeGroup(g[0], g[1], g[2], g[3]) == [b0, b1, b2]
  {
    GroupArithmetic(b0, b1, b2);
    ValueOfChar(b0 / 4);
    ValueOfChar((b0 % 4) * 16 + b1 / 16);
    ValueOfChar((b1 % 16) * 4 + b2 / 64);
    ValueOfChar(b2 % 64);
  }

  /** A final group of one byte (two characters) decodes back. */
  lemma OneByteRoundTrip(b0: byte)
    ensures DecodeChars([Char(b0 / 4), Char((b0 % 4) * 16)]) == [b0]
  {
    ValueOfChar(b0 / 4);
    ValueOfChar((b0 % 4) * 16);
    SplitBy16(b0 % 4, 0);
  }

  /** A final group of two bytes (three characters) decodes back. */
  lemma TwoBytesRoundTrip(b0: byte, b1: byte)
    ensures DecodeChars([Char(b0 / 4), Char((b0 % 4) * 16 + b1 / 16), Char((b1 % 16) * 4)]) == [b0, b1]
  {
    GroupArithmetic(b0, b1, 0);
    ValueOfChar(b0 / 4);
    ValueOfChar((b0 % 4) * 16 + b1 / 16);
    ValueOfChar((b1 % 16) * 4);
  }

  /** Decoding peels off one full group of four characters. */
  lemma DecodeFirstGroup(g: string, rest: string)
    requires |g| == 4 && forall i :: 0 <= i < 4 ==> IsAlphabet(g[i])
    requires (forall i :: 0 <= i < |rest| ==> IsAlphabet(rest[i])) && |rest| % 4 != 1
    ensures DecodeChars(g + rest) == DecodeGroup(g[0], g[1], g[2], g[3]) + DecodeChars(rest)
  {
    var s := g + rest;
    assert s[0] == g[0] && s[1] == g[1] && s[2] == g[2] && s[3] == g[3];
    assert s[4..] == rest;
  }

  lemma {:induction false} DecodeEncodeChars(b: seq<byte>)
    ensures DecodeChars(EncodeChars(b)) == b
    decreases |b|
  {
    if |b| == 1 {
      OneByteRoundTrip(b[0]);
    } else if |b| == 2 {
      TwoBytesRoundTrip(b[0], b[1]);
      assert b == [b[0], b[1]];
    } else if |b| >= 3 {
      DecodeEncodeChars(b[3..]);
      DecodeEncodeGroup(b);
    }
  }

  /** A full group in front of bytes that decode back also decodes back. */
  lemma DecodeEncodeGroup(b: seq<byte>)
    requires |b| >= 3 && DecodeChars(EncodeChars(b[3..])) == b[3..]
    ensures DecodeChars(EncodeChars(b)) == b
  {
    var g := EncodeGroup(b[0], b[1], b[2]);
    var e := EncodeChars(b[3..]);
    assert DecodeChars(EncodeChars(b)) == DecodeChars(g + e) by {
      assert EncodeChars(b) == g + e;
    }
    assert DecodeGroup(g[0], g[1], g[2], g[3]) == [b[0], b[1], b[2]] by {
      GroupRoundTrip(b[0], b[1], b[2]);
    }
    assert DecodeChars(g + e) == DecodeGroup(g[0], g[1], g[2], g[3]) + DecodeChars(e) by {
      DecodeFirstGroup(g, e);
    }
    PeelGroup(b);
  }

  lemma PeelGroup(b: seq<byte>)
    requires |b| >= 3
    ensures b == [b[0], b[1], b[2]] + b[3..]
  {
  }

  lemma RemoveWhitespaceNone(s: string)
    requires forall i :: 0 <= i < |s| ==> !IsAsciiWhitespace(s[i])
    ensures RemoveWhitespace(s) == s
  {
  }

  /** The padding the encoder adds is exactly what the decoder strips. */
  lemma RemovePaddingEncode(b: seq<byte>)
    ensures RemovePadding(Encode(b)) == EncodeChars(b)
  {
    var e := EncodeChars(b);
    var s := Encode(b);
    EncodeLength(b);
    if |b| % 3 == 0 {
      assert s == e;
      if |e| > 0 {
        assert IsAlphabet(e[|e| - 1]);
        assert e[|e| - 2..][1] == e[|e| - 1];
      }
    } else if |b| % 3 == 1 {
      assert s[..|s| - 2] == e;
    } else {
      assert s[..|s| - 1] == e;
      assert IsAlphabet(e[|e| - 1]);
      assert s[|s| - 2..][0] == e[|e| - 1];
    }
  }

  /** `atob` undoes the encoder: decoding an encoding gives back exactly the bytes. */
  lemma AtobEncode(b: seq<byte>)
    ensures Atob(Encode(b)) == Some(b)
  {
    RemoveWhitespaceNone(Encode(b));
    RemovePaddingEncode(b);
    DecodeEncodeChars(b);
  }

  lemma EncodeAlphabetOrPad(b: seq<byte>)
    ensures forall i :: 0 <= i < |Encode(b)| ==> IsAlphabet(Encode(b)[i]) || Encode(b)[i] == '='
  {
  }
}
