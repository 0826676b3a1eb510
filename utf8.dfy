/**
 * UTF-8 as defined by section 4 of RFC 3629: the well-formed byte
 * sequences, the strict decoder that Python's `bytes.decode("utf-8")`
 * implements, and the encoder it inverts. Decoding works on a window
 * `s[i..end]` of a byte string, so that a name can be decoded where it
 * stands in a file.
 */
module Utf8 {
  import opened Wrappers
  import opened Bytes

  /** UTF8-tail = %x80-BF */
  predicate IsTail(b: byte) {
    0x80 <= b <= 0xBF
  }

  /**
   * The length of the well-formed character starting at `s[i]` and ending
   * by `end`, or 0 when none does (the window is empty, or holds a
   * truncated, overlong, surrogate or out-of-range sequence).
   */
  function CharLenAt(s: Bytes, i: nat, end: nat): (n: nat)
    requires end <= |s|
    ensures n <= 4 && (n > 0 ==> i + n <= end)
    ensures n == 1 <==> (i < end && s[i] <= 0x7F)
  {
    if i >= end then 0
    else if s[i] <= 0x7F then 1
    else if 0xC2 <= s[i] <= 0xDF then
      (if i + 2 <= end && IsTail(s[i + 1]) then 2 else 0)
    else if s[i] == 0xE0 then
      (if i + 3 <= end && 0xA0 <= s[i + 1] <= 0xBF && IsTail(s[i + 2]) then 3 else 0)
    else if 0xE1 <= s[i] <= 0xEC || 0xEE <= s[i] <= 0xEF then
      (if i + 3 <= end && IsTail(s[i + 1]) && IsTail(s[i + 2]) then 3 else 0)
    else if s[i] == 0xED then
      (if i + 3 <= end && 0x80 <= s[i + 1] <= 0x9F && IsTail(s[i + 2]) then 3 else 0)
    else if s[i] == 0xF0 then
      (if i + 4 <= end && 0x90 <= s[i + 1] <= 0xBF && IsTail(s[i + 2]) && IsTail(s[i + 3]) then 4 else 0)
    else if 0xF1 <= s[i] <= 0xF3 then
      (if i + 4 <= end && IsTail(s[i + 1]) && IsTail(s[i + 2]) && IsTail(s[i + 3]) then 4 else 0)
    else if s[i] == 0xF4 then
      (if i + 4 <= end && 0x80 <= s[i + 1] <= 0x8F && IsTail(s[i + 2]) && IsTail(s[i + 3]) then 4 else 0)
    else 0
  }

  /** `s[i..end]` is a concatenation of well-formed characters. */
  predicate WellFormedRange(s: Bytes, i: nat, end: nat)
    requires end <= |s|
    decreases end - i
  {
    i >= end || (CharLenAt(s, i, end) > 0 && WellFormedRange(s, i + CharLenAt(s, i, end), end))
  }

  /** `s` is well-formed UTF-8 (UTF8-octets). */
  predicate WellFormed(s: Bytes) {
    WellFormedRange(s, 0, |s|)
  }

  /** The scalar value of the character at `s[i]`. */
  function DecodeCharAt(s: Bytes, i: nat, end: nat): char
    requires end <= |s| && CharLenAt(s, i, end) > 0
  {
    var n := CharLenAt(s, i, end);
    if n == 1 then s[i] as int as char
    else if n == 2 then
      ((s[i] as int - 0xC0) * 64 + (s[i + 1] as int - 0x80)) as char
    else if n == 3 then
      ((s[i] as int - 0xE0) * 4096 + (s[i + 1] as int - 0x80) * 64 + (s[i + 2] as int - 0x80)) as char
    else
      ((s[i] as int - 0xF0) * 262144 + (s[i + 1] as int - 0x80) * 4096
       + (s[i + 2] as int - 0x80) * 64 + (s[i + 3] as int - 0x80)) as char
  }

  /** Strict decoding of `s[i..end]`: the text, or None exactly when the window is not well-formed. */
  function DecodeRange(s: Bytes, i: nat, end: nat): (r: Option<string>)
    requires end <= |s|
    ensures r.Some? <==> WellFormedRange(s, i, end)
    decreases end - i
  {
    if i >= end then Some("")
    else
      var n := CharLenAt(s, i, end);
      if n == 0 then None
      else match DecodeRange(s, i + n, end)
        case None => None
        case Some(rest) => Some([DecodeCharAt(s, i, end)] + rest)
  }

  /** `bytes.decode("utf-8")`: the text, or None (UnicodeDecodeError) exactly when `s` is not well-formed. */
  function Decode(s: Bytes): (r: Option<string>)
    ensures r.Some? <==> WellFormed(s)
  {
    DecodeRange(s, 0, |s|)
  }

  /** The UTF-8 encoding of one scalar value. */
  function EncodeChar(c: char): (b: Bytes)
    ensures 1 <= |b| <= 4
  {
    var cp := c as int;
    if cp < 0x80 then [cp as byte]
    else if cp < 0x800 then
      [(0xC0 + cp / 64) as byte, (0x80 + cp % 64) as byte]
    else if cp < 0x10000 then
      [(0xE0 + cp / 4096) as byte, (0x80 + (cp / 64) % 64) as byte, (0x80 + cp % 64) as byte]
    else
      [(0xF0 + cp / 262144) as byte, (0x80 + (cp / 4096) % 64) as byte,
       (0x80 + (cp / 64) % 64) as byte, (0x80 + cp % 64) as byte]
  }

  function Encode(s: string): (b: Bytes)
  {
    if |s| == 0 then [] else EncodeChar(s[0]) + Encode(s[1..])
  }

  /** The encoding of a character is exactly one well-formed character. */
  lemma EncodeCharLength(c: char)
    ensures var b := EncodeChar(c); CharLenAt(b, 0, |b|) == |b|
  {
    var cp := c as int;
    if 0x80 <= cp < 0x800 {
      TwoByteLength(c);
    } else if 0x800 <= cp < 0x10000 {
      ThreeByteLength(c);
    } else if 0x10000 <= cp {
      FourByteLength(c);
    }
  }

  /** A character from U+0080 to U+07FF: a C2..DF lead byte and one tail. */
  lemma TwoByteLength(c: char)
    requires 0x80 <= c as int < 0x800
    ensures var b := EncodeChar(c); CharLenAt(b, 0, |b|) == |b|
  {
    var b := EncodeChar(c);
    assert 0xC2 <= b[0] <= 0xDF && IsTail(b[1]);
  }

  /** A character from U+0800 to U+FFFF, surrogates excluded: E0 needs a tail from A0, ED one below A0. */
  lemma ThreeByteLength(c: char)
    requires 0x800 <= c as int < 0x10000
    ensures var b := EncodeChar(c); CharLenAt(b, 0, |b|) == |b|
  {
    var cp := c as int;
    var b := EncodeChar(c);
    var lead := cp / 4096;
    var mid := (cp / 64) % 64;
    assert b[0] as int == 0xE0 + lead && b[1] as int == 0x80 + mid && IsTail(b[2]);
    assert lead == 0 ==> mid >= 0x20;
    assert lead == 13 ==> mid < 0x20 by {
      assert cp < 0xD800 || 0xE000 <= cp;
    }
  }

  /** A character from U+10000: F0 needs a tail from 90, F4 one below 90. */
  lemma FourByteLength(c: char)
    requires 0x10000 <= c as int
    ensures var b := EncodeChar(c); CharLenAt(b, 0, |b|) == |b|
  {
    var cp := c as int;
    var b := EncodeChar(c);
    var lead := cp / 262144;
    var mid := (cp / 4096) % 64;
    assert b[0] as int == 0xF0 + lead && b[1] as int == 0x80 + mid && IsTail(b[2]) && IsTail(b[3]);
    assert lead <= 4;
    assert lead == 0 ==> mid >= 0x10;
    assert lead == 4 ==> mid < 0x10;
  }

  /** Decoding the encoding of a character gives the character back. */
  lemma DecodeEncodeChar(c: char)
    ensures var b := EncodeChar(c); CharLenAt(b, 0, |b|) > 0 && DecodeCharAt(b, 0, |b|) == c
  {
    EncodeCharLength(c);
    var cp := c as int;
    var b := EncodeChar(c);
    if cp < 0x80 {
    } else if cp < 0x800 {
      assert |b| == 2;
      assert cp == (cp / 64) * 64 + cp % 64;
    } else if cp < 0x10000 {
      assert |b| == 3;
      var q := cp / 64;
      assert cp == q * 64 + cp % 64;
      assert q == (q / 64) * 64 + q % 64;
      assert q / 64 == cp / 4096;
    } else {
      assert |b| == 4;
      var q := cp / 64;
      var r := q / 64;
      assert cp == q * 64 + cp % 64;
      assert q == r * 64 + q % 64;
      assert r == (r / 64) * 64 + r % 64;
      assert r == cp / 4096;
      assert r / 64 == cp / 262144;
    }
  }

  /** A character is recognised from its own bytes: moving the end of the window past it changes nothing. */
  lemma CharExtends(s: Bytes, i: nat, end: nat, end': nat)
    requires end <= end' <= |s| && CharLenAt(s, i, end) > 0
    ensures CharLenAt(s, i, end') == CharLenAt(s, i, end)
    ensures DecodeCharAt(s, i, end') == DecodeCharAt(s, i, end)
  {
  }

  /** Two windows holding the same bytes start with the same character. */
  lemma CharWindow(s: Bytes, i: nat, end: nat, t: Bytes, j: nat, end': nat)
    requires i <= end <= |s| && j <= end' <= |t| && s[i..end] == t[j..end']
    ensures CharLenAt(s, i, end) == CharLenAt(t, j, end')
    ensures CharLenAt(s, i, end) > 0 ==> DecodeCharAt(s, i, end) == DecodeCharAt(t, j, end')
  {
    if i < end {
      assert s[i] == s[i..end][0] == t[j];
    }
    if i + 1 < end {
      assert s[i + 1] == s[i..end][1] == t[j + 1];
    }
    if i + 2 < end {
      assert s[i + 2] == s[i..end][2] == t[j + 2];
    }
    if i + 3 < end {
      assert s[i + 3] == s[i..end][3] == t[j + 3];
    }
  }

  /** Decoding reads nothing but the window: two windows holding the same bytes decode alike. */
  lemma {:induction false} DecodeWindow(s: Bytes, i: nat, end: nat, t: Bytes, j: nat, end': nat)
    requires i <= end <= |s| && j <= end' <= |t| && s[i..end] == t[j..end']
    ensures DecodeRange(s, i, end) == DecodeRange(t, j, end')
    decreases end - i
  {
    CharWindow(s, i, end, t, j, end');
    var n := CharLenAt(s, i, end);
    if i < end && n > 0 {
      assert s[i + n..end] == s[i..end][n..] == t[j..end'][n..] == t[j + n..end'];
      DecodeWindow(s, i + n, end, t, j + n, end');
    }
  }

  /** Encoding is inverted by strict decoding; in particular every encoding is well-formed. */
  lemma {:induction false} DecodeEncode(s: string)
    ensures Decode(Encode(s)) == Some(s)
  {
    if |s| > 0 {
      var head := EncodeChar(s[0]);
      var tail := Encode(s[1..]);
      var b := Encode(s);
      assert b == head + tail;
      EncodeCharLength(s[0]);
      DecodeEncodeChar(s[0]);
      assert b[..|head|] == head[0..|head|];
      CharWindow(b, 0, |head|, head, 0, |head|);
      CharExtends(b, 0, |head|, |b|);
      assert b[|head|..|b|] == tail[0..|tail|];
      DecodeWindow(b, |head|, |b|, tail, 0, |tail|);
      DecodeEncode(s[1..]);
      assert s == [s[0]] + s[1..];
    }
  }

  /** Six low bits under a prefix: division and remainder by 64 split them back apart. */
  lemma SixBits(q: int, r: int)
    requires 0 <= r < 64
    ensures (q * 64 + r) / 64 == q && (q * 64 + r) % 64 == r
  {
  }

  /** The fields of a three-byte code point come back out of it. */
  lemma ThreeFields(b0: int, b1: int, b2: int)
    requires 0 <= b1 < 64 && 0 <= b2 < 64
    ensures var cp := b0 * 4096 + b1 * 64 + b2;
      cp / 4096 == b0 && (cp / 64) % 64 == b1 && cp % 64 == b2
  {
    SixBits(b0 * 64 + b1, b2);
    SixBits(b0, b1);
  }

  /** The fields of a four-byte code point come back out of it. */
  lemma FourFields(b0: int, b1: int, b2: int, b3: int)
    requires 0 <= b1 < 64 && 0 <= b2 < 64 && 0 <= b3 < 64
    ensures var cp := b0 * 262144 + b1 * 4096 + b2 * 64 + b3;
      cp / 262144 == b0 && (cp / 4096) % 64 == b1 && (cp / 64) % 64 == b2 && cp % 64 == b3
  {
    ThreeFields(b0 * 64 + b1, b2, b3);
    SixBits((b0 * 64 + b1) * 64 + b2, b3);
    SixBits(b0 * 64 + b1, b2);
    SixBits(b0, b1);
  }

  /** Encoding a decoded character gives back the bytes it was decoded from. */
  lemma EncodeDecodeChar(s: Bytes, i: nat, end: nat)
    requires end <= |s| && CharLenAt(s, i, end) > 0
    ensures EncodeChar(DecodeCharAt(s, i, end)) == s[i..i + CharLenAt(s, i, end)]
  {
    var n := CharLenAt(s, i, end);
    if n == 2 {
      EncodeDecodeTwo(s, i, end);
    } else if n == 3 {
      EncodeDecodeThree(s, i, end);
    } else if n == 4 {
      EncodeDecodeFour(s, i, end);
    }
  }

  lemma EncodeDecodeTwo(s: Bytes, i: nat, end: nat)
    requires end <= |s| && CharLenAt(s, i, end) == 2
    ensures EncodeChar(DecodeCharAt(s, i, end)) == s[i..i + 2]
  {
    var cp := DecodeCharAt(s, i, end) as int;
    assert cp == (s[i] as int - 0xC0) * 64 + (s[i + 1] as int - 0x80);
    SixBits(s[i] as int - 0xC0, s[i + 1] as int - 0x80);
    assert 0x80 <= cp < 0x800;
  }

  lemma EncodeDecodeThree(s: Bytes, i: nat, end: nat)
    requires end <= |s| && CharLenAt(s, i, end) == 3
    ensures EncodeChar(DecodeCharAt(s, i, end)) == s[i..i + 3]
  {
    var cp := DecodeCharAt(s, i, end) as int;
    var b0, b1, b2 := s[i] as int - 0xE0, s[i + 1] as int - 0x80, s[i + 2] as int - 0x80;
    assert cp == b0 * 4096 + b1 * 64 + b2;
    ThreeFields(b0, b1, b2);
    assert 0x800 <= cp < 0x10000;
  }

  lemma EncodeDecodeFour(s: Bytes, i: nat, end: nat)
    requires end <= |s| && CharLenAt(s, i, end) == 4
    ensures EncodeChar(DecodeCharAt(s, i, end)) == s[i..i + 4]
  {
    var cp := DecodeCharAt(s, i, end) as int;
    var b0, b1, b2, b3 := s[i] as int - 0xF0, s[i + 1] as int - 0x80, s[i + 2] as int - 0x80, s[i + 3] as int - 0x80;
    assert cp == b0 * 262144 + b1 * 4096 + b2 * 64 + b3;
    FourFields(b0, b1, b2, b3);
    assert 0x10000 <= cp;
  }

  /** A well-formed non-empty window decodes to its first character followed by the rest. */
  lemma DecodeRangeStep(s: Bytes, i: nat, end: nat)
    requires i < end <= |s| && WellFormedRange(s, i, end)
    ensures CharLenAt(s, i, end) > 0 && WellFormedRange(s, i + CharLenAt(s, i, end), end)
    ensures DecodeRange(s, i, end).value
      == [DecodeCharAt(s, i, end)] + DecodeRange(s, i + CharLenAt(s, i, end), end).value
  {
  }

  /** Encoding works a character at a time. */
  lemma EncodeStep(c: char, rest: string)
    ensures Encode([c] + rest) == EncodeChar(c) + Encode(rest)
  {
    assert ([c] + rest)[0] == c && ([c] + rest)[1..] == rest;
  }

  /** Encoding the text a window decodes to gives back the window. */
  lemma {:induction false} EncodeDecodeRange(s: Bytes, i: nat, end: nat)
    requires i <= end <= |s| && WellFormedRange(s, i, end)
    ensures Encode(DecodeRange(s, i, end).value) == s[i..end]
    decreases end - i, 1
  {
    if i < end {
      EncodeDecodeFirst(s, i, end);
    }
  }

  /** The same for a non-empty window: its first character, then the rest of the window. */
  lemma {:induction false} EncodeDecodeFirst(s: Bytes, i: nat, end: nat)
    requires i < end <= |s| && WellFormedRange(s, i, end)
    ensures Encode(DecodeRange(s, i, end).value) == s[i..end]
    decreases end - i, 0
  {
    DecodeRangeStep(s, i, end);
    var n := CharLenAt(s, i, end);
    var c := DecodeCharAt(s, i, end);
    var rest := DecodeRange(s, i + n, end).value;
    EncodeDecodeChar(s, i, end);
    EncodeDecodeRange(s, i + n, end);
    EncodeStep(c, rest);
    calc {
      Encode(DecodeRange(s, i, end).value);
      Encode([c] + rest);
      EncodeChar(c) + Encode(rest);
      s[i..i + n] + s[i + n..end];
      { assert s[i..end] == s[i..i + n] + s[i + n..end]; }
      s[i..end];
    }
  }

  /** Strict decoding is inverted by encoding: a byte string that decodes is the encoding of its text. */
  lemma EncodeDecode(b: Bytes)
    requires Decode(b).Some?
    ensures Encode(Decode(b).value) == b
  {
    EncodeDecodeRange(b, 0, |b|);
    assert b[0..|b|] == b;
  }

  /**
   * Decoding is deterministic: when `s[i..k]` and `s[i..end]` are both
   * well-formed, the characters of the first are those the second starts
   * with, so what is left, `s[k..end]`, is well-formed too.
   */
  lemma {:induction false} WellFormedCancel(s: Bytes, i: nat, k: nat, end: nat)
    requires i <= k <= end <= |s|
    requires WellFormedRange(s, i, k) && WellFormedRange(s, i, end)
    ensures WellFormedRange(s, k, end)
    decreases k - i
  {
    if i < k {
      CharExtends(s, i, k, end);
      WellFormedCancel(s, i + CharLenAt(s, i, k), k, end);
    }
  }

  /**
   * A window that ends inside a multi-byte character, after a well-formed
   * run of characters, is not well-formed.
   */
  lemma CutCharacter(s: Bytes, k: nat, end: nat)
    requires k < end <= |s| && WellFormedRange(s, 0, k)
    requires end < k + CharLenAt(s, k, |s|)
    ensures !WellFormedRange(s, 0, end)
  {
    if WellFormedRange(s, 0, end) {
      WellFormedCancel(s, 0, k, end);
      CharExtends(s, k, end, |s|);
      assert false;
    }
  }

  /** Seven-bit text is well-formed UTF-8. */
  lemma {:induction false} SevenBitWellFormed(s: Bytes, i: nat, end: nat)
    requires end <= |s|
    requires forall k :: 0 <= k < |s| ==> s[k] <= 0x7F
    ensures WellFormedRange(s, i, end)
    decreases end - i
  {
    if i < end {
      SevenBitWellFormed(s, i + 1, end);
    }
  }
}
