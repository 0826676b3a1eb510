/**
 * Byte strings as the Python source sees them: `bytes` values, Python's
 * clamping slice `data[start:stop]`, the substring test `pat in data`,
 * and the little-endian field readers used by the index parser.
 */
module Bytes {
  import opened Wrappers

  newtype byte = b: int | 0 <= b < 256

  type Bytes = seq<byte>

  /** The bytes of an ASCII literal such as b"RIFF" (every char below 256). */
  function Ascii(s: string): (r: Bytes)
    ensures |r| == |s|
  {
    seq(|s|, i requires 0 <= i < |s| => (s[i] as int % 256) as byte)
  }

  /** Python's normalisation of one slice bound against a length `n`. */
  function Clamp(i: int, n: nat): (k: nat)
    ensures k <= n
    ensures 0 <= i <= n ==> k == i
    ensures i < 0 && 0 <= n + i ==> k == n + i
  {
    if i < 0 then (if i + n < 0 then 0 else i + n)
    else if i > n then n
    else i
  }

  /** `s[start:stop]` with Python's semantics: bounds are clamped, never an error. */
  function Slice(s: Bytes, start: int, stop: int): (r: Bytes)
    ensures |r| <= |s|
    ensures 0 <= start <= stop <= |s| ==> r == s[start..stop]
  {
    var a := Clamp(start, |s|);
    var b := Clamp(stop, |s|);
    if a <= b then s[a..b] else []
  }

  /** `s[:n]`. */
  function Take(s: Bytes, n: nat): (r: Bytes)
    ensures r == if n <= |s| then s[..n] else s
  {
    Slice(s, 0, n)
  }

  /** `pat in s` on bytes or on text: `pat` occurs as a contiguous run of `s`. */
  predicate Contains<T(==)>(s: seq<T>, pat: seq<T>) {
    exists i :: 0 <= i <= |s| && OccursAt(s, pat, i)
  }

  /** `pat` occurs in `s` starting at offset `i`. */
  predicate OccursAt<T(==)>(s: seq<T>, pat: seq<T>, i: nat) {
    i + |pat| <= |s| && s[i..i + |pat|] == pat
  }

  /** A one-element pattern occurs exactly where that element does. */
  lemma ContainsByte(s: Bytes, x: byte)
    ensures Contains(s, [x]) <==> exists i :: 0 <= i < |s| && s[i] == x
  {
    if exists i :: 0 <= i < |s| && s[i] == x {
      var i :| 0 <= i < |s| && s[i] == x;
      assert OccursAt(s, [x], i);
    }
    if Contains(s, [x]) {
      var i :| 0 <= i <= |s| && OccursAt(s, [x], i);
      assert s[i..i + 1][0] == s[i];
    }
  }

  /** A slice between non-negative bounds is never longer than `stop - start`, nor runs past the end. */
  lemma SliceLengthBound(s: Bytes, start: nat, stop: nat)
    ensures |Slice(s, start, stop)| <= if start <= stop then stop - start else 0
    ensures start <= |s| ==> start + |Slice(s, start, stop)| <= |s|
  {
  }

  /** Whatever contains a longer pattern contains each of its prefixes. */
  lemma ContainsPrefix<T>(s: seq<T>, long: seq<T>, short: seq<T>)
    requires short <= long
    requires Contains(s, long)
    ensures Contains(s, short)
  {
    var i :| 0 <= i <= |s| && OccursAt(s, long, i);
    assert s[i..i + |short|] == long[..|short|];
    assert OccursAt(s, short, i);
  }

  /** `read_uint16`: the little-endian u16 at `pos`; a short read fails with the position it started from. */
  function ReadU16(buf: Bytes, pos: nat): (r: Result<nat, nat>)
    ensures r.Success? <==> pos + 2 <= |buf|
    ensures r.Success? ==> r.value < 0x1_0000
    ensures r.Failure? ==> r.error == pos
  {
    if pos + 2 > |buf| then Failure(pos)
    else Success(buf[pos] as nat + 0x100 * buf[pos + 1] as nat)
  }

  /** `read_uint32`: the little-endian u32 at `pos`; a short read fails with the position it started from. */
  function ReadU32(buf: Bytes, pos: nat): (r: Result<nat, nat>)
    ensures r.Success? <==> pos + 4 <= |buf|
    ensures r.Success? ==> r.value < 0x1_0000_0000
    ensures r.Failure? ==> r.error == pos
  {
    if pos + 4 > |buf| then Failure(pos)
    else Success(buf[pos] as nat + 0x100 * buf[pos + 1] as nat
                 + 0x1_0000 * buf[pos + 2] as nat + 0x100_0000 * buf[pos + 3] as nat)
  }

  /** `buf` holds `v` as a little-endian u16 at `pos`: low byte first. */
  predicate U16At(buf: Bytes, pos: nat, v: nat) {
    && v < 0x1_0000 && pos + 2 <= |buf|
    && buf[pos] as nat == v % 0x100 && buf[pos + 1] as nat == v / 0x100
  }

  /** `buf` holds `v` as a little-endian u32 at `pos`: low byte first. */
  predicate U32At(buf: Bytes, pos: nat, v: nat) {
    && v < 0x1_0000_0000 && pos + 4 <= |buf|
    && buf[pos] as nat == v % 0x100
    && buf[pos + 1] as nat == v / 0x100 % 0x100
    && buf[pos + 2] as nat == v / 0x100 / 0x100 % 0x100
    && buf[pos + 3] as nat == v / 0x100 / 0x100 / 0x100
  }

  /** Splitting off the low byte of `lo + 256 * hi`. */
  lemma LowByte(lo: nat, hi: nat)
    requires lo < 0x100
    ensures (lo + 0x100 * hi) % 0x100 == lo && (lo + 0x100 * hi) / 0x100 == hi
  {
  }

  /** A u16 laid out at `pos` reads back, and what is read there is laid out there. */
  lemma U16RoundTrip(buf: Bytes, pos: nat, v: nat)
    ensures U16At(buf, pos, v) <==> ReadU16(buf, pos) == Success(v)
  {
    if pos + 2 <= |buf| {
      LowByte(buf[pos] as nat, buf[pos + 1] as nat);
      LowByte(v % 0x100, v / 0x100);
    }
  }

  /** A u32 laid out at `pos` reads back, and what is read there is laid out there. */
  lemma U32RoundTrip(buf: Bytes, pos: nat, v: nat)
    ensures U32At(buf, pos, v) <==> ReadU32(buf, pos) == Success(v)
  {
    if pos + 4 <= |buf| {
      var b0, b1, b2, b3 := buf[pos] as nat, buf[pos + 1] as nat, buf[pos + 2] as nat, buf[pos + 3] as nat;
      var r := b0 + 0x100 * (b1 + 0x100 * (b2 + 0x100 * b3));
      assert ReadU32(buf, pos) == Success(r);
      LowByte(b2, b3);
      LowByte(b1, b2 + 0x100 * b3);
      LowByte(b0, b1 + 0x100 * (b2 + 0x100 * b3));
      var q1 := v / 0x100;
      var q2 := q1 / 0x100;
      LowByte(v % 0x100, q1);
      LowByte(q1 % 0x100, q2);
      LowByte(q2 % 0x100, q2 / 0x100);
    }
  }
}
