/** Byte-level encodings used by the ledger's serialiser: Go's int64
    little-endian two's-complement integers and Go's string-to-bytes
    conversion (UTF-8). */
module Encoding {

  type byte = b: int | 0 <= b < 0x100

  /** Go's int64 range. Voter IDs are converted with int64(...) before
      encoding, so the model keeps them inside this range. */
  type Int64 = x: int | -0x8000_0000_0000_0000 <= x < 0x8000_0000_0000_0000

  const TwoTo63: int := 0x8000_0000_0000_0000
  const TwoTo64: int := 0x1_0000_0000_0000_0000

  function Pow256(n: nat): (p: nat)
    ensures p > 0
  {
    if n == 0 then 1 else 256 * Pow256(n - 1)
  }

  /** The low n bytes of u, least significant first. */
  function LittleEndian(u: nat, n: nat): (r: seq<byte>)
    ensures |r| == n
  {
    if n == 0 then [] else [u % 256] + LittleEndian(u / 256, n - 1)
  }

  /** The unsigned number whose little-endian digits are bs. */
  function FromLittleEndian(bs: seq<byte>): (u: nat)
    ensures u < Pow256(|bs|)
  {
    if bs == [] then 0 else bs[0] + 256 * FromLittleEndian(bs[1..])
  }

  lemma {:induction false} LittleEndianRoundTrip(u: nat, n: nat)
    requires u < Pow256(n)
    ensures FromLittleEndian(LittleEndian(u, n)) == u
  {
    if n > 0 {
      LittleEndianRoundTrip(u / 256, n - 1);
      assert LittleEndian(u, n)[1..] == LittleEndian(u / 256, n - 1);
    }
  }

  /** What binary.Write(buf, binary.LittleEndian, int64(x)) appends:
      eight bytes of two's complement, least significant first. */
  function Int64Bytes(x: Int64): (r: seq<byte>)
    ensures |r| == 8
  {
    LittleEndian(if x < 0 then x + TwoTo64 else x, 8)
  }

  /** Reads back eight little-endian two's-complement bytes. */
  function Int64FromBytes(bs: seq<byte>): (x: Int64)
    requires |bs| == 8
  {
    assert Pow256(8) == TwoTo64;
    var u := FromLittleEndian(bs);
    if u < TwoTo63 then u else u - TwoTo64
  }

  lemma Int64RoundTrip(x: Int64)
    ensures Int64FromBytes(Int64Bytes(x)) == x
  {
    assert Pow256(8) == TwoTo64;
    LittleEndianRoundTrip(if x < 0 then x + TwoTo64 else x, 8);
  }

  lemma Int64BytesInjective(x: Int64, y: Int64)
    requires Int64Bytes(x) == Int64Bytes(y)
    ensures x == y
  {
    Int64RoundTrip(x);
    Int64RoundTrip(y);
  }

  /** UTF-8 encoding of one Unicode scalar value. */
  function Utf8Char(c: char): (r: seq<byte>)
    ensures 1 <= |r| <= 4
    ensures |r| == 1 <==> c as int < 0x80
  {
    var n := c as int;
    if n < 0x80 then [n]
    else if n < 0x800 then [0xC0 + n / 0x40, 0x80 + n % 0x40]
    else if n < 0x1_0000 then [0xE0 + n / 0x1000, 0x80 + n / 0x40 % 0x40, 0x80 + n % 0x40]
    else [0xF0 + n / 0x4_0000, 0x80 + n / 0x1000 % 0x40, 0x80 + n / 0x40 % 0x40, 0x80 + n % 0x40]
  }

  /** Decodes one UTF-8 sequence of one to four bytes. */
  function Utf8CharValue(bs: seq<byte>): int
    requires 1 <= |bs| <= 4
  {
    var b := seq(|bs|, i requires 0 <= i < |bs| => bs[i] as int);
    if |b| == 1 then b[0]
    else if |b| == 2 then (b[0] - 0xC0) * 0x40 + (b[1] - 0x80)
    else if |b| == 3 then ((b[0] - 0xE0) * 0x40 + (b[1] - 0x80)) * 0x40 + (b[2] - 0x80)
    else (((b[0] - 0xF0) * 0x40 + (b[1] - 0x80)) * 0x40 + (b[2] - 0x80)) * 0x40 + (b[3] - 0x80)
  }

  /** Splitting n into six-bit groups and joining them again gives n back. */
  lemma SixBitGroups(n: nat)
    ensures n == (n / 0x40) * 0x40 + n % 0x40
    ensures n / 0x40 == (n / 0x1000) * 0x40 + n / 0x40 % 0x40
    ensures n / 0x1000 == (n / 0x4_0000) * 0x40 + n / 0x1000 % 0x40
  {
  }

  lemma Utf8CharRoundTrip(c: char)
    ensures Utf8CharValue(Utf8Char(c)) == c as int
  {
    var n := c as int;
    SixBitGroups(n);
  }

  /** Go's []byte(s): the UTF-8 bytes of the string's characters, in order. */
  function Utf8(s: string): (r: seq<byte>)
  {
    if s == [] then [] else Utf8Char(s[0]) + Utf8(s[1..])
  }

  lemma {:induction false} Utf8Length(s: string)
    ensures |s| <= |Utf8(s)| <= 4 * |s|
    ensures (forall i :: 0 <= i < |s| ==> s[i] as int < 0x80) ==> |Utf8(s)| == |s|
  {
    if s != [] {
      Utf8Length(s[1..]);
    }
  }

  lemma {:induction false} Utf8Append(a: string, b: string)
    ensures Utf8(a + b) == Utf8(a) + Utf8(b)
  {
    if a != [] {
      assert (a + b)[0] == a[0];
      assert (a + b)[1..] == a[1..] + b;
      Utf8Append(a[1..], b);
    } else {
      assert a + b == b;
    }
  }
}
