/**
  Octets, big-endian words and positions inside a packet.

  A Go `[]byte` or `string` is a sequence of octets here.  Fixed-width integers are
  bounded integers, and every conversion that truncates in the program is a `%` here.
 */
module Bytes {
  type byte = x: int | 0 <= x < 256
  type uint16 = x: int | 0 <= x < 0x1_0000
  type uint32 = x: int | 0 <= x < 0x1_0000_0000
  type bytes = seq<byte>

  datatype Option<+T> = None | Some(value: T)

  function U16(v: uint16): (r: bytes)
    ensures |r| == 2
  {
    [v / 256, v % 256]
  }

  /** A 16-bit counter after one increment. */
  function Next(count: uint16): uint16 {
    if count == 0xffff then 0 else count + 1
  }

  lemma NextMod(n: nat)
    ensures Next(n % 0x1_0000) == (n + 1) % 0x1_0000
  {
  }

  function U32(v: uint32): (r: bytes)
    ensures |r| == 4
  {
    [v / 0x100_0000, v / 0x1_0000 % 256, v / 256 % 256, v % 256]
  }

  function GetU16(b: bytes, off: nat): uint16
    requires off + 2 <= |b|
  {
    b[off] as int * 256 + b[off + 1]
  }

  function GetU32(b: bytes, off: nat): uint32
    requires off + 4 <= |b|
  {
    b[off] as int * 0x100_0000 + b[off + 1] as int * 0x1_0000 + b[off + 2] as int * 256 + b[off + 3]
  }

  /** Go's `|` on two values of four bits. */
  function OrNibble(x: nat, y: nat): (r: nat)
    requires x < 16 && y < 16
    ensures r < 16 && (x == 0 ==> r == y)
  {
    OrBit(x, y, 8) + OrBit(x, y, 4) + OrBit(x, y, 2) + OrBit(x, y, 1)
  }

  function OrBit(x: nat, y: nat, bit: nat): nat
    requires bit > 0
  {
    if x / bit % 2 == 1 || y / bit % 2 == 1 then bit else 0
  }

  /** Network order (section 2.3.2 of RFC 1035): the most significant octet first, also of double words. */
  lemma NetworkOrder(v: uint32, w: uint16)
    ensures U16(w) == [w / 256, w % 256]
    ensures U32(v) == U16(v / 0x1_0000) + U16(v % 0x1_0000)
  {
    Halves(v, v / 0x1_0000, v % 0x1_0000);
  }

  lemma Halves(v: nat, hi: nat, lo: nat)
    requires v == hi * 0x1_0000 + lo && lo < 0x1_0000
    ensures v / 0x100_0000 == hi / 256 && v / 0x1_0000 % 256 == hi % 256
    ensures v / 256 % 256 == lo / 256 && v % 256 == lo % 256
  {
    assert v / 0x1_0000 == hi;
    assert v / 256 == hi * 256 + lo / 256;
  }

  /** `b` with the octets from `off` on replaced by `data`. */
  function Patch(b: bytes, off: nat, data: bytes): (r: bytes)
    requires off + |data| <= |b|
    ensures |r| == |b|
    ensures forall i :: 0 <= i < |b| ==> r[i] == if off <= i < off + |data| then data[i - off] else b[i]
  {
    b[..off] + data + b[off + |data|..]
  }

  lemma Assoc<T>(a: seq<T>, b: seq<T>, c: seq<T>)
    ensures a + b + c == a + (b + c)
  {
  }

  lemma Unit<T>(a: seq<T>)
    ensures a + [] == a && [] + a == a
  {
  }

  lemma Tail<T>(s: seq<T>, i: nat)
    requires i < |s|
    ensures s[i..] == [s[i]] + s[i + 1..] && s[i..][0] == s[i] && s[i..][1..] == s[i + 1..]
  {
  }

  lemma TakeTail<T>(s: seq<T>, k: nat)
    requires 0 < k <= |s|
    ensures s[..k] != [] && s[..k][0] == s[0] && s[..k][1..] == s[1..][..k - 1]
  {
  }

  lemma ConsTail<T>(a: seq<T>, b: seq<T>)
    requires a != []
    ensures (a + b)[0] == a[0] && (a + b)[1..] == a[1..] + b
  {
  }

  /** The octets `s` occur in `b` at position `off`. */
  ghost predicate At(b: bytes, off: nat, s: bytes) {
    off + |s| <= |b| && b[off..off + |s|] == s
  }

  lemma AtConcat(b: bytes, off: nat, s: bytes, t: bytes)
    ensures At(b, off, s + t) <==> At(b, off, s) && At(b, off + |s|, t)
  {
    if off + |s| + |t| <= |b| {
      var whole := b[off..off + |s + t|];
      assert whole[..|s|] == b[off..off + |s|];
      assert whole[|s|..] == b[off + |s|..off + |s| + |t|];
      if At(b, off, s + t) {
        assert whole[..|s|] == s;
        assert whole[|s|..] == t;
      }
      if At(b, off, s) && At(b, off + |s|, t) {
        assert whole == whole[..|s|] + whole[|s|..];
      }
    }
  }

  lemma AtEnd(b: bytes, off: nat, s: bytes)
    requires At(b, off, s)
    ensures off + |s| <= |b|
  {
  }

  lemma AtSlice(b: bytes, off: nat, s: bytes)
    requires At(b, off, s)
    ensures off + |s| <= |b| && b[off..off + |s|] == s
  {
  }

  lemma AtWhole(b: bytes)
    ensures At(b, 0, b)
  {
  }

  lemma AtPrefix(a: bytes, b: bytes)
    ensures At(a + b, 0, a) && At(a + b, |a|, b)
  {
  }

  lemma AtIndex(b: bytes, off: nat, s: bytes, i: nat)
    requires At(b, off, s) && i < |s|
    ensures off + |s| <= |b| && b[off + i] == s[i]
  {
    assert b[off..off + |s|][i] == s[i];
  }

  lemma AtU16(b: bytes, off: nat, v: uint16)
    requires At(b, off, U16(v))
    ensures GetU16(b, off) == v
  {
    AtIndex(b, off, U16(v), 0);
    AtIndex(b, off, U16(v), 1);
  }

  lemma AtU32(b: bytes, off: nat, v: uint32)
    requires At(b, off, U32(v))
    ensures GetU32(b, off) == v
  {
    AtIndex(b, off, U32(v), 0);
    AtIndex(b, off, U32(v), 1);
    AtIndex(b, off, U32(v), 2);
    AtIndex(b, off, U32(v), 3);
    assert v / 256 == v / 0x1_0000 * 256 + v / 256 % 256;
    assert v / 0x1_0000 == v / 0x100_0000 * 256 + v / 0x1_0000 % 256;
  }

  /** An ASCII letter, as the case randomiser tests for it. */
  predicate IsLetter(b: byte) {
    0x41 <= b <= 0x5a || 0x61 <= b <= 0x7a
  }

  function LowerByte(b: byte): byte {
    if 0x41 <= b <= 0x5a then b + 0x20 else b
  }

  /** ASCII lower-casing of a string. */
  function Lower(s: bytes): (r: bytes)
    ensures |r| == |s|
    ensures forall i :: 0 <= i < |s| ==> r[i] == LowerByte(s[i])
  {
    seq(|s|, i requires 0 <= i < |s| => LowerByte(s[i]))
  }
}
