/** The bytes of a fixed-width unsigned integer as they lie in memory, for either byte order. */
module Bytes {

  type byte = x: int | 0 <= x < 256 witness 0

  function Pow256(w: nat): (p: nat)
    ensures p >= 1
  {
    if w == 0 then 1 else 256 * Pow256(w - 1)
  }

  /** Least significant byte first. */
  function LittleEndian(v: nat, w: nat): (s: seq<byte>)
    ensures |s| == w
  {
    if w == 0 then [] else [v % 256] + LittleEndian(v / 256, w - 1)
  }

  function FromLittleEndian(s: seq<byte>): (v: nat)
    ensures v < Pow256(|s|)
  {
    if s == [] then 0 else s[0] + 256 * FromLittleEndian(s[1..])
  }

  function Reverse(s: seq<byte>): (r: seq<byte>)
    ensures |r| == |s|
  {
    if s == [] then [] else Reverse(s[1..]) + [s[0]]
  }

  lemma {:induction false} ReverseAppends(s: seq<byte>, x: byte)
    ensures Reverse(s + [x]) == [x] + Reverse(s)
  {
    if s != [] {
      assert (s + [x])[1..] == s[1..] + [x];
      ReverseAppends(s[1..], x);
    }
  }

  lemma {:induction false} ReverseTwice(s: seq<byte>)
    ensures Reverse(Reverse(s)) == s
  {
    if s != [] {
      ReverseAppends(Reverse(s[1..]), s[0]);
      ReverseTwice(s[1..]);
    }
  }

  /** What evbuffer_add copies out of a variable of w bytes. */
  function Store(v: nat, w: nat, bigEndian: bool): (s: seq<byte>)
    ensures |s| == w
  {
    if bigEndian then Reverse(LittleEndian(v, w)) else LittleEndian(v, w)
  }

  /** What evbuffer_remove copies into one. */
  function Load(s: seq<byte>, bigEndian: bool): (v: nat)
    ensures v < Pow256(|s|)
  {
    FromLittleEndian(if bigEndian then Reverse(s) else s)
  }

  lemma {:induction false} LittleEndianRoundTrip(v: nat, w: nat)
    requires v < Pow256(w)
    ensures FromLittleEndian(LittleEndian(v, w)) == v
  {
    if w > 0 {
      LittleEndianRoundTrip(v / 256, w - 1);
      assert LittleEndian(v, w)[1..] == LittleEndian(v / 256, w - 1);
    }
  }

  /** Between hosts of the same byte order a value survives the trip. */
  lemma StoreLoad(v: nat, w: nat, bigEndian: bool)
    requires v < Pow256(w)
    ensures Load(Store(v, w, bigEndian), bigEndian) == v
  {
    LittleEndianRoundTrip(v, w);
    ReverseTwice(LittleEndian(v, w));
  }

  lemma Widths()
    ensures Pow256(2) == 0x1_0000 && Pow256(4) == 0x1_0000_0000
  {
    assert Pow256(1) == 256 && Pow256(3) == 256 * Pow256(2);
  }

  /** Byte by byte, from the least significant on or from the most significant on. */
  lemma FourBytes(v: nat)
    ensures Store(v, 4, false) == [v % 256, v / 256 % 256, v / 65536 % 256, v / 16777216 % 256]
    ensures Store(v, 4, true) == [v / 16777216 % 256, v / 65536 % 256, v / 256 % 256, v % 256]
  {
    var w := v / 256 / 256;
    assert w == v / 65536 && w / 256 == v / 16777216;
    assert LittleEndian(w / 256 / 256, 0) == [];
    assert LittleEndian(w, 2) == [w % 256, w / 256 % 256];
    assert LittleEndian(v, 4) == [v % 256] + ([v / 256 % 256] + LittleEndian(w, 2));
    var s := LittleEndian(v, 4);
    assert s == [v % 256, v / 256 % 256, w % 256, w / 256 % 256];
    ReverseFour(s[0], s[1], s[2], s[3]);
  }

  lemma TwoBytes(v: nat)
    ensures Store(v, 2, false) == [v % 256, v / 256 % 256] && Store(v, 2, true) == [v / 256 % 256, v % 256]
  {
    assert LittleEndian(v / 256 / 256, 0) == [];
    assert LittleEndian(v, 2) == [v % 256, v / 256 % 256];
    ReverseTwo(v % 256, v / 256 % 256);
  }

  lemma ReverseTwo(a: byte, b: byte)
    ensures Reverse([a, b]) == [b, a]
  {
    assert [a, b] == [a] + [b] && Reverse([a]) == [a];
    ReverseAppends([a], b);
  }

  lemma ReverseFour(a: byte, b: byte, c: byte, d: byte)
    ensures Reverse([a, b, c, d]) == [d, c, b, a]
  {
    assert [a, b, c] == [a, b] + [c] && [a, b, c, d] == [a, b, c] + [d];
    ReverseTwo(a, b);
    ReverseAppends([a, b], c);
    ReverseAppends([a, b, c], d);
  }
}
