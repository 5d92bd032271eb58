/** Bytes, big-endian words, addresses and where a piece of a buffer lies. */
module Octets {
  type byte = b: int | 0 <= b < 0x100
  type u16 = w: int | 0 <= w < 0x1_0000

  datatype Address = V4(octets: seq<byte>) | V6(octets: seq<byte>)

  function Word(w: u16): (s: seq<byte>)
    ensures |s| == 2
  {
    [w / 256, w % 256]
  }

  function Value(high: byte, low: byte): u16 {
    high * 256 + low
  }

  function U16At(b: seq<byte>, off: nat): u16
    requires off + 1 < |b|
  {
    Value(b[off], b[off + 1])
  }

  /** The bytes `part` stand at `off`. */
  predicate At(b: seq<byte>, off: nat, part: seq<byte>) {
    off + |part| <= |b| && b[off..off + |part|] == part
  }

  lemma AtConcat(b: seq<byte>, off: nat, x: seq<byte>, y: seq<byte>)
    ensures At(b, off, x + y) <==> At(b, off, x) && At(b, off + |x|, y)
  {
    var n := off + |x| + |y|;
    if n <= |b| {
      assert b[off..n] == b[off..off + |x|] + b[off + |x|..n];
      if At(b, off, x + y) {
        assert b[off..off + |x|] == b[off..n][..|x|] == (x + y)[..|x|] == x;
        assert b[off + |x|..n] == b[off..n][|x|..] == (x + y)[|x|..] == y;
      }
    }
  }

  lemma AtIndex(b: seq<byte>, off: nat, part: seq<byte>, i: nat)
    requires At(b, off, part) && i < |part|
    ensures b[off + i] == part[i]
  {
    assert b[off + i] == b[off..off + |part|][i];
  }

  lemma WordAt(b: seq<byte>, off: nat, w: u16)
    requires At(b, off, Word(w))
    ensures U16At(b, off) == w
  {
    AtIndex(b, off, Word(w), 0);
    AtIndex(b, off, Word(w), 1);
  }
}
