/** The free map: one bit per block, eight to a byte, as balloc and bfree use it. */
module Bitmap {

  // A byte as its eight bits, least significant first.
  type Bits8 = s: seq<bool> | |s| == 8 witness [false, false, false, false, false, false, false, false]

  // data[b/8] & (1 << (b % 8))
  predicate Bit(bits: seq<Bits8>, b: nat)
    requires b / 8 < |bits|
  {
    bits[b / 8][b % 8]
  }

  // data[b/8] |= 1 << (b % 8), and data[b/8] &= ~(1 << (b % 8))
  function WithBit(bits: seq<Bits8>, b: nat, on: bool): (r: seq<Bits8>)
    requires b / 8 < |bits|
    ensures |r| == |bits|
    ensures forall c: nat :: c / 8 < |bits| ==> (Bit(r, c) <==> if c == b then on else Bit(bits, c))
  {
    var r := bits[b / 8 := bits[b / 8][b % 8 := on]];
    assert forall c: nat :: c / 8 == b / 8 && c % 8 == b % 8 ==> c == b;
    r
  }
}
