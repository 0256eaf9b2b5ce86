/** The free-block bitmap of crates/fs/src/fs.rs: one bit per block, least significant first. */
module Bitmap {
  import opened Blocks

  const BPB := 4096   // bitmap bits per block

  // ---- Bits of a number: `x & (1 << k) != 0`, `x | (1 << k)`, `x & !(1 << k)` ----

  predicate Bit(x: nat, k: nat) {
    if k == 0 then x % 2 == 1 else Bit(x / 2, k - 1)
  }

  function With(x: nat, k: nat): nat {
    if k == 0 then x / 2 * 2 + 1 else 2 * With(x / 2, k - 1) + x % 2
  }

  function Without(x: nat, k: nat): nat {
    if k == 0 then x / 2 * 2 else 2 * Without(x / 2, k - 1) + x % 2
  }

  function Pow2(w: nat): nat {
    if w == 0 then 1 else 2 * Pow2(w - 1)
  }

  lemma BitsOfWith(x: nat, k: nat, j: nat)
    ensures Bit(With(x, k), j) <==> j == k || Bit(x, j)
    ensures Bit(Without(x, k), j) <==> j != k && Bit(x, j)
  {
  }

  lemma WithBounded(x: nat, k: nat, w: nat)
    requires x < Pow2(w) && k < w
    ensures With(x, k) < Pow2(w) && Without(x, k) < Pow2(w)
  {
  }

  function ByteWith(x: Byte, k: nat, on: bool): Byte
    requires k < 8
  {
    assert Pow2(8) == 256;
    WithBounded(x, k, 8);
    if on then With(x, k) else Without(x, k)
  }

  // ---- The bitmap as a whole ----

  /** The bitmap starts at block `start`. */
  predicate Marked(blocks: seq<Block>, start: nat, b: nat)
    requires start + b / BPB < |blocks|
  {
    Bit(blocks[start + b / BPB][b % BPB / 8], b % 8)
  }

  function Mark(blocks: seq<Block>, start: nat, b: nat, on: bool): (r: seq<Block>)
    requires start + b / BPB < |blocks|
    ensures |r| == |blocks|
  {
    var k := start + b / BPB;
    var bi := b % BPB;
    blocks[k := blocks[k][bi / 8 := ByteWith(blocks[k][bi / 8], bi % 8, on)]]
  }

  /** Block of bits, byte and bit determine a block number. */
  lemma Place(b: nat, c: nat)
    ensures b % BPB % 8 == b % 8
    ensures b / BPB == c / BPB && b % BPB / 8 == c % BPB / 8 && b % 8 == c % 8 ==> b == c
  {
    Digits(b);
    Digits(c);
  }

  lemma Digits(b: nat)
    ensures b % BPB % 8 == b % 8 && b == BPB * (b / BPB) + 8 * (b % BPB / 8) + b % 8
  {
    var q, x := b / BPB, b % BPB;
    var m, t := x / 8, x % 8;
    assert b == 8 * (512 * q + m) + t;
    Eight(512 * q + m, t);
  }

  lemma Eight(k: nat, t: nat)
    requires t < 8
    ensures (8 * k + t) % 8 == t
  {
  }

  /** Marking one block changes that block's bit and no other. */
  lemma MarkOne(blocks: seq<Block>, start: nat, b: nat, on: bool, c: nat)
    requires start + b / BPB < |blocks| && start + c / BPB < |blocks|
    ensures Marked(Mark(blocks, start, b, on), start, c) <==> if c == b then on else Marked(blocks, start, c)
  {
    hide Bit, With, Without;
    Place(b, c);
    if b / BPB == c / BPB && b % BPB / 8 == c % BPB / 8 {
      BitsOfWith(blocks[start + b / BPB][b % BPB / 8], b % 8, c % 8);
    }
  }
}
