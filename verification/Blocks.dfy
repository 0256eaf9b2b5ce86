/** Disk blocks as byte sequences, and the little-endian 32-bit words the kernel overlays on them. */
module Blocks {

  const BSIZE := 512
  const WORDS := 128          // BSIZE / size_of::<u32>()
  const TWO32 := 0x1_0000_0000

  type Byte = b: int | 0 <= b < 256
  type Block = s: seq<Byte> | |s| == BSIZE witness seq(BSIZE, _ => 0)
  type U32 = w: int | 0 <= w < TWO32

  const ZEROS: Block := Zeros()

  function Zeros(): Block {
    seq(BSIZE, _ => 0)
  }

  function Word(b: Block, i: nat): U32
    requires i < WORDS
  {
    var b0: int, b1: int, b2: int, b3: int := b[4 * i], b[4 * i + 1], b[4 * i + 2], b[4 * i + 3];
    b0 + 0x100 * b1 + 0x1_0000 * b2 + 0x100_0000 * b3
  }

  function SetWord(b: Block, i: nat, w: U32): Block
    requires i < WORDS
  {
    b[4 * i := w % 0x100][4 * i + 1 := w / 0x100 % 0x100]
     [4 * i + 2 := w / 0x1_0000 % 0x100][4 * i + 3 := w / 0x100_0000]
  }

  /** The four bytes of a word make it up. */
  lemma FourBytes(w: U32)
    ensures w % 0x100 + 0x100 * (w / 0x100 % 0x100) + 0x1_0000 * (w / 0x1_0000 % 0x100)
            + 0x100_0000 * (w / 0x100_0000) == w
  {
    var w1, w2 := w / 0x100, w / 0x1_0000;
    assert w1 / 0x100 == w2 && w2 / 0x100 == w / 0x100_0000;
    assert w == w1 * 0x100 + w % 0x100 && w1 == w2 * 0x100 + w1 % 0x100 && w2 == w / 0x100_0000 * 0x100 + w2 % 0x100;
  }

  lemma WordSet(b: Block, i: nat, w: U32, j: nat)
    requires i < WORDS && j < WORDS
    ensures Word(SetWord(b, i, w), j) == if i == j then w else Word(b, j)
  {
    var r := SetWord(b, i, w);
    if i == j {
      FourBytes(w);
      assert r[4 * i + 3] == w / 0x100_0000 && r[4 * i + 2] == w / 0x1_0000 % 0x100;
      assert r[4 * i + 1] == w / 0x100 % 0x100 && r[4 * i] == w % 0x100;
    } else {
      assert r[4 * j] == b[4 * j] && r[4 * j + 1] == b[4 * j + 1];
      assert r[4 * j + 2] == b[4 * j + 2] && r[4 * j + 3] == b[4 * j + 3];
    }
  }

  lemma WordZeros(i: nat)
    requires i < WORDS
    ensures Word(ZEROS, i) == 0
  {
  }
}
