/** How many blocks a write adds to the log, and what two chunks of filewrite() (crates/fs/src/file.rs) do to the log
    that mkfs makes. */
module Chunks {
  import opened Common
  import opened Blocks
  import opened Bitmap
  import opened Inodes
  import opened Contents
  import opened Costs
  import opened Files

  /** What matters here of a write of n bytes to file i, on a disk with one bitmap block. */
  ghost predicate Wrote(f: Fs, g: Fs, i: nat, off: nat, n: nat) {
    && OwnInv(f) && OwnInv(g) && g.sb == f.sb && BitmapBlocks(f.sb) == 1 && i in f.inode && i in g.inode
    && DenseTo(FileOf(f.inode[i], f.blocks), f.inode[i].size)
    && DenseTo(FileOf(g.inode[i], g.blocks), Max(f.inode[i].size, off + n))
    && Extends(f.owner, g.owner) && (!Adds(f.inode[i].size, off, n) ==> g.owner == f.owner)
  }

  lemma WroteSlots(f: Fs, g: Fs, i: nat, off: nat, n: nat, bn: nat)
    requires Wrote(f, g, i, off, n) && Touched(off, n, bn)
    ensures bn < MAXFILE && i in g.inode && SlotOf(g.inode[i], g.blocks, DataSlot(bn)) != 0
  {
    assert bn in FileOf(g.inode[i], g.blocks);
  }

  /** The blocks with the bytes of the write are as many as it touches. */
  lemma DataCount(f: Fs, g: Fs, i: nat, off: nat, n: nat)
    requires Wrote(f, g, i, off, n)
    ensures |DataBlocks(g, i, off, n)| == Turns(off, n)
    ensures forall b | b in DataBlocks(g, i, off, n) :: b in g.owner && g.owner[b].0 == i && g.owner[b].1 != NDIRECT
  {
    hide SlotOf, FileOf, Bitmaps;
    var b0, k := off / BSIZE, Turns(off, n);
    forall bn | 0 <= bn < MAXFILE && Touched(off, n, bn) ensures b0 <= bn < b0 + k {}
    if n > 0 {
      forall bn | b0 <= bn < b0 + k
        ensures bn < MAXFILE && Touched(off, n, bn) && SlotOf(g.inode[i], g.blocks, DataSlot(bn)) != 0
      {
        assert Touched(off, n, bn);
        WroteSlots(f, g, i, off, n, bn);
      }
      assert b0 + k - 1 < MAXFILE;
      SlotBlocksCount(g, i, b0, k);
      SlotBlocksCard(g, i, b0, k);
      SpanIs(g, i, off, n, b0, k);
    } else {
      assert DataBlocks(g, i, off, n) == {};
    }
    forall b | b in DataBlocks(g, i, off, n) ensures b in g.owner && g.owner[b].0 == i && g.owner[b].1 != NDIRECT {
      var bn :| 0 <= bn < MAXFILE && Touched(off, n, bn) && b == SlotOf(g.inode[i], g.blocks, DataSlot(bn));
      WroteSlots(f, g, i, off, n, bn);
    }
  }

  lemma {:induction false} SpanIs(g: Fs, i: nat, off: nat, n: nat, b0: nat, k: nat)
    requires i in g.inode && b0 + k <= MAXFILE
    requires forall bn | 0 <= bn < MAXFILE :: Touched(off, n, bn) <==> b0 <= bn < b0 + k
    ensures DataBlocks(g, i, off, n) == SlotBlocks(g, i, b0, k)
  {
    hide SlotOf, Touched;
    SlotBlocksCard(g, i, b0, k);
    forall b | b in SlotBlocks(g, i, b0, k) ensures b in DataBlocks(g, i, off, n) {
      InSpan(g, i, b0, k, b);
      var bn :| b0 <= bn < b0 + k && b == SlotOf(g.inode[i], g.blocks, DataSlot(bn));
      assert Touched(off, n, bn);
    }
  }

  lemma {:induction false} InSpan(g: Fs, i: nat, b0: nat, k: nat, b: nat)
    requires i in g.inode && b0 + k <= MAXFILE && b in SlotBlocks(g, i, b0, k)
    ensures exists bn | b0 <= bn < b0 + k :: b == SlotOf(g.inode[i], g.blocks, DataSlot(bn))
  {
    if k > 0 && b != SlotOf(g.inode[i], g.blocks, DataSlot(b0 + k - 1)) {
      InSpan(g, i, b0, k - 1, b);
    }
  }

  /** The bitmap block is logged exactly if the file gets a block. */
  lemma BitmapCount(f: Fs, g: Fs, i: nat, off: nat, n: nat)
    requires Wrote(f, g, i, off, n)
    ensures Bitmaps(f.sb, f.owner, g.owner) == if Adds(f.inode[i].size, off, n) then {f.sb.bmapstart} else {}
  {
    hide FileOf;
    forall c | c in g.owner ensures c / BPB == 0 { assert HangsFrom(g, c); }
    if Adds(f.inode[i].size, off, n) {
      var last := (off + n - 1) / BSIZE;
      assert Touched(off, n, last);
      WroteSlots(f, g, i, off, n, last);
      var b := SlotOf(g.inode[i], g.blocks, DataSlot(last));
      assert b in g.owner && g.owner[b] == (i, DataSlot(last));
      if b in f.owner {
        assert HangsFrom(f, b);
        MappedSlot(f, i, last);
        assert false;
      }
    } else {
      BitmapsSelf(f.sb, f.owner);
    }
  }

  /** The parts of what a write logs, all different blocks. */
  lemma StampedParts(f: Fs, g: Fs, i: nat, off: nat, n: nat)
    returns (a: set<nat>, b: set<nat>, c: set<nat>, d: set<nat>)
    requires Wrote(f, g, i, off, n)
    ensures Stamped(f, g, i, off, n) == a + b + c + d && a !! b !! c !! d
    ensures |a| == Turns(off, n) && b == if Adds(f.inode[i].size, off, n) then {f.sb.bmapstart} else {}
    ensures |c| == if AddsEntry(f.inode[i].size, off, n) then 1 else 0
    ensures d == if Grows(f.inode[i].size, off, n) then {IBlock(f.sb, i)} else {}
    ensures forall x | x in a + c :: x in g.owner && g.owner[x].0 == i
  {
    hide DataBlocks, Bitmaps, OwnInv, FileOf, Extends, Turns, DenseTo, IBlock, Adds, AddsEntry, Grows;
    var size := f.inode[i].size;
    DataCount(f, g, i, off, n);
    BitmapCount(f, g, i, off, n);
    InodeBlock(g, i);
    a, b := DataBlocks(g, i, off, n), Bitmaps(f.sb, f.owner, g.owner);
    c := if AddsEntry(size, off, n) then {g.inode[i].addrs[NDIRECT] as nat} else {};
    d := if Grows(size, off, n) then {IBlock(f.sb, i)} else {};
    if AddsEntry(size, off, n) {
      HookOwned(f, g, i, off, n);
    }
    forall x | x in a ensures x >= g.sb.datastart { OwnedHigh(g, x); }
    assert f.sb.bmapstart !in a + c && IBlock(f.sb, i) !in a + c;
    assert IBlock(f.sb, i) != f.sb.bmapstart;
  }

  /** What a write adds to an empty transaction: the blocks it touches, the bitmap block if the file gets a block, the
      indirect block if it gets an entry, and the inode block if it grows. */
  lemma StampedCount(f: Fs, g: Fs, i: nat, off: nat, n: nat)
    requires Wrote(f, g, i, off, n)
    ensures |Stamped(f, g, i, off, n)| == Spread(1, f.inode[i].size, off, n)
    ensures forall b | b in Stamped(f, g, i, off, n) ::
              b == f.sb.bmapstart || b == IBlock(f.sb, i) || (b in g.owner && g.owner[b].0 == i)
  {
    hide Stamped, Wrote, Turns, IBlock, Adds, AddsEntry, Grows;
    var a, b, c, d := StampedParts(f, g, i, off, n);
    FourDisjoint(a, b, c, d);
  }

  lemma FourDisjoint(a: set<nat>, b: set<nat>, c: set<nat>, d: set<nat>)
    requires a !! b !! c !! d
    ensures |a + b + c + d| == |a| + |b| + |c| + |d|
  {
    UnionCard(a, b);
    UnionCard(a + b, c);
    UnionCard(a + b + c, d);
  }

  lemma HookOwned(f: Fs, g: Fs, i: nat, off: nat, n: nat)
    requires Wrote(f, g, i, off, n) && AddsEntry(f.inode[i].size, off, n)
    ensures var ind := g.inode[i].addrs[NDIRECT];
            ind in g.owner && g.owner[ind] == (i, NDIRECT) && ind >= g.sb.datastart
  {
    hide FileOf;
    var last := (off + n - 1) / BSIZE;
    assert last in FileOf(g.inode[i], g.blocks);
    EntryMapped(g, i, last - NDIRECT);
    assert SlotOf(g.inode[i], g.blocks, NDIRECT) == g.inode[i].addrs[NDIRECT];
    assert HangsFrom(g, g.inode[i].addrs[NDIRECT]);
  }

  /** The first chunks of two new files have only the bitmap block and an inode block in common. */
  lemma TwoCount(f: Fs, g: Fs, h: Fs, i: nat, j: nat)
    requires Wrote(f, g, i, 0, CHUNK) && Wrote(g, h, j, 0, CHUNK) && i != j
    requires f.inode[i].size == 0 && g.inode[j].size == 0
    ensures |Stamped(f, g, i, 0, CHUNK) + Stamped(g, h, j, 0, CHUNK)| >= 30
  {
    hide Stamped, Spread, OwnInv, Extends;
    FirstChunk();
    StampedCount(f, g, i, 0, CHUNK);
    StampedCount(g, h, j, 0, CHUNK);
    var x, y := Stamped(f, g, i, 0, CHUNK), Stamped(g, h, j, 0, CHUNK);
    forall z | z in x * y ensures z in {f.sb.bmapstart, IBlock(f.sb, i)} {
      Apart(f, g, h, i, j, z);
    }
    SubsetCard(x * y, {f.sb.bmapstart, IBlock(f.sb, i)});
    assert |x + y| == |x| + |y| - |x * y|;
  }

  lemma OwnedHigh(g: Fs, b: nat)
    requires OwnInv(g) && b in g.owner
    ensures g.sb.datastart <= b
  {
    assert HangsFrom(g, b);
  }

  lemma Apart(f: Fs, g: Fs, h: Fs, i: nat, j: nat, z: nat)
    requires Wrote(f, g, i, 0, CHUNK) && Wrote(g, h, j, 0, CHUNK) && i != j
    requires z == f.sb.bmapstart || z == IBlock(f.sb, i) || (z in g.owner && g.owner[z].0 == i)
    requires z == g.sb.bmapstart || z == IBlock(g.sb, j) || (z in h.owner && h.owner[z].0 == j)
    ensures z == f.sb.bmapstart || z == IBlock(f.sb, i)
  {
    InodeBlock(g, i);
    InodeBlock(h, j);
    if z in g.owner {
      OwnedHigh(g, z);
    }
  }

  lemma WroteIs(f: Fs, g: Fs, i: nat, off: nat, src: seq<Byte>)
    requires Written(f, g, i, off, src) && g.sb == f.sb && BitmapBlocks(f.sb) == 1 && Extends(f.owner, g.owner)
    requires !Adds(f.inode[i].size, off, |src|) ==> g.owner == f.owner
    ensures Wrote(f, g, i, off, |src|) && forall j | j in f.inode && j != i :: j in g.inode && g.inode[j] == f.inode[j]
  {
    hide Splice, FileOf, Bytes;
  }

  /** Two operations that are admitted together, with the first chunk of a new file each: on the log that mkfs makes,
      which takes 29 blocks, the second one ends in "too big a transaction", unless a block cannot be had before. */
  method TwoFirstChunks(fs: FileSystem, i: nat, j: nat, a: seq<Byte>, b: seq<Byte>) returns (r: Io)
    requires FsInv(fs.F()) && i in fs.inode && j in fs.inode && i != j && BitmapBlocks(fs.sb) == 1
    requires fs.inode[i].itype != T_DEV && fs.inode[i].size == 0 && fs.inode[j].itype != T_DEV && fs.inode[j].size == 0
    requires |a| == |b| == CHUNK && fs.room <= 29
    modifies fs
    ensures r == Panic(LogFull) || (r == Panic(DiskFull) && FullDisk(fs.F()))
  {
    hide FsInv, Stamped, Splice, BlockLogged, OnlyLogged, FullDisk;
    ghost var f, l0 := fs.F(), fs.logged;
    r := fs.Writei(i, 0, a);
    if r.Done? {
      ghost var g, l1 := fs.F(), fs.logged;
      r := fs.Writei(j, 0, b);
      if r.Done? {
        WroteIs(f, g, i, 0, a);
        WroteIs(g, fs.F(), j, 0, b);
        TwoCount(f, g, fs.F(), i, j);
        SubsetCard(Stamped(f, g, i, 0, CHUNK) + Stamped(g, fs.F(), j, 0, CHUNK), fs.logged);
        assert false;
      }
    }
  }
}
