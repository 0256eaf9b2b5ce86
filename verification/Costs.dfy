/** What a write costs the log (crates/fs/src/fs.rs over crates/fs/src/log.rs): how often it calls log_write(), and how
    many different blocks it adds. */
module Costs {
  import opened Common
  import opened Blocks
  import opened Bitmap
  import opened Inodes
  import opened Contents

  /** Block bn has a byte of [off, off + n). */
  predicate Touched(off: nat, n: nat, bn: nat) {
    off < (bn + 1) * BSIZE && bn * BSIZE < off + n && n > 0
  }

  /** The bn-th block of the file is mapped, and was passed to log_write(). */
  ghost predicate BlockLogged(f: Fs, logged: set<nat>, i: nat, bn: nat) {
    && bn < MAXFILE && i in f.inode && SlotOf(f.inode[i], f.blocks, DataSlot(bn)) != 0
    && SlotOf(f.inode[i], f.blocks, DataSlot(bn)) in logged
  }

  lemma TouchedStep(off: nat, tot: nat, m: nat, bn: nat)
    requires 0 < m && (off + tot) % BSIZE + m <= BSIZE && Touched(off, tot + m, bn)
    ensures Touched(off, tot, bn) || bn == (off + tot) / BSIZE
  {
  }

  lemma TouchedTurn(off: nat, tot: nat, m: nat, bn: nat)
    requires 0 < m && (off + tot) % BSIZE + m <= BSIZE
    ensures Touched(off, tot + m, bn) <==> Touched(off, tot, bn) || bn == (off + tot) / BSIZE
  {
  }

  /** A piece of a write ends with the write or with its block. */
  lemma PieceEnds(cur: nat, left: nat)
    requires left > 0
    ensures var m := if left < BSIZE - cur % BSIZE then left else BSIZE - cur % BSIZE;
            0 < m <= left && cur % BSIZE + m <= BSIZE && (m == left || (cur + m) % BSIZE == 0)
  {
  }

  const CHUNK := 6656            // (LOGSIZE - 1 - 1 - 2) / 2 blocks

  // ---- Calls of log_write() ----

  /** The log_write() calls of bmap(): two for the bitmap and a zeroed block, and one for the entry that names it. */
  function MapCost(mapped: bool, indirect: bool, bn: nat): nat {
    if mapped then 0 else if bn < NDIRECT then 2 else if indirect then 3 else 5
  }

  /** The calls for one block of a write at or before the end of a file of `size` bytes: its own, and those of bmap(),
      which needs the indirect block together with its first entry. */
  function TurnCost1(size: nat, bn: nat): nat {
    1 + MapCost(bn * BSIZE < size, bn != NDIRECT, bn)
  }

  /** The calls for k blocks from block b0 on. */
  function TurnsCost(size: nat, b0: nat, k: nat): nat {
    if k == 0 then 0 else TurnsCost(size, b0, k - 1) + TurnCost1(size, b0 + k - 1)
  }

  /** How many blocks have a byte of [off, off + n). */
  function Turns(off: nat, n: nat): nat {
    if n == 0 then 0 else (off + n - 1) / BSIZE - off / BSIZE + 1
  }

  /** The calls of a whole writei(), the inode included if the file grows. */
  function Cost(size: nat, off: nat, n: nat): nat {
    TurnsCost(size, off / BSIZE, Turns(off, n)) + if n > 0 && off + n > size then 1 else 0
  }

  /** One turn of writei()'s loop in these terms. */
  lemma TurnCost(file: map<nat, Block>, size: nat, off: nat, tot: nat, m: nat)
    requires off <= size && DenseTo(file, Max(size, off + tot)) && (tot == 0 || (off + tot) % BSIZE == 0)
    requires 0 < m && (off + tot) % BSIZE + m <= BSIZE
    ensures var bn := (off + tot) / BSIZE;
            && bn == off / BSIZE + Turns(off, tot) && Turns(off, tot + m) == Turns(off, tot) + 1
            && 1 + MapCost(bn in file, Max(size, off + tot) > NDIRECT * BSIZE, bn) == TurnCost1(size, bn)
            && (Max(size, off + tot + m) > NDIRECT * BSIZE <==> Max(size, off + tot) > NDIRECT * BSIZE || bn >= NDIRECT)
  {
    var bn := (off + tot) / BSIZE;
    assert bn in file <==> bn * BSIZE < size;
  }

  /** How many of the blocks from b0 to b0 + k the file does not have yet. */
  function NewBlocks(size: nat, b0: nat, k: nat): nat {
    if k == 0 || (b0 + k - 1) * BSIZE < size then 0 else NewBlocks(size, b0, k - 1) + 1
  }

  /** Two calls for each new block, one for each new entry of the indirect block, and two for the indirect block. */
  lemma {:induction false} TurnsCostIs(size: nat, b0: nat, k: nat)
    ensures TurnsCost(size, b0, k) ==
            k + 2 * NewBlocks(size, b0, k) + NewEntries(size, b0, k)
            + if b0 <= NDIRECT < b0 + k && size <= NDIRECT * BSIZE then 2 else 0
    ensures k > 0 && (b0 + k - 1) * BSIZE < size ==> NewEntries(size, b0, k) == 0
  {
    if k > 0 {
      TurnsCostIs(size, b0, k - 1);
    }
  }

  function NewEntries(size: nat, b0: nat, k: nat): nat {
    if k == 0 || (b0 + k - 1) * BSIZE < size || b0 + k - 1 < NDIRECT then 0 else NewEntries(size, b0, k - 1) + 1
  }

  /** The first chunk of a new file takes 43 calls for 16 different blocks. */
  lemma FirstChunk()
    ensures Cost(0, 0, CHUNK) == 43 && Spread(1, 0, 0, CHUNK) == 16
  {
    TurnsCostIs(0, 0, 13);
    AllNew(0, 13);
    EntriesFrom(13);
  }

  lemma {:induction false} AllNew(b0: nat, k: nat)
    ensures NewBlocks(0, b0, k) == k
  {
    if k > 0 {
      AllNew(b0, k - 1);
    }
  }

  lemma {:induction false} EntriesFrom(k: nat)
    ensures NewEntries(0, 0, k) == if k <= NDIRECT then 0 else k - NDIRECT
  {
    if k > 0 {
      EntriesFrom(k - 1);
    }
  }

  // ---- Different blocks ----

  /** The write gives the file a block, that is, its last block is new. */
  predicate Adds(size: nat, off: nat, n: nat) {
    n > 0 && (off + n - 1) / BSIZE * BSIZE >= size
  }

  /** It gives the file a block that hangs from the indirect block. */
  predicate AddsEntry(size: nat, off: nat, n: nat) {
    Adds(size, off, n) && (off + n - 1) / BSIZE >= NDIRECT
  }

  predicate Grows(size: nat, off: nat, n: nat) {
    n > 0 && off + n > size
  }

  /** The blocks with the bytes of the write. */
  ghost function DataBlocks(g: Fs, i: nat, off: nat, n: nat): set<nat>
    requires i in g.inode
  {
    set bn | 0 <= bn < MAXFILE && Touched(off, n, bn) :: SlotOf(g.inode[i], g.blocks, DataSlot(bn))
  }

  /** The bitmap blocks of the blocks that have become owned. */
  ghost function Bitmaps(sb: Super, owner: map<nat, (nat, nat)>, owner': map<nat, (nat, nat)>): set<nat> {
    set c | c in owner' && c !in owner :: sb.bmapstart + c / BPB
  }

  /** The indirect block, if the bn-th block of a file hangs from it. */
  function Hook(ip: Inode, bn: nat): set<nat> {
    if bn >= NDIRECT then {ip.addrs[NDIRECT]} else {}
  }

  /** What bmap() logs for block bn, which becomes block b. */
  ghost function MapPrint(sb: Super, owner: map<nat, (nat, nat)>, owner': map<nat, (nat, nat)>,
                          ip: Inode, bn: nat, b: nat): set<nat>
  {
    {b} + Bitmaps(sb, owner, owner') + Hook(ip, bn)
  }

  /** What a write logs, but for the inode. */
  ghost function Footprint(f: Fs, g: Fs, i: nat, off: nat, n: nat): set<nat>
    requires i in f.inode && i in g.inode
  {
    DataBlocks(g, i, off, n) + Bitmaps(f.sb, f.owner, g.owner)
    + if AddsEntry(f.inode[i].size, off, n) then {g.inode[i].addrs[NDIRECT] as nat} else {}
  }

  /** What writei() logs. */
  ghost function Stamped(f: Fs, g: Fs, i: nat, off: nat, n: nat): set<nat>
    requires i in f.inode && i in g.inode
  {
    Footprint(f, g, i, off, n) + if Grows(f.inode[i].size, off, n) then {IBlock(f.sb, i)} else {}
  }

  /** How many bitmap blocks a disk has. */
  function BitmapBlocks(sb: Super): nat {
    sb.size / BPB + 1
  }

  ghost predicate InBitmapArea(sb: Super, b: nat) {
    sb.bmapstart <= b <= sb.bmapstart + sb.size / BPB
  }

  ghost function BitmapArea(sb: Super): set<nat> {
    set b | sb.bmapstart <= b <= sb.bmapstart + sb.size / BPB && InBitmapArea(sb, b)
  }

  /** How many different blocks a write logs at most, on a disk with this many bitmap blocks, but for the inode. */
  function SpreadData(bitmaps: nat, size: nat, off: nat, n: nat): nat {
    Turns(off, n) + (if Adds(size, off, n) then bitmaps else 0) + (if AddsEntry(size, off, n) then 1 else 0)
  }

  function Spread(bitmaps: nat, size: nat, off: nat, n: nat): nat {
    SpreadData(bitmaps, size, off, n) + if Grows(size, off, n) then 1 else 0
  }

  /** Later bytes of a write take no fewer blocks. */
  lemma SpreadMore(bitmaps: nat, size: nat, off: nat, n: nat, n': nat)
    requires n <= n'
    ensures SpreadData(bitmaps, size, off, n) <= SpreadData(bitmaps, size, off, n')
    ensures Adds(size, off, n) ==> Adds(size, off, n')
    ensures AddsEntry(size, off, n) ==> AddsEntry(size, off, n')
  {
    if 0 < n < n' {
      assert (off + n - 1) / BSIZE <= (off + n' - 1) / BSIZE;
    }
  }

  /** One turn of writei()'s loop: the file gets a block exactly if it did not have it. */
  lemma AddsTurn(file: map<nat, Block>, size: nat, off: nat, tot: nat, m: nat)
    requires off <= size && DenseTo(file, Max(size, off + tot)) && (tot == 0 || (off + tot) % BSIZE == 0)
    requires 0 < m && (off + tot) % BSIZE + m <= BSIZE
    ensures var bn := (off + tot) / BSIZE;
            && (Adds(size, off, tot + m) <==> bn !in file)
            && (AddsEntry(size, off, tot + m) <==> bn !in file && bn >= NDIRECT)
            && Turns(off, tot + m) == Turns(off, tot) + 1
    ensures Adds(size, off, tot) ==> Adds(size, off, tot + m)
    ensures AddsEntry(size, off, tot) ==> AddsEntry(size, off, tot + m)
  {
    var bn := (off + tot) / BSIZE;
    assert (off + tot + m - 1) / BSIZE == bn;
    assert bn in file <==> bn * BSIZE < size;
    SpreadMore(0, size, off, tot, tot + m);
  }

  // ---- Blocks against the number that an operation may log ----

  /** A write that begin_op()'s reservation covers, on a disk with one bitmap block. */
  predicate WithinBudget(size: nat, off: nat, n: nat) {
    Spread(1, size, off, n) <= MAXOPBLOCKS
  }

  /** A write that writei() accepts. */
  predicate Accepted(size: nat, off: nat, n: nat) {
    off <= size <= MAXBYTES && off + n <= MAXBYTES
  }

  const SAFE := 3073             // six blocks and a byte

  /** Longer writes do not fit, at some offset of some file. */
  lemma LongWriteMayNot(n: nat) returns (size: nat, off: nat)
    requires SAFE < n <= MAXBYTES
    ensures Accepted(size, off, n) && !WithinBudget(size, off, n)
  {
    size := if NDIRECT * BSIZE + BSIZE - 1 + n <= MAXBYTES then NDIRECT * BSIZE + BSIZE - 1 else 0;
    off := size;
    assert Turns(off, n) >= 8;
  }

  /** Writes of n bytes keep within the budget, whatever the file and the offset, exactly if n is at most SAFE. */
  lemma BudgetExact(n: nat)
    requires n <= MAXBYTES
    ensures (forall size: nat, off: nat | Accepted(size, off, n) :: WithinBudget(size, off, n)) <==> n <= SAFE
  {
    if n <= SAFE {
      forall size: nat, off: nat | Accepted(size, off, n) ensures WithinBudget(size, off, n) {
        assert Turns(off, n) <= 7;
      }
    } else {
      var size, off := LongWriteMayNot(n);
      assert Accepted(size, off, n) && !WithinBudget(size, off, n);
    }
  }

  /** A write that stays inside the file fits exactly if it has bytes of at most MAXOPBLOCKS blocks. */
  lemma OverwriteExact(size: nat, off: nat, n: nat)
    requires Accepted(size, off, n) && off + n <= size
    ensures WithinBudget(size, off, n) <==> Turns(off, n) <= MAXOPBLOCKS
  {
    assert !Adds(size, off, n);
  }

  /** A full chunk of filewrite() never fits. */
  lemma FullChunk(size: nat, off: nat)
    ensures !WithinBudget(size, off, CHUNK)
  {
    assert Turns(off, CHUNK) >= 13;
  }

  // ---- Counting the blocks of a write ----

  ghost function SlotBlocks(f: Fs, i: nat, bn: nat, n: nat): set<nat>
    requires i in f.inode && bn + n <= MAXFILE
  {
    if n == 0 then {} else SlotBlocks(f, i, bn, n - 1) + {SlotOf(f.inode[i], f.blocks, DataSlot(bn + n - 1))}
  }

  /** The slots of the blocks below bn are below this. */
  function SlotBound(bn: nat): nat {
    if bn <= NDIRECT then bn else bn + 1
  }

  lemma {:induction false} SlotBlocksCount(f: Fs, i: nat, bn: nat, n: nat)
    requires OwnInv(f) && i in f.inode && bn + n <= MAXFILE
    requires forall m | bn <= m < bn + n :: SlotOf(f.inode[i], f.blocks, DataSlot(m)) != 0
    ensures |SlotBlocks(f, i, bn, n)| == n
    ensures forall b | b in SlotBlocks(f, i, bn, n) ::
              b in f.owner && f.owner[b].0 == i && f.owner[b].1 < SlotBound(bn + n)
  {
    if n > 0 {
      SlotBlocksCount(f, i, bn, n - 1);
      var b := SlotOf(f.inode[i], f.blocks, DataSlot(bn + n - 1));
      assert b in f.owner && f.owner[b] == (i, DataSlot(bn + n - 1));
    }
  }

  lemma {:induction false} SlotBlocksCard(f: Fs, i: nat, bn: nat, n: nat)
    requires i in f.inode && bn + n <= MAXFILE
    ensures |SlotBlocks(f, i, bn, n)| <= n
    ensures forall m | bn <= m < bn + n :: SlotOf(f.inode[i], f.blocks, DataSlot(m)) in SlotBlocks(f, i, bn, n)
  {
    if n > 0 {
      SlotBlocksCard(f, i, bn, n - 1);
    }
  }

  lemma DataCard(g: Fs, i: nat, off: nat, n: nat)
    requires i in g.inode
    ensures |DataBlocks(g, i, off, n)| <= Turns(off, n)
  {
    hide SlotOf;
    var b0, k := off / BSIZE, Turns(off, n);
    forall bn | 0 <= bn < MAXFILE && Touched(off, n, bn) ensures b0 <= bn < b0 + k {}
    if b0 >= MAXFILE || n == 0 {
      assert DataBlocks(g, i, off, n) == {};
    } else {
      k := if b0 + k <= MAXFILE then k else MAXFILE - b0;
      SlotBlocksCard(g, i, b0, k);
      SubsetCard(DataBlocks(g, i, off, n), SlotBlocks(g, i, b0, k));
    }
  }

  lemma {:induction false} SlotBlocksLogged(f: Fs, logged: set<nat>, i: nat, bn: nat, n: nat)
    requires i in f.inode && bn + n <= MAXFILE
    requires forall m | bn <= m < bn + n :: SlotOf(f.inode[i], f.blocks, DataSlot(m)) in logged
    ensures SlotBlocks(f, i, bn, n) <= logged
  {
    if n > 0 {
      SlotBlocksLogged(f, logged, i, bn, n - 1);
    }
  }

  /** A full chunk that starts at a block boundary logs its 13 data blocks, more than an operation may. */
  lemma ChunkOverBudget(f: Fs, logged: set<nat>, i: nat, off: nat)
    requires OwnInv(f) && i in f.inode && off % BSIZE == 0
    requires forall bn: nat {:trigger BlockLogged(f, logged, i, bn)} | Touched(off, CHUNK, bn) ::
               BlockLogged(f, logged, i, bn)
    ensures |logged| >= CHUNK / BSIZE > MAXOPBLOCKS
  {
    var b0, n := off / BSIZE, CHUNK / BSIZE;
    forall m: nat | b0 <= m < b0 + n ensures BlockLogged(f, logged, i, m) {
      assert Touched(off, CHUNK, m);
    }
    var last := b0 + n - 1;
    assert BlockLogged(f, logged, i, last);
    forall m | b0 <= m < b0 + n
      ensures SlotOf(f.inode[i], f.blocks, DataSlot(m)) != 0 && SlotOf(f.inode[i], f.blocks, DataSlot(m)) in logged
    {
      assert BlockLogged(f, logged, i, m);
    }
    SlotBlocksCount(f, i, b0, n);
    SlotBlocksLogged(f, logged, i, b0, n);
    SubsetCard(SlotBlocks(f, i, b0, n), logged);
  }

  lemma {:induction false} SubsetCard(a: set<nat>, b: set<nat>)
    requires a <= b
    ensures |a| <= |b|
  {
    if a != {} {
      var x :| x in a;
      SubsetCard(a - {x}, b - {x});
    }
  }

  lemma UnionCard(a: set<nat>, b: set<nat>)
    ensures |a + b| <= |a| + |b| && (a !! b ==> |a + b| == |a| + |b|)
  {
    SubsetCard(b - a, b);
    assert a + b == a + (b - a);
    assert |a + (b - a)| == |a| + |b - a|;
    if a !! b {
      assert b - a == b;
    }
  }

  lemma {:induction false} AreaCount(lo: nat, k: nat, s: set<nat>)
    requires forall b: nat :: b in s <==> lo <= b < lo + k
    ensures |s| == k
  {
    if k > 0 {
      AreaCount(lo, k - 1, s - {lo + k - 1});
    }
  }

  lemma BitmapAreaCount(sb: Super)
    ensures |BitmapArea(sb)| == BitmapBlocks(sb)
  {
    AreaCount(sb.bmapstart, BitmapBlocks(sb), BitmapArea(sb));
  }

  lemma BitmapsInArea(g: Fs, owner: map<nat, (nat, nat)>)
    requires OwnInv(g)
    ensures Bitmaps(g.sb, owner, g.owner) <= BitmapArea(g.sb)
    ensures forall b | b in BitmapArea(g.sb) :: b < g.sb.datastart
  {
    forall c | c in g.owner && c !in owner ensures InBitmapArea(g.sb, g.sb.bmapstart + c / BPB) {
      assert HangsFrom(g, c);
      assert c / BPB <= g.sb.size / BPB;
    }
  }

  /** Ownership only grows. */
  ghost predicate Extends(owner: map<nat, (nat, nat)>, owner': map<nat, (nat, nat)>) {
    forall b | b in owner :: b in owner' && owner'[b] == owner[b]
  }

  lemma BitmapsTrans(sb: Super, a: map<nat, (nat, nat)>, b: map<nat, (nat, nat)>, c: map<nat, (nat, nat)>)
    requires Extends(a, b) && Extends(b, c)
    ensures Extends(a, c) && Bitmaps(sb, a, c) == Bitmaps(sb, a, b) + Bitmaps(sb, b, c)
  {
    forall x ensures x in Bitmaps(sb, a, c) <==> x in Bitmaps(sb, a, b) + Bitmaps(sb, b, c) {
      if x in Bitmaps(sb, a, c) {
        var k :| k in c && k !in a && x == sb.bmapstart + k / BPB;
        assert k in b || k !in b;
      }
    }
  }
}
