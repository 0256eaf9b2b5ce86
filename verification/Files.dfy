/** The block allocator, block map and file contents of crates/fs/src/fs.rs. `blocks` is the file system as the
    buffer cache shows it (module Bio calls it the view); `logged` has the blocks of the transaction so far, those
    of other operations in it included, and `calls` counts the calls of log_write(). */
module Files {
  import opened Common
  import opened Blocks
  import opened Bitmap
  import opened Inodes
  import opened Contents
  import opened Costs

  const T_DIR := 1
  const T_FILE := 2
  const T_DEV := 3

  lemma BitPlace(b: nat, bi: nat)
    requires b % BPB == 0 && bi < BPB
    ensures (b + bi) / BPB == b / BPB && (b + bi) % BPB == bi && (b + bi) % 8 == bi % 8
  {
  }

  /** Nothing but inode i's block list and blocks, and the bitmap, may differ. */
  ghost predicate OnlyFile(f: Fs, g: Fs, i: nat) {
    && g.sb == f.sb && |g.blocks| == |f.blocks| && i in f.inode && g.inode.Keys == f.inode.Keys
    && (forall j | j in f.inode && j != i :: g.inode[j] == f.inode[j])
    && g.inode[i] == f.inode[i].(addrs := g.inode[i].addrs)
    && (forall k | f.sb.inodestart <= k < f.sb.bmapstart && k < |f.blocks| :: g.blocks[k] == f.blocks[k])
    && (forall j | j in f.inode && j != i :: FileOf(g.inode[j], g.blocks) == FileOf(f.inode[j], f.blocks))
    && (forall s {:trigger SlotStays(f, g, i, s)} | 0 <= s < NSLOTS :: SlotStays(f, g, i, s))
  }

  /** A slot that holds a block goes on holding it. */
  ghost predicate SlotStays(f: Fs, g: Fs, i: nat, s: nat)
    requires i in f.inode && i in g.inode && s < NSLOTS
  {
    SlotOf(f.inode[i], f.blocks, s) != 0 ==> SlotOf(g.inode[i], g.blocks, s) == SlotOf(f.inode[i], f.blocks, s)
  }

  lemma OnlyFileTrans(f: Fs, g: Fs, h: Fs, i: nat)
    requires OnlyFile(f, g, i) && OnlyFile(g, h, i)
    ensures OnlyFile(f, h, i)
  {
    forall j | j in f.inode && j != i ensures FileOf(h.inode[j], h.blocks) == FileOf(f.inode[j], f.blocks) {
      assert FileOf(g.inode[j], g.blocks) == FileOf(f.inode[j], f.blocks);
    }
    forall s | 0 <= s < NSLOTS ensures SlotStays(f, h, i, s) { assert SlotStays(f, g, i, s) && SlotStays(g, h, i, s); }
  }

  /** Filling a slot changes one file only, and that one only by a block of zeros. */
  lemma PlusEffect(f: Fs, g: Fs, i: nat, s: nat, nb: nat)
    requires OwnInv(f) && Free(f, nb) && SlotPlus(f, g, i, s, nb) && DataKept(f, g.blocks) && g.blocks[nb] == ZEROS
    requires forall j | j in f.inode && j != i :: g.inode[j] == f.inode[j]
    requires g.inode[i] == f.inode[i].(addrs := g.inode[i].addrs)
    requires forall k | f.sb.inodestart <= k < f.sb.bmapstart && k < |f.blocks| :: g.blocks[k] == f.blocks[k]
    ensures OnlyFile(f, g, i)
    ensures s == NDIRECT ==> FileOf(g.inode[i], g.blocks) == FileOf(f.inode[i], f.blocks)
    ensures s != NDIRECT ==>
              FileOf(g.inode[i], g.blocks) == FileOf(f.inode[i], f.blocks)[(if s < NDIRECT then s else s - 1) := ZEROS]
  {
    hide OwnInv, SlotOf, FileOf, SlotStays, DataKept;
    forall j | j in f.inode && j != i ensures FileOf(g.inode[j], g.blocks) == FileOf(f.inode[j], f.blocks) {
      SlotPlusOther(f, g, i, s, nb, j);
    }
    if s == NDIRECT {
      SlotPlusOther(f, g, i, s, nb, i);
    } else {
      SlotPlusMine(f, g, i, if s < NDIRECT then s else s - 1, nb);
    }
    PlusStays(f, g, i, s, nb);
  }

  lemma PlusStays(f: Fs, g: Fs, i: nat, s: nat, nb: nat)
    requires OwnInv(f) && SlotPlus(f, g, i, s, nb)
    ensures forall t {:trigger SlotStays(f, g, i, t)} | 0 <= t < NSLOTS :: SlotStays(f, g, i, t)
  {
    hide SlotOf, OwnInv, FileOf;
    forall t | 0 <= t < NSLOTS ensures SlotStays(f, g, i, t) { assert SlotAgrees(f, g, i, s, nb, i, t); }
  }

  lemma DirectEffect(f: Fs, i: nat, s: nat, nb: nat) returns (g: Fs)
    requires OwnInv(f) && i in f.inode && s <= NDIRECT && f.inode[i].addrs[s] == 0 && Free(f, nb)
    ensures g.sb == f.sb && g.blocks == Given(f, nb) && g.owner == f.owner[nb := (i, s)]
    ensures 0 < nb < TWO32 && g.inode == f.inode[i := f.inode[i].(addrs := f.inode[i].addrs[s := nb])]
    ensures OwnInv(g) && OnlyFile(f, g, i)
    ensures FileOf(g.inode[i], g.blocks) ==
              var F := FileOf(f.inode[i], f.blocks); if s < NDIRECT then F[s := ZEROS] else F
  {
    AllocDirect(f, i, s, nb);
    GivenBlocks(f, nb);
    g := WithDirect(f, i, s, nb);
    PlusEffect(f, g, i, s, nb);
  }

  lemma EntryEffect(f: Fs, i: nat, k: nat, nb: nat) returns (g: Fs)
    requires OwnInv(f) && i in f.inode && k < NINDIRECT && Free(f, nb)
    requires f.inode[i].addrs[NDIRECT] != 0 && SlotOf(f.inode[i], f.blocks, NDIRECT + 1 + k) == 0
    ensures f.inode[i].addrs[NDIRECT] < |f.blocks| && f.inode[i].addrs[NDIRECT] != nb && 0 < nb < TWO32
    ensures var ind := f.inode[i].addrs[NDIRECT];
            && Given(f, nb)[ind] == f.blocks[ind]
            && g.blocks == Given(f, nb)[ind := SetWord(f.blocks[ind], k, nb)]
    ensures g.sb == f.sb && g.inode == f.inode && g.owner == f.owner[nb := (i, NDIRECT + 1 + k)]
    ensures OwnInv(g) && OnlyFile(f, g, i)
    ensures SlotOf(g.inode[i], g.blocks, NDIRECT + 1 + k) == nb
    ensures FileOf(g.inode[i], g.blocks) == FileOf(f.inode[i], f.blocks)[NDIRECT + k := ZEROS]
  {
    hide FileOf, OnlyFile, SetWord, Word;
    AllocEntry(f, i, k, nb);
    GivenBlocks(f, nb);
    g := WithEntry(f, i, k, nb);
    assert SlotAgrees(f, g, i, NDIRECT + 1 + k, nb, i, NDIRECT + 1 + k);
    var ind := f.inode[i].addrs[NDIRECT];
    assert SlotOf(f.inode[i], f.blocks, NDIRECT) == ind;
    assert HangsFrom(f, ind);
    PlusEffect(f, g, i, NDIRECT + 1 + k, nb);
  }

  /** What bmap() does: a mapped block is left alone, an unmapped one becomes a block of zeros. */
  ghost predicate Mapped(f: Fs, g: Fs, i: nat, bn: nat) {
    && OnlyFile(f, g, i)
    && var F := FileOf(f.inode[i], f.blocks);
       && FileOf(g.inode[i], g.blocks) == (if bn in F then F else F[bn := ZEROS])
       && (bn in F ==> g == f)
  }

  /** Slot s of inode i holds block b, and does so since before unless the slot was empty. */
  ghost predicate SlotFilled(f: Fs, g: Fs, i: nat, s: nat, b: nat, l: set<nat>, l': set<nat>, calls: int) {
    && OwnInv(g) && i in f.inode && i in g.inode && OnlyFile(f, g, i) && s <= NDIRECT && b == g.inode[i].addrs[s] != 0
    && OnlyLogged(f.blocks, g.blocks, l') && Extends(f.owner, g.owner)
    && (g.inode[i].addrs[NDIRECT] == f.inode[i].addrs[NDIRECT] || s == NDIRECT)
    && if f.inode[i].addrs[s] != 0 then
         g == f && l' == l && calls == 0
       else
         && FileOf(g.inode[i], g.blocks) ==
            (var F := FileOf(f.inode[i], f.blocks); if s < NDIRECT then F[s := ZEROS] else F)
         && l' == l + {b} + Bitmaps(f.sb, f.owner, g.owner) && calls == 2
  }

  /** Entry k of the indirect block of inode i holds block b, and does so since before unless the entry was empty. */
  ghost predicate EntryFilled(f: Fs, g: Fs, i: nat, k: nat, b: nat, l: set<nat>, l': set<nat>, calls: int) {
    && OwnInv(g) && i in f.inode && g.inode == f.inode && k < NINDIRECT && Mapped(f, g, i, NDIRECT + k)
    && b != 0 && b == SlotOf(g.inode[i], g.blocks, NDIRECT + 1 + k)
    && OnlyLogged(f.blocks, g.blocks, l') && Extends(f.owner, g.owner)
    && if SlotOf(f.inode[i], f.blocks, NDIRECT + 1 + k) != 0 then
         g == f && l' == l && calls == 0
       else
         l' == l + MapPrint(f.sb, f.owner, g.owner, g.inode[i], NDIRECT + k, b) && calls == 3
  }

  /** The bn-th block of inode i is block b, what bmap() logged for that, and the calls it made. */
  ghost predicate MapDone(f: Fs, g: Fs, i: nat, bn: nat, b: nat, l: set<nat>, l': set<nat>, calls: int) {
    && bn < MAXFILE && OwnInv(g) && i in f.inode && i in g.inode && Mapped(f, g, i, bn) && Extends(f.owner, g.owner)
    && b != 0 && b == SlotOf(g.inode[i], g.blocks, DataSlot(bn)) && OnlyLogged(f.blocks, g.blocks, l')
    && (g.inode[i].addrs[NDIRECT] != 0 <==> f.inode[i].addrs[NDIRECT] != 0 || bn >= NDIRECT)
    && var mapped := bn in FileOf(f.inode[i], f.blocks);
       && l' == (if mapped then l else l + MapPrint(f.sb, f.owner, g.owner, g.inode[i], bn, b))
       && calls == MapCost(mapped, f.inode[i].addrs[NDIRECT] != 0, bn)
  }

  lemma DirectDone(f: Fs, g: Fs, i: nat, bn: nat, b: nat, l: set<nat>, l': set<nat>, calls: int)
    requires OwnInv(f) && bn < NDIRECT && SlotFilled(f, g, i, bn, b, l, l', calls)
    ensures MapDone(f, g, i, bn, b, l, l', calls)
  {
    hide OwnInv, SlotOf, FileOf, OnlyFile, OnlyLogged, Extends, Bitmaps;
    DirectWord(f, i, bn);
    DirectWord(g, i, bn);
  }

  lemma IndirectFilled(f: Fs, g: Fs, i: nat, k: nat, ind: nat, l: set<nat>, l': set<nat>, calls: int)
    requires OwnInv(f) && k < NINDIRECT && SlotFilled(f, g, i, NDIRECT, ind, l, l', calls)
    ensures OwnInv(g) && i in g.inode && ind == g.inode[i].addrs[NDIRECT] != 0
    ensures f.inode[i].addrs[NDIRECT] != 0 ==> g.inode[i].addrs[NDIRECT] == f.inode[i].addrs[NDIRECT]
    ensures NDIRECT + k in FileOf(f.inode[i], f.blocks) ==> SlotOf(g.inode[i], g.blocks, NDIRECT + 1 + k) != 0
  {
    hide OwnInv, SlotOf, FileOf, OnlyFile, OnlyLogged, Extends, Bitmaps;
    EntryMapped(f, i, k);
  }

  lemma EntryDone(f: Fs, g: Fs, h: Fs, i: nat, k: nat, ind: nat, b: nat, l: set<nat>, l1: set<nat>, l2: set<nat>,
                  calls: int, calls': int)
    requires OwnInv(f) && SlotFilled(f, g, i, NDIRECT, ind, l, l1, calls) && EntryFilled(g, h, i, k, b, l1, l2, calls')
    ensures MapDone(f, h, i, NDIRECT + k, b, l, l2, calls + calls')
  {
    hide OwnInv, SlotOf, FileOf, OnlyFile, OnlyLogged, Extends, Bitmaps;
    EntryMapped(f, i, k);
    EntryWord(g, i, k);
    OnlyFileTrans(f, g, h, i);
    OnlyLoggedTrans(f.blocks, g.blocks, h.blocks, l1, l2);
    BitmapsTrans(f.sb, f.owner, g.owner, h.owner);
    BitmapsSelf(f.sb, f.owner);
    SameSb(f, g, i);
  }

  lemma SameSb(f: Fs, g: Fs, i: nat)
    requires OnlyFile(f, g, i)
    ensures g.sb == f.sb
  {
  }

  lemma MapKept(f: Fs, g: Fs, i: nat, bn: nat, b: nat, l: set<nat>, l': set<nat>, calls: int)
    requires MapDone(f, g, i, bn, b, l, l', calls) && bn in FileOf(f.inode[i], f.blocks)
    ensures g == f && l' == l && calls == 0 && b == SlotOf(f.inode[i], f.blocks, DataSlot(bn))
  {
    hide OwnInv, SlotOf, FileOf, OnlyFile, OnlyLogged, Extends, Bitmaps;
  }

  lemma MappedSlot(f: Fs, i: nat, bn: nat)
    requires OwnInv(f) && i in f.inode && bn < MAXFILE
    ensures bn in FileOf(f.inode[i], f.blocks) <==> SlotOf(f.inode[i], f.blocks, DataSlot(bn)) != 0
  {
    if SlotOf(f.inode[i], f.blocks, DataSlot(bn)) != 0 {
      assert HangsFrom(f, SlotOf(f.inode[i], f.blocks, DataSlot(bn)));
    }
  }

  lemma EntryWord(f: Fs, i: nat, k: nat)
    requires OwnInv(f) && i in f.inode && k < NINDIRECT && f.inode[i].addrs[NDIRECT] != 0
    ensures f.inode[i].addrs[NDIRECT] < |f.blocks|
    ensures SlotOf(f.inode[i], f.blocks, NDIRECT + 1 + k) == Word(f.blocks[f.inode[i].addrs[NDIRECT]], k)
    ensures NDIRECT + k in FileOf(f.inode[i], f.blocks) <==> SlotOf(f.inode[i], f.blocks, NDIRECT + 1 + k) != 0
    ensures OnlyFile(f, f, i)
  {
    assert SlotOf(f.inode[i], f.blocks, NDIRECT) == f.inode[i].addrs[NDIRECT];
    assert HangsFrom(f, f.inode[i].addrs[NDIRECT]);
    MappedSlot(f, i, NDIRECT + k);
    OnlyFileSelf(f, i);
  }

  /** Why the kernel panics: "balloc: out of blocks", "too big a transaction" in log_write(), "bmap: out of range",
      "freeing free block" and "ialloc: no inodes". */
  datatype Fault = DiskFull | LogFull | OutOfRange | FreeingFree | NoInodes

  datatype Result = Ok(value: nat) | Fails(why: Fault)

  /** What the device switch, the caller's error or a panic make of a read or a write. */
  datatype Io = Done(n: nat) | Error | Device | Panic(why: Fault)

  /** A file has an indirect block only if its direct blocks are used up. */
  predicate Tight(ip: Inode) {
    ip.addrs[NDIRECT] != 0 ==> ip.size > NDIRECT * BSIZE
  }

  /** The whole invariant: ownership, no holes, and every inode on disk as in memory. */
  ghost predicate FsInv(f: Fs) {
    && OwnInv(f) && Agree(f)
    && forall i | i in f.inode :: DenseTo(FileOf(f.inode[i], f.blocks), f.inode[i].size) && Tight(f.inode[i])
  }

  /** Only blocks in `logged` have changed. */
  ghost predicate OnlyLogged(blocks: seq<Block>, blocks': seq<Block>, logged: set<nat>) {
    |blocks'| == |blocks| && forall b | 0 <= b < |blocks| && b !in logged :: blocks'[b] == blocks[b]
  }

  lemma OnlyLoggedSelf(blocks: seq<Block>, logged: set<nat>)
    ensures OnlyLogged(blocks, blocks, logged)
  {
  }

  lemma OneLogged(blocks: seq<Block>, blocks': seq<Block>, b: nat, logged: set<nat>)
    requires b < |blocks| == |blocks'| && blocks' == blocks[b := blocks'[b]] && b in logged
    ensures OnlyLogged(blocks, blocks', logged)
  {
  }

  lemma OnlyLoggedTrans(a: seq<Block>, b: seq<Block>, c: seq<Block>, l: set<nat>, l': set<nat>)
    requires OnlyLogged(a, b, l) && OnlyLogged(b, c, l') && l <= l'
    ensures OnlyLogged(a, c, l')
  {
  }

  ghost function ContentsOf(f: Fs, i: nat): seq<Byte>
    requires i in f.inode && DenseTo(FileOf(f.inode[i], f.blocks), f.inode[i].size)
  {
    Bytes(FileOf(f.inode[i], f.blocks), f.inode[i].size)
  }

  /** balloc()'s panic: no block is free. */
  ghost predicate FullDisk(f: Fs) {
    forall c | 0 <= c < f.sb.size :: !Free(f, c)
  }

  class FileSystem {
    const sb: Super
    const room: nat                   // how many blocks the log takes: LOGSIZE, or its size without the header
    var blocks: seq<Block>
    var inode: map<nat, Inode>
    var logged: set<nat>
    ghost var owner: map<nat, (nat, nat)>
    ghost var calls: nat

    ghost function F(): Fs
      reads this
    {
      Fs(sb, blocks, inode, owner)
    }

    predicate Laid()
      reads this
    {
      GoodLayout(sb) && |blocks| == sb.size
    }

    constructor (f: Fs, room: nat)
      ensures F() == f && this.room == room && logged == {} && calls == 0
    {
      sb, blocks, inode, owner, this.room, logged, calls := f.sb, f.blocks, f.inode, f.owner, room, {}, 0;
    }

    /** Why a call did not return. */
    ghost predicate Halted(why: Fault)
      reads this
    {
      match why
      case DiskFull => FullDisk(F())
      case LogFull => |logged| >= room
      case _ => false
    }

    /** Every change of a block: new contents, and log_write(), which tests for room even if the block is logged
        already. False stands for its panic. */
    method Store(b: nat, data: Block) returns (ok: bool)
      requires b < |blocks|
      modifies this`blocks, this`logged, this`calls
      ensures blocks == old(blocks)[b := data]
      ensures ok <==> |old(logged)| < room
      ensures ok ==> logged == old(logged) + {b} && calls == old(calls) + 1 && |logged| <= room
      ensures !ok ==> logged == old(logged) && calls == old(calls)
    {
      blocks := blocks[b := data];
      if |logged| >= room {
        return false;
      }
      logged, calls := logged + {b}, calls + 1;
      return true;
    }

    predicate IsMarked(b: nat)
      reads this
      requires sb.bmapstart + b / BPB < |blocks|
    {
      Marked(blocks, sb.bmapstart, b)
    }

    /** The scan of balloc(): the first free block, sb.size if there is none. */
    method FindFree() returns (nb: nat)
      requires Laid()
      ensures nb <= sb.size && (forall c | 0 <= c < nb :: !Free(F(), c)) && (nb < sb.size ==> Free(F(), nb))
    {
      hide Free;
      var b := 0;
      while b < sb.size
        invariant b % BPB == 0
        invariant forall c | 0 <= c < b && c < sb.size :: !Free(F(), c)
        decreases sb.size - b
      {
        assert b / BPB <= sb.size / BPB;
        var data := blocks[sb.bmapstart + b / BPB];
        for bi := 0 to BPB
          invariant forall c | 0 <= c < b + bi && c < sb.size :: !Free(F(), c)
        {
          if b + bi >= sb.size {
            break;
          }
          BitFree(F(), b, bi);
          if !Bit(data[bi / 8], bi % 8) {
            return b + bi;
          }
        }
        b := b + BPB;
      }
      return sb.size;
    }

    /** The rest of balloc(), once it has found block nb: mark it, and zero it. */
    method Claim(nb: nat) returns (ok: bool)
      requires Laid() && Free(F(), nb)
      modifies this`blocks, this`logged, this`calls
      ensures |blocks| == |old(blocks)|
      ensures ok ==>
                && blocks == Given(old(F()), nb) && logged == old(logged) + {sb.bmapstart + nb / BPB, nb}
                && |logged| <= room && OnlyLogged(old(blocks), blocks, logged) && calls == old(calls) + 2
      ensures !ok ==> |logged| >= room && logged <= old(logged) + BitmapArea(sb)
    {
      hide BitmapArea, Mark, OnlyLogged, Free;
      ghost var f := F();
      var k := sb.bmapstart + nb / BPB;
      FreeIn(f, nb);
      InArea(sb, nb);
      MarkStored(blocks, sb.bmapstart, nb);
      ok := Store(k, Mark(blocks, sb.bmapstart, nb, true)[k]);
      if ok {
        ok := Store(nb, ZEROS);
        if ok {
          TwoMore(old(logged), k, nb);
          GivenLogged(f, nb, logged);
        }
      }
    }

    /** balloc(): the first free block, marked and zeroed. */
    method Balloc() returns (r: Result)
      requires Laid()
      modifies this`blocks, this`logged, this`calls
      ensures |blocks| == |old(blocks)|
      ensures r.Ok? ==>
                && Free(old(F()), r.value) && blocks == Given(old(F()), r.value)
                && (forall c | 0 <= c < r.value :: !Free(old(F()), c))
                && logged == old(logged) + {sb.bmapstart + r.value / BPB, r.value} && |logged| <= room
                && OnlyLogged(old(blocks), blocks, logged) && calls == old(calls) + 2
      ensures r == Fails(DiskFull) <==> FullDisk(old(F()))
      ensures r == Fails(DiskFull) ==> blocks == old(blocks) && logged == old(logged)
      ensures r.Fails? && r.why != DiskFull ==>
                r.why == LogFull && |logged| >= room && logged <= old(logged) + BitmapArea(sb)
    {
      hide BitmapArea, OnlyLogged, Free, FullDisk, Given;
      var nb := FindFree();
      FullIff(F(), nb);
      if nb == sb.size {
        return Fails(DiskFull);
      }
      FreeIn(F(), nb);
      var ok := Claim(nb);
      return if ok then Ok(nb) else Fails(LogFull);
    }

    /** bfree(). */
    method Bfree(b: nat) returns (r: Result)
      requires Laid() && b < sb.size && sb.bmapstart + b / BPB < |blocks|
      modifies this`blocks, this`logged, this`calls
      ensures r == Fails(FreeingFree) <==> !old(IsMarked(b))
      ensures r.Ok? ==> && blocks == Mark(old(blocks), sb.bmapstart, b, false)
                        && logged == old(logged) + {sb.bmapstart + b / BPB} && calls == old(calls) + 1
                        && OnlyLogged(old(blocks), blocks, logged)
      ensures r.Fails? ==> logged == old(logged) && (r.why == FreeingFree || (r.why == LogFull && |logged| >= room))
      ensures r == Fails(FreeingFree) ==> blocks == old(blocks)
    {
      if !IsMarked(b) {
        return Fails(FreeingFree);
      }
      var k := sb.bmapstart + b / BPB;
      var ok := Store(k, Mark(blocks, sb.bmapstart, b, false)[k]);
      return if ok then Ok(b) else Fails(LogFull);
    }

    /** The direct half of bmap(), and the allocation of the indirect block: fill slot s if it is empty. */
    method FillDirect(i: nat, s: nat) returns (r: Result)
      requires OwnInv(F()) && i in inode && s <= NDIRECT
      modifies this
      ensures old(inode)[i].addrs[s] != 0 ==> r.Ok?
      ensures r.Ok? ==> SlotFilled(old(F()), F(), i, s, r.value, old(logged), logged, calls - old(calls))
      ensures r.Fails? ==> Halted(r.why) && inode == old(inode) && logged <= old(logged) + BitmapArea(sb)
    {
      hide OwnInv, FileOf, OnlyFile, FullDisk, Given, Free, BitmapArea, Bitmaps, Extends, OnlyLogged;
      OnlyFileSelf(F(), i);
      Lays(F());
      if inode[i].addrs[s] != 0 {
        OnlyLoggedSelf(blocks, logged);
        BitmapsSelf(sb, owner);
        return Ok(inode[i].addrs[s]);
      }
      ghost var f := F();
      r := Balloc();
      if r.Ok? {
        FreshUnowned(f, r.value);
        ghost var g := DirectEffect(f, i, s, r.value);
        inode := inode[i := inode[i].(addrs := inode[i].addrs[s := r.value])];
        owner := owner[r.value := (i, s)];
        assert F() == g;
        NewBitmap(sb, f.owner, r.value, (i, s));
      }
    }

    /** The entry of the indirect block that bmap() needs, filled if it is empty. */
    method FillEntry(i: nat, k: nat) returns (r: Result)
      requires OwnInv(F()) && i in inode && k < NINDIRECT && inode[i].addrs[NDIRECT] != 0
      modifies this`blocks, this`owner, this`logged, this`calls
      ensures SlotOf(inode[i], old(blocks), NDIRECT + 1 + k) != 0 ==> r.Ok?
      ensures r.Ok? ==> EntryFilled(old(F()), F(), i, k, r.value, old(logged), logged, calls - old(calls))
      ensures r.Fails? ==> Halted(r.why) && |logged - (old(logged) + BitmapArea(sb))| <= 1
    {
      hide Given, SetWord, Word, OwnInv, SlotOf, FileOf, OnlyFile, Free, BitmapArea, Bitmaps, Extends, OnlyLogged,
           MapPrint, FullDisk;
      ghost var f := F();
      Lays(f);
      EntryWord(f, i, k);
      var ind := inode[i].addrs[NDIRECT];
      var addr := Word(blocks[ind], k);
      if addr != 0 {
        OnlyLoggedSelf(blocks, logged);
        BitmapsSelf(sb, owner);
        return Ok(addr);
      }
      r := Balloc();
      if r.Fails? {
        assert logged - (old(logged) + BitmapArea(sb)) == {};
        return;
      }
      addr := r.value;
      FreshUnowned(f, addr);
      ghost var g := EntryEffect(f, i, k, addr);
      ghost var b1, l1 := blocks, logged;
      var ok := Store(ind, SetWord(blocks[ind], k, addr));
      if !ok {
        OneExtra(sb, old(logged), logged, addr);
        return Fails(LogFull);
      }
      owner := owner[addr := (i, NDIRECT + 1 + k)];
      assert F() == g;
      EntryPrint(sb, f.owner, addr, (i, NDIRECT + 1 + k), inode[i], NDIRECT + k, old(logged), logged);
      OneLogged(b1, blocks, ind, logged);
      OnlyLoggedTrans(f.blocks, b1, blocks, l1, logged);
    }

    /** bmap(): the block number of the bn-th block of inode i, allocated if need be. */
    method Bmap(i: nat, bn: nat) returns (r: Result)
      requires OwnInv(F()) && i in inode
      modifies this
      ensures r == Fails(OutOfRange) <==> bn >= MAXFILE
      ensures bn in FileOf(old(inode)[i], old(blocks)) ==> r.Ok?
      ensures r.Ok? ==> MapDone(old(F()), F(), i, bn, r.value, old(logged), logged, calls - old(calls))
      ensures r.Fails? && r.why != OutOfRange ==> Halted(r.why) && Overrun(old(inode)[i], old(logged), false, i, bn)
    {
      hide OwnInv, SlotOf, FileOf, OnlyFile, FullDisk, OnlyLogged, Extends, Bitmaps, BitmapArea, SlotFilled,
           EntryFilled, MapDone;
      ghost var f, l, n: int := F(), logged, calls;
      FileBound(f, i, bn);
      if bn < NDIRECT {
        DirectWord(f, i, bn);
        r := FillDirect(i, bn);
        if r.Ok? {
          DirectDone(f, F(), i, bn, r.value, l, logged, calls - n);
        } else {
          assert logged - (l + (BitmapArea(sb) + Hook(inode[i], bn))) == {};
        }
        return;
      }
      var k := bn - NDIRECT;
      if k < NINDIRECT {
        EntryMapped(f, i, k);
        r := FillDirect(i, NDIRECT);
        if r.Fails? {
          assert logged - (l + (BitmapArea(sb) + Hook(inode[i], bn))) == {};
          return;
        }
        ghost var g, was, ind, n1: int := F(), logged, r.value, calls;
        IndirectFilled(f, g, i, k, ind, l, was, n1 - n);
        r := FillEntry(i, k);
        if r.Ok? {
          EntryDone(f, g, F(), i, k, ind, r.value, l, was, logged, n1 - n, calls - n1);
        } else {
          EntryOverrun(f, g, i, l, was, logged, ind, n1 - n);
        }
        return;
      }
      return Fails(OutOfRange);
    }

    /** A call that ran out of room in the middle of mapping and writing block bn of inode i has logged at most one
        block more than bitmap blocks and the indirect block, and of those only what the block needed. */
    ghost predicate Overrun(ip: Inode, logged0: set<nat>, mapped: bool, i: nat, bn: nat)
      reads this
    {
      i in inode && OverrunBy(sb, ip, inode[i], logged0, logged, mapped, bn)
    }

    /** readi(). It returns the file's bytes from off, clipped to its end, and neither allocates nor logs. */
    method Readi(i: nat, off: U32, n: U32) returns (r: Io, data: seq<Byte>)
      requires FsInv(F()) && i in inode
      modifies this
      ensures F() == old(F()) && logged == old(logged) && calls == old(calls)
      ensures inode[i].itype == T_DEV ==> r == Device
      ensures inode[i].itype != T_DEV ==> (r == Error <==> off > inode[i].size || off + n >= TWO32)
      ensures inode[i].itype != T_DEV && r != Error ==>
                var end := if off + n < inode[i].size then off + n else inode[i].size;
                off <= end && r == Done(end - off) && data == ContentsOf(F(), i)[off..end]
    {
      data := [];
      if inode[i].itype == T_DEV {
        return Device, data;
      }
      if off > inode[i].size || off + n >= TWO32 {
        return Error, data;
      }
      var m := if n < inode[i].size - off then n else inode[i].size - off;
      data := ReadLoop(i, off, m);
      return Done(m), data;
    }

    method ReadLoop(i: nat, off: nat, n: nat) returns (data: seq<Byte>)
      requires FsInv(F()) && i in inode && off + n <= inode[i].size
      modifies this
      ensures F() == old(F()) && logged == old(logged) && calls == old(calls)
      ensures data == ContentsOf(F(), i)[off..off + n]
    {
      hide Owned, Accounted, Agree, FileOf, SlotOf;
      data := [];
      var tot := 0;
      ghost var file, size := FileOf(inode[i], blocks), inode[i].size;
      while tot < n
        invariant tot <= n && F() == old(F()) && logged == old(logged) && calls == old(calls)
        invariant data == Bytes(file, size)[off..off + tot]
      {
        var cur := off + tot;
        var m := if n - tot < BSIZE - cur % BSIZE then n - tot else BSIZE - cur % BSIZE;
        ReadPiece(file, size, off, tot, m);
        MappedBlock(F(), i, cur / BSIZE);
        ghost var f, l, n: int := F(), logged, calls;
        var r := Bmap(i, cur / BSIZE);
        MapKept(f, F(), i, cur / BSIZE, r.value, l, logged, calls - n);
        data := data + blocks[r.value][cur % BSIZE..cur % BSIZE + m];
        tot := tot + m;
      }
    }

    /** iupdate(): the in-memory inode goes to its place on disk. False stands for the panic of a full log. */
    method Iupdate(i: nat) returns (ok: bool)
      requires OwnInv(F()) && i in inode
      requires forall j | j in inode && j != i :: OnDisk(sb, blocks, j, inode[j])
      modifies this`blocks, this`logged, this`calls
      ensures ok <==> |old(logged)| < room
      ensures OwnInv(F()) && Agree(F()) && logged == (if ok then old(logged) + {IBlock(sb, i)} else old(logged))
      ensures ok ==> |logged| <= room && calls == old(calls) + 1
      ensures forall j | j in inode :: FileOf(inode[j], blocks) == FileOf(inode[j], old(blocks))
      ensures IBlock(sb, i) < |old(blocks)| && blocks == old(blocks)[IBlock(sb, i) := blocks[IBlock(sb, i)]]
    {
      hide Owned, Accounted, FileOf, SlotOf, Agree;
      ghost var f := F();
      InodeBlock(f, i);
      var b := IBlock(sb, i);
      var data := blocks[b];
      for k := 0 to 16
        invariant data == Put(blocks[b], i % IPB, inode[i], k)
      {
        data := SetWord(data, i % IPB * 16 + k, DinodeWord(inode[i], k));
      }
      UpdateInv(f, i, data);
      ok := Store(b, data);
    }

    /** One turn of writei()'s loop: map the block, copy the bytes in, log it. */
    method WriteChunk(i: nat, bn: nat, start: nat, chunk: seq<Byte>) returns (r: Result)
      requires OwnInv(F()) && i in inode && start + |chunk| <= BSIZE
      modifies this
      ensures r == Fails(OutOfRange) <==> bn >= MAXFILE
      ensures r.Ok? ==> |logged| <= room
      ensures r.Ok? ==>
                ChunkDone(old(F()), F(), i, bn, start, chunk, r.value, old(logged), logged, calls - old(calls))
      ensures r.Fails? && r.why != OutOfRange ==>
                Halted(r.why) && Overrun(old(inode)[i], old(logged), bn in FileOf(old(inode)[i], old(blocks)), i, bn)
    {
      hide OwnInv, SlotOf, FileOf, OnlyFile, FullDisk, BitmapArea, Hook, Mapped, MapDone, ChunkDone;
      ghost var f, l, n: int := F(), logged, calls;
      r := Bmap(i, bn);
      if r.Fails? {
        return;
      }
      ghost var g, was, n1: int := F(), logged, calls;
      ghost var h := ChunkPlaced(f, g, i, bn, start, chunk, r.value, l, was, n1 - n);
      var ok := Store(r.value, Patch(blocks[r.value], start, chunk));
      assert F() == h;
      if ok {
        ChunkMade(f, g, h, i, bn, start, chunk, r.value, l, was, logged, n1 - n);
      } else {
        ChunkOverrun(f, g, i, bn, l, logged, r.value, n1 - n);
        return Fails(LogFull);
      }
    }

    /** The loop of writei(): `src` goes to bytes off.. of inode i. */
    method WriteLoop(i: nat, off: nat, src: seq<Byte>) returns (r: Result)
      requires OwnInv(F()) && i in inode && DenseTo(FileOf(inode[i], blocks), inode[i].size) && Tight(inode[i])
      requires off <= inode[i].size && off + |src| <= MAXBYTES
      modifies this
      ensures r.Ok? ==> Midway(old(F()), i, off, src, |src|, old(logged), old(calls))
      ensures r.Fails? ==> Halted(r.why)
      ensures r == Fails(LogFull) ==>
                |logged| <= |old(logged)| + SpreadData(BitmapBlocks(sb), old(inode)[i].size, off, |src|)
    {
      hide OwnInv, SlotOf, FileOf, OnlyFile, Half, FullDisk, BlockLogged, OnlyLogged, SpreadData;
      ghost var f, size := F(), inode[i].size;
      HalfStart(FileOf(inode[i], blocks), size, off, src);
      OnlyFileSelf(f, i);
      IndirectIff(f, i);
      OnlyLoggedSelf(blocks, logged);
      FootprintNone(f, i, off);
      var tot := 0;
      while tot < |src|
        invariant tot <= |src| && Midway(f, i, off, src, tot, old(logged), old(calls))
      {
        r, tot := WriteTurn(i, off, src, tot, f, old(logged), old(calls));
        if r.Fails? {
          SpreadMore(BitmapBlocks(sb), size, off, tot, |src|);
          return;
        }
      }
      r := Ok(tot);
    }

    /** The first tot bytes of a write to file i are in. */
    ghost predicate Midway(f: Fs, i: nat, off: nat, src: seq<Byte>, tot: nat, logged0: set<nat>, calls0: nat)
      reads this
    {
      MidwayAt(f, F(), i, off, src, tot, logged0, logged, calls - calls0) && (tot > 0 ==> |logged| <= room)
    }

    /** One turn of the loop: up to the end of a block. */
    method WriteTurn(i: nat, off: nat, src: seq<Byte>, tot: nat,
                     ghost f: Fs, ghost logged0: set<nat>, ghost calls0: nat)
      returns (r: Result, tot': nat)
      requires Midway(f, i, off, src, tot, logged0, calls0) && tot < |src| && off + |src| <= MAXBYTES && i in f.inode
      modifies this
      ensures tot < tot' <= |src| && (r.Ok? ==> Midway(f, i, off, src, tot', logged0, calls0))
      ensures r.Fails? ==> Halted(r.why)
      ensures r == Fails(LogFull) ==> |logged| <= |logged0| + SpreadData(BitmapBlocks(sb), f.inode[i].size, off, tot')
    {
      hide MidwayAt, ChunkDone, OwnInv, FullDisk, FileOf, SpreadData, OverrunBy;
      var cur := off + tot;
      var m := if |src| - tot < BSIZE - cur % BSIZE then |src| - tot else BSIZE - cur % BSIZE;
      PieceEnds(cur, |src| - tot);
      InFile(cur);
      tot' := tot + m;
      ghost var g, was, n := F(), logged, calls;
      MidwayOwned(f, g, i, off, src, tot, logged0, was, n - calls0);
      var bn, start := cur / BSIZE, cur % BSIZE;
      r := WriteChunk(i, bn, start, src[tot..tot']);
      if r.Ok? {
        TurnDone(f, g, F(), i, off, src, tot, m, r.value, logged0, was, logged, n - calls0, calls - calls0);
      } else if r.why == LogFull {
        FullTurn(f, g, inode[i], logged0, was, logged, i, off, src, tot, m, n - calls0);
      }
    }

    /** writei(). A successful write splices exactly `src` into the file, grows it to at least off + n, and touches no
        other file; the invariant holds again on return, so memory and disk agree on every inode. It changes only blocks
        it logs, exactly the blocks `Stamped`, with exactly Cost(size, off, n) calls of log_write(). A log that has room
        for Spread(size, off, n) blocks and one more does not fill up. */
    method Writei(i: nat, off: U32, src: seq<Byte>) returns (r: Io)
      requires FsInv(F()) && i in inode && |src| < TWO32
      modifies this
      ensures r == Device <==> old(inode)[i].itype == T_DEV
      ensures r == Error <==> old(inode)[i].itype != T_DEV && (off > old(inode)[i].size || off + |src| > 140 * 512)
      ensures r == Device || r == Error ==> F() == old(F()) && logged == old(logged)
      ensures r.Done? ==> r.n == |src| && FsInv(F()) && Written(old(F()), F(), i, off, src)
      ensures r.Panic? ==> Halted(r.why)
      ensures r == Panic(LogFull) ==>
                room <= |logged| <= |old(logged)| + Spread(BitmapBlocks(sb), old(inode)[i].size, off, |src|)
      ensures |old(logged)| + Spread(BitmapBlocks(sb), old(inode)[i].size, off, |src|) < room ==> r != Panic(LogFull)
      ensures r.Done? ==> OnlyLogged(old(blocks), blocks, logged) && Extends(old(owner), owner)
      ensures r.Done? && !Adds(old(inode)[i].size, off, |src|) ==> owner == old(owner)
      ensures r.Done? ==>
                logged == old(logged) + Stamped(old(F()), F(), i, off, |src|) && (|src| > 0 ==> |logged| <= room)
      ensures r.Done? ==> forall bn: nat {:trigger BlockLogged(F(), logged, i, bn)} | Touched(off, |src|, bn) ::
                BlockLogged(F(), logged, i, bn)
      ensures r.Done? ==> calls == old(calls) + Cost(old(inode)[i].size, off, |src|)
    {
      hide OwnInv, SlotOf, FileOf, OnlyFile, Half, Agree, FullDisk, BlockLogged, TurnsCost, OnlyLogged, Footprint,
           SpreadData, Extends;
      if inode[i].itype == T_DEV {
        return Device;
      }
      if off > inode[i].size || off + |src| >= TWO32 {
        return Error;
      }
      if off + |src| > MAXBYTES {
        return Error;
      }
      ghost var f := F();
      var w := WriteLoop(i, off, src);
      if w.Fails? {
        return Panic(w.why);
      }
      ghost var g, l1 := F(), logged;
      OthersOnDisk(f, g, i);
      if |src| > 0 && off + |src| > inode[i].size {
        Relabel(g, i, g.inode[i].(size := off + |src|));
        inode := inode[i := inode[i].(size := off + |src|)];
        var ok := Iupdate(i);
        if !ok {
          FootprintCard(f, g, old(logged), l1, i, off, src);
          return Panic(LogFull);
        }
        StampDone(f, g, F(), old(logged), l1, logged, i, off, src);
        forall j | j in g.inode && j != i ensures FileOf(g.inode[j], blocks) == FileOf(g.inode[j], g.blocks) {
          assert inode[j] == g.inode[j];
        }
      } else {
        StillSame(f, g, i, off, src);
        assert inode == inode[i := inode[i].(size := Max(f.inode[i].size, off + |src|))];
      }
      WrittenDone(f, g, F(), i, off, src);
      return Done(|src|);
    }

    /** filewrite() on a file, from its offset: CHUNK bytes an operation. The chunks add up to one write of all the
        bytes; if it fails it stopped between two chunks, because the file got too long. `others` are the blocks that
        the log holds when a chunk's operation begins. */
    method Filewrite(i: nat, off: U32, data: seq<Byte>, others: nat -> set<nat>) returns (r: Io, off': nat)
      requires FsInv(F()) && i in inode && |data| < 0x8000_0000
      modifies this
      ensures r == Device ==> old(inode)[i].itype == T_DEV && F() == old(F())
      ensures r.Panic? ==> Halted(r.why)
      ensures r.Done? ==> r.n == |data| && off' == off + |data| && WrittenSoFar(old(F()), F(), i, off, data, |data|)
      ensures r == Error ==>
                && off <= off' < off + |data| && (off' - off) % CHUNK == 0
                && WrittenSoFar(old(F()), F(), i, off, data, off' - off) && i in inode
                && (off' > inode[i].size || off' + Min(CHUNK, off + |data| - off') > MAXBYTES)
    {
      hide FsInv, FullDisk, Written, BlockLogged, OnlyLogged, Cost, Touched, Stamped, Spread, Extends;
      ghost var f := F();
      var k := 0;
      off' := off;
      while k < |data|
        invariant 0 <= k <= |data| && (k % CHUNK == 0 || k == |data|) && off' == off + k && FsInv(F()) && i in inode
        invariant WrittenSoFar(f, F(), i, off, data, k) && off' < TWO32
        invariant inode[i].itype == f.inode[i].itype && (k > 0 ==> inode[i].itype != T_DEV)
      {
        var n1 := Min(|data| - k, CHUNK);
        logged := others(k / CHUNK);
        ghost var g := F();
        r := Writei(i, off', data[k..k + n1]);
        if !r.Done? {
          return;
        }
        WrittenKeeps(g, F(), i, off', data[k..k + n1]);
        WrittenMore(f, g, F(), i, off, data, k, n1);
        k := k + n1;
        off' := off' + n1;
      }
      r := Done(|data|);
    }

    /** ilock() of an inode not in memory: what it reads from disk is what the others have; no type is a panic. */
    method Ilock(i: nat) returns (r: Option<Inode>)
      requires FsInv(F()) && i in inode
      ensures r == if inode[i].itype == 0 then None else Some(inode[i])
    {
      InodeBlock(F(), i);
      DecodeOnDisk(sb, blocks, i, inode[i]);
      var ip := Decode(blocks[IBlock(sb, i)], i % IPB);
      if ip.itype == 0 {
        return None;
      }
      return Some(ip);
    }

    /** ialloc(): the first free inode from 1 on. It is zeroed, and no block is lost by that, because a free inode has
        none. */
    method Ialloc(itype: nat) returns (r: Result)
      requires FsInv(F()) && Vacant(F()) && 0 < itype < 0x1_0000 && forall j :: j in inode <==> 0 <= j < sb.ninodes
      modifies this`blocks, this`inode, this`logged, this`calls
      ensures r == Fails(NoInodes) <==> forall j | 1 <= j < sb.ninodes :: j in old(inode) && old(inode)[j].itype != 0
      ensures r == Fails(NoInodes) ==> F() == old(F()) && logged == old(logged)
      ensures r.Fails? && r.why != NoInodes ==> r.why == LogFull && |old(logged)| >= room && logged == old(logged)
      ensures r.Ok? ==>
                && r.value in old(inode) && old(inode)[r.value].itype == 0
                && (forall j | 1 <= j < r.value :: j in old(inode) && old(inode)[j].itype != 0)
                && Relabelled(old(F()), F(), r.value, FREE_INODE.(itype := itype)) && Vacant(F())
                && logged == old(logged) + {IBlock(sb, r.value)} && OnlyLogged(old(blocks), blocks, logged)
    {
      hide Agree, FileOf, OwnInv, Put, Decode;
      var n := 1;
      while n < sb.ninodes
        invariant 1 <= n && F() == old(F()) && logged == old(logged)
        invariant forall j | 1 <= j < n && j < sb.ninodes :: inode[j].itype != 0
      {
        ghost var f := F();
        InodeInside(f, n);
        var b := IBlock(sb, n);
        if Decode(blocks[b], n % IPB).itype == 0 {
          var ip := FREE_INODE.(itype := itype);
          ghost var h := Rewrite(f, n, ip);
          var ok := Store(b, Put(blocks[b], n % IPB, ip, 16));
          if !ok {
            return Fails(LogFull);
          }
          inode := inode[n := ip];
          assert F() == h;
          return Ok(n);
        }
        n := n + 1;
      }
      return Fails(NoInodes);
    }

    /** iput() of the last reference to an inode without links: its blocks and itself become free. False stands for the
        panic of a full log. */
    method Discard(i: nat) returns (ok: bool)
      requires FsInv(F()) && Vacant(F()) && i in inode && inode[i].nlink == 0
      modifies this
      ensures ok ==> Discarded(old(F()), F(), i) && Vacant(F()) && OnlyLogged(old(blocks), blocks, logged)
      ensures old(logged) <= logged <= old(logged) + BitmapArea(sb) + {IBlock(sb, i)}
      ensures !ok ==> |logged| >= room
      ensures |old(logged)| + BitmapBlocks(sb) + 1 < room ==> ok
    {
      hide FsInv, Agree, FileOf, OwnInv, OnlyLogged, BitmapArea;
      ghost var f := F();
      TruncRoom(sb, old(logged), IBlock(sb, i));
      ok := Itrunc(i);
      if !ok {
        SubsetCard(logged, old(logged) + BitmapArea(sb) + {IBlock(sb, i)});
        return;
      }
      ghost var g, l := F(), logged;
      Retired(f, g, i);
      inode := inode[i := inode[i].(itype := 0)];
      ok := Iupdate(i);
      SubsetCard(logged, old(logged) + BitmapArea(sb) + {IBlock(sb, i)});
      if ok {
        OneLogged(g.blocks, blocks, IBlock(sb, i), logged);
        OnlyLoggedTrans(f.blocks, g.blocks, blocks, l, logged);
        DiscardDone(f, g, F(), i);
      }
    }

    /** itrunc()'s treatment of one slot: free its block, if it has one. This never meets a block that is free, so false
        stands for the panic of a full log. */
    method FreeSlot(b: nat, ghost f: Fs, ghost i: nat, ghost s: nat, ghost done: set<nat>) returns (ok: bool)
      requires OwnInv(f) && i in f.inode && f.sb == sb && s < NSLOTS && s !in done
      requires b == SlotOf(f.inode[i], f.blocks, s) && FewerBits(f, blocks, Freed(f, i, done))
      modifies this`blocks, this`logged, this`calls
      ensures ok ==> FewerBits(f, blocks, Freed(f, i, done + {s})) && OnlyLogged(old(blocks), blocks, logged)
      ensures old(logged) <= logged <= old(logged) + BitmapArea(sb) && (!ok ==> |logged| >= room)
    {
      hide OwnInv, SlotOf, BitmapArea;
      FreedOne(f, blocks, i, s, done);
      if b != 0 {
        InArea(sb, b);
        var r := Bfree(b);
        ok := r.Ok?;
      } else {
        ok := true;
      }
    }

    /** itrunc(): the file becomes empty, exactly its blocks are unmarked, and no other file changes. False stands for
        the panic of a full log; however long the file, that takes a log with room for no more than the bitmap. */
    method Itrunc(i: nat) returns (ok: bool)
      requires FsInv(F()) && i in inode
      modifies this
      ensures ok ==> Emptied(old(F()), F(), i) && OnlyLogged(old(blocks), blocks, logged)
      ensures old(logged) <= logged <= old(logged) + BitmapArea(sb) + {IBlock(sb, i)}
      ensures !ok ==> |logged| >= room && logged <= old(logged) + BitmapArea(sb)
    {
      hide OwnInv, SlotOf, FileOf, Agree, OnlyLogged, BitmapArea, FewerBits, Freed, Below, Cleared, Emptied;
      ghost var f := F();
      FreeStart(f, i);
      ok := FreeDirect(i, f);
      if !ok {
        return;
      }
      ghost var b1, l1 := blocks, logged;
      ok := FreeIndirect(i, f);
      if !ok {
        return;
      }
      OnlyLoggedTrans(f.blocks, b1, blocks, l1, logged);
      owner := map b | b in owner && owner[b].0 != i :: owner[b];
      inode := inode[i := inode[i].(size := 0)];
      TruncDone(f, F(), i);
      ghost var b2, l2 := blocks, logged;
      ok := Iupdate(i);
      if ok {
        OneLogged(b2, blocks, IBlock(sb, i), logged);
        OnlyLoggedTrans(f.blocks, b2, blocks, l2, logged);
        TruncFiles(f, F(), i);
      }
    }

    /** The loop over the direct blocks. */
    method FreeDirect(i: nat, ghost f: Fs) returns (ok: bool)
      requires OwnInv(f) && F() == f && i in inode && FewerBits(f, blocks, Freed(f, i, Below(0)))
      modifies this`blocks, this`logged, this`calls, this`inode
      ensures ok ==> FewerBits(f, blocks, Freed(f, i, Below(NDIRECT))) && OnlyLogged(old(blocks), blocks, logged)
      ensures ok ==> inode == f.inode[i := f.inode[i].(addrs := Cleared(f.inode[i].addrs, NDIRECT))]
      ensures old(logged) <= logged <= old(logged) + BitmapArea(sb) && (!ok ==> |logged| >= room)
    {
      hide OwnInv, SlotOf, OnlyLogged, FewerBits, Freed, Below, Cleared, BitmapArea;
      ok := true;
      OnlyLoggedSelf(blocks, logged);
      ClearedNone(inode[i].addrs);
      for s := 0 to NDIRECT
        invariant ok && FewerBits(f, blocks, Freed(f, i, Below(s)))
        invariant old(logged) <= logged <= old(logged) + BitmapArea(sb) && OnlyLogged(old(blocks), blocks, logged)
        invariant inode == f.inode[i := f.inode[i].(addrs := Cleared(f.inode[i].addrs, s))]
      {
        DirectSlot(f, i, s);
        ClearedNext(f.inode[i].addrs, s);
        ghost var b, l := blocks, logged;
        if inode[i].addrs[s] != 0 {
          ok := FreeSlot(inode[i].addrs[s], f, i, s, Below(s));
          inode := inode[i := inode[i].(addrs := inode[i].addrs[s := 0])];
        } else {
          ok := FreeSlot(0, f, i, s, Below(s));
        }
        if !ok {
          return;
        }
        OnlyLoggedTrans(old(blocks), b, blocks, l, logged);
      }
    }

    /** The loop over the entries of the indirect block. */
    method FreeEntries(i: nat, a: Block, ghost f: Fs) returns (ok: bool)
      requires OwnInv(f) && f.sb == sb && i in f.inode && FewerBits(f, blocks, Freed(f, i, Below(NDIRECT)))
      requires forall j | 0 <= j < NINDIRECT :: SlotOf(f.inode[i], f.blocks, NDIRECT + 1 + j) == Word(a, j)
      modifies this`blocks, this`logged, this`calls
      ensures ok ==> FewerBits(f, blocks, Freed(f, i, Entries(NINDIRECT))) && OnlyLogged(old(blocks), blocks, logged)
      ensures old(logged) <= logged <= old(logged) + BitmapArea(sb) && (!ok ==> |logged| >= room)
    {
      hide OwnInv, SlotOf, OnlyLogged, FewerBits, Freed, Below, BitmapArea, Word, Entries;
      ok := true;
      OnlyLoggedSelf(blocks, logged);
      EntriesNone();
      for j := 0 to NINDIRECT
        invariant ok && FewerBits(f, blocks, Freed(f, i, Entries(j)))
        invariant old(logged) <= logged <= old(logged) + BitmapArea(sb) && OnlyLogged(old(blocks), blocks, logged)
      {
        EntriesNext(j);
        ghost var b, l := blocks, logged;
        ok := FreeSlot(Word(a, j), f, i, NDIRECT + 1 + j, Entries(j));
        if !ok {
          return;
        }
        OnlyLoggedTrans(old(blocks), b, blocks, l, logged);
      }
    }

    /** The indirect block: its entries, and then the block itself. */
    method FreeIndirect(i: nat, ghost f: Fs) returns (ok: bool)
      requires OwnInv(f) && f.sb == sb && i in f.inode && FewerBits(f, blocks, Freed(f, i, Below(NDIRECT)))
      requires inode == f.inode[i := f.inode[i].(addrs := Cleared(f.inode[i].addrs, NDIRECT))]
      modifies this`blocks, this`logged, this`calls, this`inode
      ensures ok ==> FewerBits(f, blocks, Freed(f, i, Below(NSLOTS))) && OnlyLogged(old(blocks), blocks, logged)
      ensures ok ==> inode == f.inode[i := f.inode[i].(addrs := NO_ADDRS)]
      ensures old(logged) <= logged <= old(logged) + BitmapArea(sb) && (!ok ==> |logged| >= room)
    {
      hide OwnInv, SlotOf, OnlyLogged, FewerBits, Freed, BitmapArea, Entries;
      ok := true;
      OnlyLoggedSelf(blocks, logged);
      var ind := inode[i].addrs[NDIRECT];
      NoIndirect(f, i);
      ghost var b0 := blocks;
      if ind != 0 {
        EntryWords(f, i);
        IndirectStays(f, blocks, Freed(f, i, Below(NDIRECT)), ind);
        ok := FreeEntries(i, blocks[ind], f);
        if !ok {
          return;
        }
        EntriesAll();
        ghost var b, l := blocks, logged;
        ok := FreeSlot(ind, f, i, NDIRECT, Entries(NINDIRECT));
        if !ok {
          return;
        }
        OnlyLoggedTrans(b0, b, blocks, l, logged);
        inode := inode[i := inode[i].(addrs := inode[i].addrs[NDIRECT := 0])];
      } else {
        assert Cleared(f.inode[i].addrs, NDIRECT)[NDIRECT := 0] == Cleared(f.inode[i].addrs, NDIRECT);
      }
      assert Cleared(f.inode[i].addrs, NDIRECT)[NDIRECT := 0] == NO_ADDRS;
    }
  }

  /** The direct slots and the first j entries. */
  ghost function Entries(j: nat): set<nat> {
    Below(NDIRECT) + Range(NDIRECT + 1, NDIRECT + 1 + j)
  }

  lemma EntriesNone()
    ensures Entries(0) == Below(NDIRECT)
  {
  }

  lemma EntriesNext(j: nat)
    ensures Entries(j) + {NDIRECT + 1 + j} == Entries(j + 1) && NDIRECT + 1 + j !in Entries(j)
  {
  }

  lemma EntriesAll()
    ensures Entries(NINDIRECT) + {NDIRECT as nat} == Below(NSLOTS) && NDIRECT !in Entries(NINDIRECT)
  {
  }

  /** The indirect block itself is no bitmap block. */
  lemma IndirectStays(f: Fs, blocks: seq<Block>, freed: set<nat>, ind: nat)
    requires FewerBits(f, blocks, freed) && f.sb.datastart <= ind < |f.blocks|
    ensures ind < |blocks| && blocks[ind] == f.blocks[ind]
  {
  }

  // ---- What is logged ----

  lemma FreeIn(f: Fs, nb: nat)
    requires Free(f, nb)
    ensures nb < |f.blocks| && f.sb.bmapstart + nb / BPB < |f.blocks|
  {
  }

  lemma BitFree(f: Fs, b: nat, bi: nat)
    requires b % BPB == 0 && bi < BPB && b + bi < |f.blocks| && f.sb.bmapstart + b / BPB < |f.blocks|
    ensures Free(f, b + bi) <==> !Bit(f.blocks[f.sb.bmapstart + b / BPB][bi / 8], bi % 8)
  {
    BitPlace(b, bi);
  }

  lemma FullIff(f: Fs, nb: nat)
    requires nb <= f.sb.size && (forall c | 0 <= c < nb :: !Free(f, c)) && (nb < f.sb.size ==> Free(f, nb))
    ensures FullDisk(f) <==> nb == f.sb.size
  {
    hide Free;
  }

  lemma TwoMore(l: set<nat>, k: nat, b: nat)
    ensures l + {k} + {b} == l + {k, b}
  {
  }

  lemma MarkStored(blocks: seq<Block>, start: nat, b: nat)
    requires start + b / BPB < |blocks|
    ensures var k := start + b / BPB; Mark(blocks, start, b, true) == blocks[k := Mark(blocks, start, b, true)[k]]
  {
  }

  lemma GivenLogged(f: Fs, nb: nat, l: set<nat>)
    requires nb < |f.blocks| && f.sb.bmapstart + nb / BPB < |f.blocks| && {f.sb.bmapstart + nb / BPB, nb} <= l
    ensures OnlyLogged(f.blocks, Given(f, nb), l)
  {
    hide Mark;
    MarkStored(f.blocks, f.sb.bmapstart, nb);
  }

  lemma InArea(sb: Super, b: nat)
    requires b < sb.size
    ensures sb.bmapstart + b / BPB in BitmapArea(sb)
  {
    assert b / BPB <= sb.size / BPB;
    assert InBitmapArea(sb, sb.bmapstart + b / BPB);
  }

  lemma FreshUnowned(f: Fs, nb: nat)
    requires OwnInv(f) && Free(f, nb)
    ensures nb !in f.owner && nb < f.sb.size
  {
    assert InBitmap(f, nb);
  }

  lemma NewBitmap(sb: Super, owner: map<nat, (nat, nat)>, nb: nat, at: (nat, nat))
    requires nb !in owner
    ensures Extends(owner, owner[nb := at]) && Bitmaps(sb, owner, owner[nb := at]) == {sb.bmapstart + nb / BPB}
  {
    assert nb in owner[nb := at] && nb !in owner;
  }

  /** The blocks that a new entry of the indirect block logs. */
  lemma EntryPrint(sb: Super, owner: map<nat, (nat, nat)>, nb: nat, at: (nat, nat),
                   ip: Inode, bn: nat, l: set<nat>, l': set<nat>)
    requires nb !in owner && bn >= NDIRECT
    requires l' == l + {sb.bmapstart + nb / BPB, nb} + {ip.addrs[NDIRECT] as nat}
    ensures Extends(owner, owner[nb := at]) && l' == l + MapPrint(sb, owner, owner[nb := at], ip, bn, nb)
  {
    NewBitmap(sb, owner, nb, at);
  }

  /** The blocks that a turn of writei()'s loop logs. */
  lemma Lays(f: Fs)
    requires OwnInv(f)
    ensures GoodLayout(f.sb) && |f.blocks| == f.sb.size
  {
  }

  lemma BitmapsSelf(sb: Super, owner: map<nat, (nat, nat)>)
    ensures Extends(owner, owner) && Bitmaps(sb, owner, owner) == {}
  {
  }

  lemma OneExtra(sb: Super, l: set<nat>, l': set<nat>, b: nat)
    requires b < sb.size && l' == l + {sb.bmapstart + b / BPB, b}
    ensures |l' - (l + BitmapArea(sb))| <= 1
  {
    InArea(sb, b);
    SubsetCard(l' - (l + BitmapArea(sb)), {b});
  }

  /** bmap() failed at the entry, after it had seen to the indirect block. */
  lemma EntryOverrun(f: Fs, g: Fs, i: nat, l: set<nat>, l1: set<nat>, l2: set<nat>, ind: nat, calls: int)
    requires SlotFilled(f, g, i, NDIRECT, ind, l, l1, calls)
    requires |l2 - (l1 + BitmapArea(g.sb))| <= 1
    ensures forall bn: nat | bn >= NDIRECT :: |l2 - (l + (BitmapArea(g.sb) + Hook(g.inode[i], bn)))| <= 1
  {
    hide OwnInv, SlotOf, FileOf, OnlyFile, OnlyLogged, Extends, Bitmaps, BitmapArea;
    SameSb(f, g, i);
    BitmapsInArea(g, f.owner);
    forall bn: nat | bn >= NDIRECT ensures |l2 - (l + (BitmapArea(g.sb) + Hook(g.inode[i], bn)))| <= 1 {
      SubsetCard(l2 - (l + (BitmapArea(g.sb) + Hook(g.inode[i], bn))), l2 - (l1 + BitmapArea(g.sb)));
    }
  }

  lemma MappedSame(f: Fs, g: Fs, i: nat, bn: nat)
    requires i in f.inode && i in g.inode && Mapped(f, g, i, bn)
    ensures bn in FileOf(f.inode[i], f.blocks) ==> g == f
    ensures g.sb == f.sb
    ensures f.inode[i].addrs[NDIRECT] != 0 ==> g.inode[i].addrs[NDIRECT] == f.inode[i].addrs[NDIRECT]
  {
    assert SlotStays(f, g, i, NDIRECT);
  }

  ghost predicate OverrunBy(sb: Super, ip: Inode, ip': Inode, l: set<nat>, l': set<nat>, mapped: bool, bn: nat) {
    && (ip.addrs[NDIRECT] != 0 ==> ip'.addrs[NDIRECT] == ip.addrs[NDIRECT])
    && |l' - (l + if mapped then {} else BitmapArea(sb) + Hook(ip', bn))| <= 1
  }

  /** The block is mapped, and logging it failed. */
  lemma ChunkOverrun(f: Fs, g: Fs, i: nat, bn: nat, l: set<nat>, l': set<nat>, b: nat, calls: int)
    requires MapDone(f, g, i, bn, b, l, l', calls)
    ensures f.inode[i].addrs[NDIRECT] != 0 ==> g.inode[i].addrs[NDIRECT] == f.inode[i].addrs[NDIRECT]
    ensures |l' - (l + if bn in FileOf(f.inode[i], f.blocks) then {} else BitmapArea(g.sb) + Hook(g.inode[i], bn))| <= 1
  {
    hide OwnInv, SlotOf, FileOf, OnlyFile, OnlyLogged, Extends, Bitmaps, BitmapArea, Mapped;
    MappedSame(f, g, i, bn);
    BitmapsInArea(g, f.owner);
    var mapped := bn in FileOf(f.inode[i], f.blocks);
    SubsetCard(l' - (l + if mapped then {} else BitmapArea(g.sb) + Hook(g.inode[i], bn)), {b});
  }

  lemma FootprintNone(f: Fs, i: nat, off: nat)
    requires i in f.inode
    ensures Footprint(f, f, i, off, 0) == {} && Extends(f.owner, f.owner)
  {
    BitmapsSelf(f.sb, f.owner);
  }

  lemma TruncRoom(sb: Super, l: set<nat>, b: nat)
    ensures |l + BitmapArea(sb) + {b}| <= |l| + BitmapBlocks(sb) + 1
  {
    BitmapAreaCount(sb);
    UnionCard(l, BitmapArea(sb));
    UnionCard(l + BitmapArea(sb), {b});
  }

  ghost predicate InRange(lo: nat, hi: nat, s: nat) {
    lo <= s < hi
  }

  ghost function Range(lo: nat, hi: nat): set<nat> {
    set s: nat | lo <= s < hi && InRange(lo, hi, s)
  }

  ghost function Below(n: nat): set<nat> {
    Range(0, n)
  }

  function Cleared(addrs: seq<U32>, n: nat): (r: seq<U32>)
    requires n <= |addrs|
    ensures |r| == |addrs|
  {
    seq(n, _ => 0) + addrs[n..]
  }

  lemma ClearedNone(addrs: seq<U32>)
    ensures Cleared(addrs, 0) == addrs
  {
  }

  /** The next address, and the next slot. */
  lemma ClearedNext(addrs: seq<U32>, s: nat)
    requires s < |addrs|
    ensures Cleared(addrs, s)[s] == addrs[s]
    ensures Cleared(addrs, s)[s := 0] == Cleared(addrs, s + 1)
    ensures addrs[s] == 0 ==> Cleared(addrs, s) == Cleared(addrs, s + 1)
    ensures Below(s) + {s} == Below(s + 1) && s !in Below(s)
  {
  }

  /** The blocks in the slots `done` of inode i. */
  ghost function Freed(f: Fs, i: nat, done: set<nat>): set<nat> {
    set b | b in f.owner && f.owner[b].0 == i && f.owner[b].1 in done
  }

  /** `blocks` are f's, with the marks of `freed` cleared. */
  ghost predicate FewerBits(f: Fs, blocks: seq<Block>, freed: set<nat>) {
    && GoodLayout(f.sb) && |blocks| == |f.blocks| == f.sb.size
    && (forall k | 0 <= k < |f.blocks| && !(f.sb.bmapstart <= k < f.sb.datastart) :: blocks[k] == f.blocks[k])
    && (forall b {:trigger BitLess(f, blocks, freed, b)} | 0 <= b < f.sb.size :: BitLess(f, blocks, freed, b))
  }

  ghost predicate BitLess(f: Fs, blocks: seq<Block>, freed: set<nat>, b: nat) {
    && f.sb.bmapstart + b / BPB < |f.blocks| == |blocks|
    && (Marked(blocks, f.sb.bmapstart, b) <==> Marked(f.blocks, f.sb.bmapstart, b) && b !in freed)
  }

  lemma FreeStart(f: Fs, i: nat)
    requires OwnInv(f)
    ensures FewerBits(f, f.blocks, Freed(f, i, Below(0)))
  {
    assert Freed(f, i, Below(0)) == {};
    forall b | 0 <= b < f.sb.size ensures BitLess(f, f.blocks, {}, b) {
      assert InBitmap(f, b);
    }
  }

  lemma DirectSlot(f: Fs, i: nat, s: nat)
    requires i in f.inode && s <= NDIRECT
    ensures SlotOf(f.inode[i], f.blocks, s) == f.inode[i].addrs[s]
  {
  }

  /** The next slot's block, if any, is marked and not yet freed; freeing it is clearing its mark. */
  lemma FreedOne(f: Fs, blocks: seq<Block>, i: nat, s: nat, done: set<nat>)
    requires OwnInv(f) && i in f.inode && s < NSLOTS && s !in done && FewerBits(f, blocks, Freed(f, i, done))
    ensures var b := SlotOf(f.inode[i], f.blocks, s);
            if b == 0 then FewerBits(f, blocks, Freed(f, i, done + {s}))
            else && b < f.sb.size && f.sb.bmapstart + b / BPB < |blocks| && Marked(blocks, f.sb.bmapstart, b)
                 && FewerBits(f, Mark(blocks, f.sb.bmapstart, b, false), Freed(f, i, done + {s}))
  {
    var b := SlotOf(f.inode[i], f.blocks, s);
    forall c | c in f.owner && f.owner[c] == (i, s) ensures c == b { assert HangsFrom(f, c); }
    if b == 0 {
      assert forall c | c in f.owner :: f.owner[c] != (i, s) by {
        forall c | c in f.owner ensures f.owner[c] != (i, s) { assert HangsFrom(f, c); }
      }
      assert Freed(f, i, done + {s}) == Freed(f, i, done);
    } else {
      assert HangsFrom(f, b);
      assert Freed(f, i, done + {s}) == Freed(f, i, done) + {b};
      assert InBitmap(f, b) && BitLess(f, blocks, Freed(f, i, done), b);
      ClearOne(f, blocks, Freed(f, i, done), b);
    }
  }

  lemma ClearOne(f: Fs, blocks: seq<Block>, freed: set<nat>, b: nat)
    requires FewerBits(f, blocks, freed) && b < f.sb.size && f.sb.bmapstart + b / BPB < |blocks|
    ensures FewerBits(f, Mark(blocks, f.sb.bmapstart, b, false), freed + {b})
  {
    BitmapKept(f.sb, blocks, blocks, b);
    var blocks', freed' := Mark(blocks, f.sb.bmapstart, b, false), freed + {b};
    forall c | 0 <= c < f.sb.size ensures BitLess(f, blocks', freed', c) {
      assert BitLess(f, blocks, freed, c);
      MarkOne(blocks, f.sb.bmapstart, b, false, c);
    }
  }

  lemma NoIndirect(f: Fs, i: nat)
    requires OwnInv(f) && i in f.inode
    ensures f.inode[i].addrs[NDIRECT] == 0 ==> Freed(f, i, Below(NSLOTS)) == Freed(f, i, Below(NDIRECT))
  {
    if f.inode[i].addrs[NDIRECT] == 0 {
      forall c | c in Freed(f, i, Below(NSLOTS)) ensures c in Freed(f, i, Below(NDIRECT)) {
        assert HangsFrom(f, c);
        assert f.owner[c].1 < NDIRECT;
      }
      assert Below(NDIRECT) <= Below(NSLOTS);
    }
  }

  lemma EntryWords(f: Fs, i: nat)
    requires OwnInv(f) && i in f.inode && f.inode[i].addrs[NDIRECT] != 0
    ensures f.sb.datastart <= f.inode[i].addrs[NDIRECT] < |f.blocks|
    ensures SlotOf(f.inode[i], f.blocks, NDIRECT) == f.inode[i].addrs[NDIRECT]
    ensures forall j | 0 <= j < NINDIRECT ::
              SlotOf(f.inode[i], f.blocks, NDIRECT + 1 + j) == Word(f.blocks[f.inode[i].addrs[NDIRECT]], j)
  {
    assert SlotOf(f.inode[i], f.blocks, NDIRECT) == f.inode[i].addrs[NDIRECT];
    assert HangsFrom(f, f.inode[i].addrs[NDIRECT]);
  }

  lemma TruncDone(f: Fs, g: Fs, i: nat)
    requires FsInv(f) && i in f.inode && g.sb == f.sb && FewerBits(f, g.blocks, Freed(f, i, Below(NSLOTS)))
    requires g.inode == f.inode[i := f.inode[i].(addrs := NO_ADDRS, size := 0)]
    requires g.owner == (map b | b in f.owner && f.owner[b].0 != i :: f.owner[b])
    ensures OwnInv(g) && FileOf(g.inode[i], g.blocks) == map[]
    ensures forall j | j in f.inode && j != i :: FileOf(g.inode[j], g.blocks) == FileOf(f.inode[j], f.blocks)
    ensures forall j | j in g.inode && j != i :: OnDisk(g.sb, g.blocks, j, g.inode[j])
  {
    var freed := Freed(f, i, Below(NSLOTS));
    forall b | 0 <= b < f.sb.size ensures Unmarked(f, g, i, b) {
      assert BitLess(f, g.blocks, freed, b);
      if OwnedBy(f, i, b) {
        assert HangsFrom(f, b);
      }
    }
    TruncInv(f, g, i);
    forall j | j in g.inode && j != i ensures OnDisk(g.sb, g.blocks, j, g.inode[j]) {
      OnDiskKept(f.sb, f.blocks, g.blocks, j, f.inode[j]);
    }
  }

  /** What itrunc() does: file i is empty, exactly its blocks are unmarked and disowned, the other files are
      untouched. */
  ghost predicate Emptied(f: Fs, g: Fs, i: nat)
    requires i in f.inode
  {
    && FsInv(f) && FsInv(g) && g.sb == f.sb
    && g.inode == f.inode[i := f.inode[i].(addrs := NO_ADDRS, size := 0)]
    && ContentsOf(g, i) == []
    && (forall j | j in f.inode && j != i :: ContentsOf(g, j) == ContentsOf(f, j))
    && g.owner == (map b | b in f.owner && f.owner[b].0 != i :: f.owner[b])
  }

  lemma TruncFiles(f: Fs, g: Fs, i: nat)
    requires FsInv(f) && i in f.inode && OwnInv(g) && Agree(g)
    requires g.inode == f.inode[i := f.inode[i].(addrs := NO_ADDRS, size := 0)]
    requires FileOf(g.inode[i], g.blocks) == map[]
    requires forall j | j in f.inode && j != i :: FileOf(g.inode[j], g.blocks) == FileOf(f.inode[j], f.blocks)
    requires g.sb == f.sb && g.owner == (map b | b in f.owner && f.owner[b].0 != i :: f.owner[b])
    ensures Emptied(f, g, i)
  {
    hide OwnInv, FileOf, Agree;
    assert DenseTo(map[], 0);
  }

  // ---- Inodes that come and go ----

  /** A free inode has no blocks. */
  ghost predicate Vacant(f: Fs) {
    forall i | i in f.inode && f.inode[i].itype == 0 :: f.inode[i].addrs == NO_ADDRS && f.inode[i].size == 0
  }

  /** Inode i is ip now, in memory and on disk, and every file has the same contents. */
  ghost predicate Relabelled(f: Fs, g: Fs, i: nat, ip: Inode) {
    && FsInv(f) && FsInv(g) && i in f.inode && g.sb == f.sb && g.owner == f.owner && g.inode == f.inode[i := ip]
    && forall j | j in f.inode :: ContentsOf(g, j) == ContentsOf(f, j)
  }

  lemma InodeInside(f: Fs, i: nat)
    requires FsInv(f) && i in f.inode
    ensures f.sb.inodestart <= IBlock(f.sb, i) < f.sb.bmapstart < |f.blocks|
    ensures Decode(f.blocks[IBlock(f.sb, i)], i % IPB) == f.inode[i]
  {
    InodeBlock(f, i);
    DecodeOnDisk(f.sb, f.blocks, i, f.inode[i]);
  }

  /** New type, links and numbers for an inode, in memory and on disk. */
  lemma Rewrite(f: Fs, i: nat, ip: Inode) returns (h: Fs)
    requires FsInv(f) && i in f.inode && ip.addrs == f.inode[i].addrs && ip.size == f.inode[i].size
    ensures var b := IBlock(f.sb, i);
            && b < f.sb.bmapstart < |f.blocks|
            && h == f.(inode := f.inode[i := ip], blocks := f.blocks[b := Put(f.blocks[b], i % IPB, ip, 16)])
    ensures Relabelled(f, h, i, ip)
  {
    hide OwnInv, SlotOf, Put;
    Relabel(f, i, ip);
    var g := f.(inode := f.inode[i := ip]);
    InodeBlock(g, i);
    var b := IBlock(f.sb, i);
    UpdateInv(g, i, Put(f.blocks[b], i % IPB, ip, 16));
    h := g.(blocks := f.blocks[b := Put(f.blocks[b], i % IPB, ip, 16)]);
    forall j | j in f.inode ensures FileOf(h.inode[j], h.blocks) == FileOf(f.inode[j], f.blocks) {
      assert FileOf(g.inode[j], h.blocks) == FileOf(g.inode[j], f.blocks);
    }
  }

  /** File i is gone with its blocks, its inode is free, and the other files are untouched. */
  ghost predicate Discarded(f: Fs, g: Fs, i: nat) {
    && FsInv(f) && FsInv(g) && i in f.inode && g.sb == f.sb
    && g.inode == f.inode[i := f.inode[i].(itype := 0, addrs := NO_ADDRS, size := 0)]
    && (forall j | j in f.inode && j != i :: ContentsOf(g, j) == ContentsOf(f, j))
    && g.owner == (map b | b in f.owner && f.owner[b].0 != i :: f.owner[b])
  }

  lemma Retired(f: Fs, g: Fs, i: nat)
    requires i in f.inode && Emptied(f, g, i)
    ensures i in g.inode && OwnInv(g.(inode := g.inode[i := g.inode[i].(itype := 0)]))
    ensures forall j | j in g.inode && j != i :: OnDisk(g.sb, g.blocks, j, g.inode[j])
  {
    Relabel(g, i, g.inode[i].(itype := 0));
  }

  lemma VacantWithout(f: Fs, h: Fs, i: nat)
    requires i in f.inode && h.inode == f.inode[i := f.inode[i].(itype := 0, addrs := NO_ADDRS, size := 0)]
    ensures Vacant(f) ==> Vacant(h)
  {
  }

  lemma DiscardDone(f: Fs, g: Fs, h: Fs, i: nat)
    requires i in f.inode && Emptied(f, g, i) && OwnInv(h) && Agree(h) && h.sb == g.sb && h.owner == g.owner
    requires i in g.inode && h.inode == g.inode[i := g.inode[i].(itype := 0)]
    requires forall j | j in h.inode :: FileOf(h.inode[j], h.blocks) == FileOf(h.inode[j], g.blocks)
    ensures Discarded(f, h, i) && (Vacant(f) ==> Vacant(h))
  {
    hide OwnInv, Agree, FileOf, DenseTo, Bytes, Vacant;
    Retired(f, g, i);
    VacantWithout(f, h, i);
    assert Tight(h.inode[i]);
    assert FileOf(h.inode[i], g.blocks) == FileOf(g.inode[i], g.blocks) by { Relabel(g, i, h.inode[i]); }
    forall j | j in h.inode ensures FileOf(h.inode[j], h.blocks) == FileOf(g.inode[j], g.blocks) {
      assert j != i ==> h.inode[j] == g.inode[j];
    }
  }

  /** What one turn of writei()'s loop does to file i: block bn is block b of the disk and holds the chunk, no other
      file has changed, the block is logged with what bmap() logged for it, and log_write() was called so often. */
  ghost predicate ChunkDone(f: Fs, g: Fs, i: nat, bn: nat, start: nat, chunk: seq<Byte>, b: nat,
                            l: set<nat>, l': set<nat>, calls: int)
  {
    && OwnInv(g) && i in f.inode && i in g.inode && OnlyFile(f, g, i) && Extends(f.owner, g.owner)
    && bn < MAXFILE && b != 0 && b == SlotOf(g.inode[i], g.blocks, DataSlot(bn)) && start + |chunk| <= BSIZE
    && var file := FileOf(f.inode[i], f.blocks);
       && FileOf(g.inode[i], g.blocks) == Turned(file, bn, start, chunk)
       && (bn in file ==> g.inode == f.inode && g.owner == f.owner)
       && l' == l + {b} + Bitmaps(f.sb, f.owner, g.owner) + (if bn in file then {} else Hook(g.inode[i], bn))
       && OnlyLogged(f.blocks, g.blocks, l')
       && calls == 1 + MapCost(bn in file, f.inode[i].addrs[NDIRECT] != 0, bn)
       && (g.inode[i].addrs[NDIRECT] != 0 <==> f.inode[i].addrs[NDIRECT] != 0 || bn >= NDIRECT)
  }

  /** The first tot bytes of a write to file i are in: what the files hold, how many calls that took, what is logged. */
  ghost predicate MidwayAt(f: Fs, g: Fs, i: nat, off: nat, src: seq<Byte>, tot: nat,
                           logged0: set<nat>, logged: set<nat>, calls: int)
  {
    && tot <= |src| && (tot == 0 || tot == |src| || (off + tot) % BSIZE == 0) && i in g.inode && i in f.inode
    && HalfWritten(f, g, i, off, src, tot)
    && Charged(f.inode[i].size, g.inode[i], off, tot, calls)
    && HalfLogged(f, g, logged0, logged, i, off, tot)
  }

  lemma MidwayOwned(f: Fs, g: Fs, i: nat, off: nat, src: seq<Byte>, tot: nat,
                    logged0: set<nat>, logged: set<nat>, calls: int)
    requires MidwayAt(f, g, i, off, src, tot, logged0, logged, calls)
    ensures OwnInv(g) && i in g.inode && i in f.inode && g.sb == f.sb
    ensures tot <= |src| && (tot == 0 || tot == |src| || (off + tot) % BSIZE == 0)
  {
    hide OwnInv, Charged, HalfLogged, Half, FileOf, OnlyFile;
  }

  lemma InFile(cur: nat)
    requires cur < MAXBYTES
    ensures cur / BSIZE < MAXFILE
  {
  }

  lemma TurnDone(f: Fs, g: Fs, h: Fs, i: nat, off: nat, src: seq<Byte>, tot: nat, m: nat, b: nat,
                 logged0: set<nat>, l: set<nat>, l': set<nat>, calls: int, calls': int)
    requires MidwayAt(f, g, i, off, src, tot, logged0, l, calls) && tot + m <= |src| && off + |src| <= MAXBYTES
    requires 0 < m && (off + tot) % BSIZE + m <= BSIZE && (tot + m == |src| || (off + tot + m) % BSIZE == 0)
    requires tot == 0 || (off + tot) % BSIZE == 0
    requires ChunkDone(g, h, i, (off + tot) / BSIZE, (off + tot) % BSIZE, src[tot..tot + m], b, l, l', calls' - calls)
    ensures MidwayAt(f, h, i, off, src, tot + m, logged0, l', calls')
  {
    hide OwnInv, SlotOf, FileOf, OnlyFile, HalfWritten, Charged, HalfLogged, MapCost, Bitmaps, Extends, OnlyLogged,
         Hook, Turned;
    HalfOwned(f, g, i, off, src, tot);
    WriteMore(f, g, h, i, off, src, tot, m);
    ChargeMore(FileOf(g.inode[i], g.blocks), f.inode[i].size, g.inode[i], h.inode[i], off, tot, m, calls, calls');
    LogMore(f, g, h, logged0, l, l', i, off, src, tot, m);
  }

  /** The first tot bytes of a write are in file i, and no other file has changed. */
  ghost predicate HalfWritten(f: Fs, g: Fs, i: nat, off: nat, src: seq<Byte>, tot: nat) {
    && OwnInv(g) && i in g.inode && i in f.inode && OnlyFile(f, g, i)
    && Half(FileOf(g.inode[i], g.blocks), FileOf(f.inode[i], f.blocks), f.inode[i].size, off, off + tot, src)
    && Extends(f.owner, g.owner) && g.sb == f.sb
    && (!Adds(f.inode[i].size, off, tot) ==> g.inode == f.inode && g.owner == f.owner)
  }

  /** They took this many calls of log_write(). */
  ghost predicate Charged(size: nat, ip: Inode, off: nat, tot: nat, calls: int) {
    && calls == TurnsCost(size, off / BSIZE, Turns(off, tot))
    && (ip.addrs[NDIRECT] != 0 <==> Max(size, off + tot) > NDIRECT * BSIZE)
  }

  /** Whatever has changed is logged, and so are the blocks written to. */
  ghost predicate HalfLogged(f: Fs, g: Fs, logged0: set<nat>, logged: set<nat>, i: nat, off: nat, tot: nat) {
    && i in f.inode && i in g.inode && logged == logged0 + Footprint(f, g, i, off, tot)
    && OnlyLogged(f.blocks, g.blocks, logged)
    && forall bn: nat {:trigger BlockLogged(g, logged, i, bn)} | Touched(off, tot, bn) :: BlockLogged(g, logged, i, bn)
  }

  lemma HalfOwned(f: Fs, g: Fs, i: nat, off: nat, src: seq<Byte>, tot: nat)
    requires HalfWritten(f, g, i, off, src, tot)
    ensures OwnInv(g) && i in g.inode && i in f.inode && g.sb == f.sb
    ensures off <= f.inode[i].size && DenseTo(FileOf(g.inode[i], g.blocks), Max(f.inode[i].size, off + tot))
  {
    hide OwnInv, FileOf, OnlyFile;
  }

  lemma WriteMore(f: Fs, g: Fs, h: Fs, i: nat, off: nat, src: seq<Byte>, tot: nat, m: nat)
    requires HalfWritten(f, g, i, off, src, tot) && OwnInv(h) && OnlyFile(g, h, i) && i in h.inode
               && Extends(g.owner, h.owner)
    requires 0 < m && tot + m <= |src| && off + |src| <= MAXBYTES && (off + tot) % BSIZE + m <= BSIZE
    requires tot == 0 || (off + tot) % BSIZE == 0
    requires var bn, file := (off + tot) / BSIZE, FileOf(g.inode[i], g.blocks);
             && FileOf(h.inode[i], h.blocks) == Turned(file, bn, (off + tot) % BSIZE, src[tot..tot + m])
             && (bn in file ==> h.inode == g.inode && h.owner == g.owner)
    ensures HalfWritten(f, h, i, off, src, tot + m)
  {
    hide OwnInv, FileOf, OnlyFile, Half, DenseTo;
    var file, file0, size := FileOf(g.inode[i], g.blocks), FileOf(f.inode[i], f.blocks), f.inode[i].size;
    HalfStep(file, file0, size, off, off + tot, src, m);
    HalfMapped(file, file0, size, off, off + tot, src);
    OnlyFileTrans(f, g, h, i);
    SameSuper(f, h, i);
    AddsTurn(file, size, off, tot, m);
  }

  lemma SameSuper(f: Fs, g: Fs, i: nat)
    requires OnlyFile(f, g, i)
    ensures g.sb == f.sb
  {
  }

  lemma ChargeMore(file: map<nat, Block>, size: nat, ip: Inode, ip': Inode, off: nat, tot: nat, m: nat,
                   calls: int, calls': int)
    requires off <= size && DenseTo(file, Max(size, off + tot)) && (tot == 0 || (off + tot) % BSIZE == 0)
    requires 0 < m && (off + tot) % BSIZE + m <= BSIZE && Charged(size, ip, off, tot, calls)
    requires var bn := (off + tot) / BSIZE;
             && calls' == calls + 1 + MapCost(bn in file, ip.addrs[NDIRECT] != 0, bn)
             && (ip'.addrs[NDIRECT] != 0 <==> ip.addrs[NDIRECT] != 0 || bn >= NDIRECT)
    ensures Charged(size, ip', off, tot + m, calls')
  {
    TurnCost(file, size, off, tot, m);
    hide TurnCost1, MapCost, Turns;
  }

  lemma LogMore(f: Fs, g: Fs, h: Fs, logged0: set<nat>, l: set<nat>, l': set<nat>,
                i: nat, off: nat, src: seq<Byte>, tot: nat, m: nat)
    requires HalfWritten(f, g, i, off, src, tot) && HalfLogged(f, g, logged0, l, i, off, tot)
    requires OnlyFile(g, h, i) && i in h.inode && Extends(g.owner, h.owner) && OnlyLogged(g.blocks, h.blocks, l')
    requires 0 < m && (off + tot) % BSIZE + m <= BSIZE && (tot == 0 || (off + tot) % BSIZE == 0)
    requires var bn, file := (off + tot) / BSIZE, FileOf(g.inode[i], g.blocks);
             && bn < MAXFILE && SlotOf(h.inode[i], h.blocks, DataSlot(bn)) != 0
             && l' == l + {SlotOf(h.inode[i], h.blocks, DataSlot(bn))} + Bitmaps(g.sb, g.owner, h.owner)
                      + if bn in file then {} else Hook(h.inode[i], bn)
    ensures HalfLogged(f, h, logged0, l', i, off, tot + m)
  {
    hide OnlyFile, OnlyLogged, Touched, Half, OwnInv, FileOf, Bitmaps, Extends, Adds, SlotOf, DenseTo;
    var bn, file, size := (off + tot) / BSIZE, FileOf(g.inode[i], g.blocks), f.inode[i].size;
    OnlyLoggedTrans(f.blocks, g.blocks, h.blocks, l, l');
    LoggedTurn(g, h, l, l', i, off, tot, m);
    HalfMapped(file, FileOf(f.inode[i], f.blocks), size, off, off + tot, src);
    AddsTurn(file, size, off, tot, m);
    BitmapsTrans(f.sb, f.owner, g.owner, h.owner);
    DataTurn(g, h, l, i, off, tot, m);
    if AddsEntry(size, off, tot) {
      EntryAdded(g, size, i, off, tot);
      HookStays(g, h, i);
    }
  }

  /** The blocks with bytes of a write, one turn later. */
  lemma DataTurn(g: Fs, h: Fs, l: set<nat>, i: nat, off: nat, tot: nat, m: nat)
    requires forall bn: nat {:trigger BlockLogged(g, l, i, bn)} | Touched(off, tot, bn) :: BlockLogged(g, l, i, bn)
    requires i in g.inode && i in h.inode && OnlyFile(g, h, i) && (off + tot) / BSIZE < MAXFILE
    requires 0 < m && (off + tot) % BSIZE + m <= BSIZE && (tot == 0 || (off + tot) % BSIZE == 0)
    ensures DataBlocks(h, i, off, tot + m)
            == DataBlocks(g, i, off, tot) + {SlotOf(h.inode[i], h.blocks, DataSlot((off + tot) / BSIZE))}
  {
    hide SlotOf;
    var now := (off + tot) / BSIZE;
    forall bn: nat | bn < MAXFILE
      ensures Touched(off, tot + m, bn) <==> Touched(off, tot, bn) || bn == now
      ensures Touched(off, tot, bn) ==>
                SlotOf(h.inode[i], h.blocks, DataSlot(bn)) == SlotOf(g.inode[i], g.blocks, DataSlot(bn))
    {
      TouchedTurn(off, tot, m, bn);
      if Touched(off, tot, bn) {
        assert BlockLogged(g, l, i, bn);
        assert SlotStays(g, h, i, DataSlot(bn));
      }
    }
    SameBlocks(g, h, i, off, tot, m, now);
  }

  lemma SameBlocks(g: Fs, h: Fs, i: nat, off: nat, tot: nat, m: nat, now: nat)
    requires i in g.inode && i in h.inode && now < MAXFILE
    requires forall bn: nat | bn < MAXFILE :: Touched(off, tot + m, bn) <==> Touched(off, tot, bn) || bn == now
    requires forall bn: nat | bn < MAXFILE && Touched(off, tot, bn) ::
               SlotOf(h.inode[i], h.blocks, DataSlot(bn)) == SlotOf(g.inode[i], g.blocks, DataSlot(bn))
    ensures DataBlocks(h, i, off, tot + m) == DataBlocks(g, i, off, tot) + {SlotOf(h.inode[i], h.blocks, DataSlot(now))}
  {
    hide SlotOf, Touched;
    var a := DataBlocks(h, i, off, tot + m);
    var b := DataBlocks(g, i, off, tot) + {SlotOf(h.inode[i], h.blocks, DataSlot(now))};
    forall x | x in a ensures x in b {
      var bn :| 0 <= bn < MAXFILE && Touched(off, tot + m, bn) && x == SlotOf(h.inode[i], h.blocks, DataSlot(bn));
    }
    forall x | x in b ensures x in a {
      if x in DataBlocks(g, i, off, tot) {
        var bn :| 0 <= bn < MAXFILE && Touched(off, tot, bn) && x == SlotOf(g.inode[i], g.blocks, DataSlot(bn));
        assert Touched(off, tot + m, bn);
      } else {
        assert Touched(off, tot + m, now);
      }
    }
  }

  lemma HookStays(g: Fs, h: Fs, i: nat)
    requires OnlyFile(g, h, i) && i in g.inode && i in h.inode && g.inode[i].addrs[NDIRECT] != 0
    ensures h.inode[i].addrs[NDIRECT] == g.inode[i].addrs[NDIRECT]
  {
    assert SlotStays(g, h, i, NDIRECT);
  }

  /** A file with entries has an indirect block. */
  lemma EntryAdded(g: Fs, size: nat, i: nat, off: nat, tot: nat)
    requires i in g.inode && OwnInv(g) && DenseTo(FileOf(g.inode[i], g.blocks), Max(size, off + tot))
               && AddsEntry(size, off, tot)
    ensures g.inode[i].addrs[NDIRECT] != 0
  {
    var last := (off + tot - 1) / BSIZE;
    assert last in FileOf(g.inode[i], g.blocks);
    EntryMapped(g, i, last - NDIRECT);
  }

  /** The log filled up in the middle of a turn. */
  lemma FullTurn(f: Fs, g: Fs, ip: Inode, logged0: set<nat>, l: set<nat>, l': set<nat>,
                 i: nat, off: nat, src: seq<Byte>, tot: nat, m: nat, calls: int)
    requires MidwayAt(f, g, i, off, src, tot, logged0, l, calls)
    requires 0 < m && (off + tot) % BSIZE + m <= BSIZE && (tot == 0 || (off + tot) % BSIZE == 0)
    requires var bn := (off + tot) / BSIZE;
             OverrunBy(g.sb, g.inode[i], ip, l, l', bn in FileOf(g.inode[i], g.blocks), bn)
    ensures |l'| <= |logged0| + SpreadData(BitmapBlocks(f.sb), f.inode[i].size, off, tot + m)
  {
    hide OwnInv, FileOf, OnlyFile, BitmapArea, OnlyLogged, DenseTo, Touched, Footprint, DataBlocks, Adds, AddsEntry,
         Turns, Half, Charged;
    var bn, file, size := (off + tot) / BSIZE, FileOf(g.inode[i], g.blocks), f.inode[i].size;
    HalfMapped(file, FileOf(f.inode[i], f.blocks), size, off, off + tot, src);
    AddsTurn(file, size, off, tot, m);
    FootprintCover(f, g, ip, i, off, src, tot, m);
    DataCard(g, i, off, tot);
    BitmapAreaCount(f.sb);
    var data := DataBlocks(g, i, off, tot);
    var area := if Adds(size, off, tot + m) then BitmapArea(f.sb) else {};
    var hook := if AddsEntry(size, off, tot + m) then {ip.addrs[NDIRECT] as nat} else {};
    var extra := l' - (l + if bn in file then {} else BitmapArea(g.sb) + Hook(ip, bn));
    SubsetCard(l', logged0 + data + area + hook + extra);
    FiveCard(logged0, data, area, hook, extra);
  }

  /** What has been logged before a turn, and the bitmap and the indirect block that the turn may need. */
  lemma FootprintCover(f: Fs, g: Fs, ip: Inode, i: nat, off: nat, src: seq<Byte>, tot: nat, m: nat)
    requires HalfWritten(f, g, i, off, src, tot)
    requires g.inode[i].addrs[NDIRECT] != 0 ==> ip.addrs[NDIRECT] == g.inode[i].addrs[NDIRECT]
    ensures var size := f.inode[i].size;
            Footprint(f, g, i, off, tot) <= DataBlocks(g, i, off, tot)
                                            + (if Adds(size, off, tot + m) then BitmapArea(f.sb) else {})
                                            + (if AddsEntry(size, off, tot + m) then {ip.addrs[NDIRECT] as nat} else {})
  {
    hide OwnInv, FileOf, OnlyFile, BitmapArea, DenseTo, DataBlocks, Adds, Half, Bitmaps;
    var size := f.inode[i].size;
    HalfMapped(FileOf(g.inode[i], g.blocks), FileOf(f.inode[i], f.blocks), size, off, off + tot, src);
    BitmapsInArea(g, f.owner);
    SpreadMore(0, size, off, tot, tot + m);
    if AddsEntry(size, off, tot) {
      EntryAdded(g, size, i, off, tot);
    }
    if !Adds(size, off, tot) {
      BitmapsSelf(f.sb, f.owner);
    }
  }

  lemma FiveCard(a: set<nat>, b: set<nat>, c: set<nat>, d: set<nat>, e: set<nat>)
    ensures |a + b + c + d + e| <= |a| + |b| + |c| + |d| + |e|
  {
    UnionCard(a, b);
    UnionCard(a + b, c);
    UnionCard(a + b + c, d);
    UnionCard(a + b + c + d, e);
  }

  /** writei()'s iupdate() failed: the data and what bmap() logged have been counted. */
  lemma FootprintCard(f: Fs, g: Fs, logged0: set<nat>, l: set<nat>, i: nat, off: nat, src: seq<Byte>)
    requires HalfWritten(f, g, i, off, src, |src|) && HalfLogged(f, g, logged0, l, i, off, |src|)
    ensures |l| <= |logged0| + SpreadData(BitmapBlocks(f.sb), f.inode[i].size, off, |src|)
  {
    hide Half, OwnInv, FileOf, OnlyFile, BitmapArea, OnlyLogged;
    var size := f.inode[i].size;
    BitmapsInArea(g, f.owner);
    DataCard(g, i, off, |src|);
    var area := if Adds(size, off, |src|) then BitmapArea(f.sb) else {};
    var hook := if AddsEntry(size, off, |src|) then {g.inode[i].addrs[NDIRECT] as nat} else {};
    if !Adds(size, off, |src|) {
      BitmapsSelf(f.sb, f.owner);
    }
    SubsetCard(l, logged0 + DataBlocks(g, i, off, |src|) + area + hook + {});
    FiveCard(logged0, DataBlocks(g, i, off, |src|), area, hook, {});
    BitmapAreaCount(f.sb);
  }

  /** writei() with its inode written back: no block has moved. */
  lemma StampDone(f: Fs, g: Fs, h: Fs, logged0: set<nat>, l: set<nat>, l': set<nat>, i: nat, off: nat, src: seq<Byte>)
    requires HalfWritten(f, g, i, off, src, |src|) && HalfLogged(f, g, logged0, l, i, off, |src|)
    requires OwnInv(h) && h.sb == g.sb && h.owner == g.owner && Grows(f.inode[i].size, off, |src|)
    requires i in h.inode && h.inode[i].addrs == g.inode[i].addrs
    requires IBlock(g.sb, i) < |g.blocks| && h.blocks == g.blocks[IBlock(g.sb, i) := h.blocks[IBlock(g.sb, i)]]
    requires l' == l + {IBlock(g.sb, i)}
    ensures OnlyLogged(f.blocks, h.blocks, l') && l' == logged0 + Stamped(f, h, i, off, |src|)
    ensures forall bn: nat {:trigger BlockLogged(h, l', i, bn)} | Touched(off, |src|, bn) :: BlockLogged(h, l', i, bn)
  {
    hide OwnInv, OnlyFile, Half, FileOf, OnlyLogged, Bitmaps, Touched;
    OneLogged(g.blocks, h.blocks, IBlock(g.sb, i), l');
    OnlyLoggedTrans(f.blocks, g.blocks, h.blocks, l, l');
    forall bn: nat | Touched(off, |src|, bn) ensures BlockLogged(h, l', i, bn) {
      assert BlockLogged(g, l, i, bn);
      LoggedStamped(g, h, l, l', i, bn);
    }
    StampSlots(g, h, i);
    assert DataBlocks(h, i, off, |src|) == DataBlocks(g, i, off, |src|);
  }

  lemma StampSlots(g: Fs, h: Fs, i: nat)
    requires OwnInv(g) && i in g.inode && i in h.inode && h.inode[i].addrs == g.inode[i].addrs
    requires IBlock(g.sb, i) < |g.blocks| == |h.blocks|
               && h.blocks == g.blocks[IBlock(g.sb, i) := h.blocks[IBlock(g.sb, i)]]
    ensures forall s | 0 <= s < NSLOTS :: SlotOf(h.inode[i], h.blocks, s) == SlotOf(g.inode[i], g.blocks, s)
  {
    InodeBlock(g, i);
    assert SlotOf(g.inode[i], g.blocks, NDIRECT) == g.inode[i].addrs[NDIRECT];
    if g.inode[i].addrs[NDIRECT] != 0 {
      assert HangsFrom(g, g.inode[i].addrs[NDIRECT]);
    }
  }

  /** writei() of bytes that the file has already. */
  lemma StillSame(f: Fs, g: Fs, i: nat, off: nat, src: seq<Byte>)
    requires HalfWritten(f, g, i, off, src, |src|) && !Grows(f.inode[i].size, off, |src|)
    requires OnDisk(g.sb, g.blocks, i, f.inode[i])
    requires forall j | j in g.inode && j != i :: OnDisk(g.sb, g.blocks, j, g.inode[j])
    ensures Agree(g) && g.inode == f.inode && Max(f.inode[i].size, off + |src|) == f.inode[i].size
  {
    hide OwnInv, OnlyFile, Half, FileOf;
    HalfMapped(FileOf(g.inode[i], g.blocks), FileOf(f.inode[i], f.blocks), f.inode[i].size, off, off + |src|, src);
    assert !Adds(f.inode[i].size, off, |src|);
    StillAgree(f, g, i);
  }

  lemma LoggedTurn(g: Fs, h: Fs, l: set<nat>, l': set<nat>, i: nat, off: nat, tot: nat, m: nat)
    requires forall bn: nat {:trigger BlockLogged(g, l, i, bn)} | Touched(off, tot, bn) :: BlockLogged(g, l, i, bn)
    requires OnlyFile(g, h, i) && l <= l' && BlockLogged(h, l', i, (off + tot) / BSIZE)
    requires 0 < m && (off + tot) % BSIZE + m <= BSIZE
    ensures forall bn: nat {:trigger BlockLogged(h, l', i, bn)} | Touched(off, tot + m, bn) :: BlockLogged(h, l', i, bn)
  {
    hide OnlyFile, BlockLogged;
    forall bn: nat | Touched(off, tot + m, bn) ensures BlockLogged(h, l', i, bn) {
      TouchedStep(off, tot, m, bn);
      if Touched(off, tot, bn) {
        assert BlockLogged(g, l, i, bn);
        LoggedStays(g, h, l, l', i, bn);
      }
    }
  }

  lemma LoggedStays(f: Fs, g: Fs, l: set<nat>, l': set<nat>, i: nat, bn: nat)
    requires OnlyFile(f, g, i) && BlockLogged(f, l, i, bn) && l <= l'
    ensures BlockLogged(g, l', i, bn)
  {
    assert SlotStays(f, g, i, DataSlot(bn));
  }

  /** Writing the inode back moves no block. */
  lemma LoggedStamped(f: Fs, g: Fs, l: set<nat>, l': set<nat>, i: nat, bn: nat)
    requires BlockLogged(f, l, i, bn) && l <= l' && OwnInv(f) && OwnInv(g) && g.sb == f.sb
    requires i in g.inode && g.inode[i].addrs == f.inode[i].addrs
    requires IBlock(f.sb, i) < |f.blocks| && g.blocks == f.blocks[IBlock(f.sb, i) := g.blocks[IBlock(f.sb, i)]]
    ensures BlockLogged(g, l', i, bn)
  {
    InodeBlock(f, i);
    assert SlotOf(f.inode[i], f.blocks, NDIRECT) == f.inode[i].addrs[NDIRECT];
    if f.inode[i].addrs[NDIRECT] != 0 {
      assert HangsFrom(f, f.inode[i].addrs[NDIRECT]);
    }
  }

  lemma IndirectIff(f: Fs, i: nat)
    requires OwnInv(f) && i in f.inode && DenseTo(FileOf(f.inode[i], f.blocks), f.inode[i].size) && Tight(f.inode[i])
    ensures f.inode[i].addrs[NDIRECT] != 0 <==> f.inode[i].size > NDIRECT * BSIZE
  {
    if f.inode[i].size > NDIRECT * BSIZE {
      assert NDIRECT in FileOf(f.inode[i], f.blocks);
    }
  }

  /** The first k bytes of data are in the file. */
  ghost predicate WrittenSoFar(f: Fs, g: Fs, i: nat, off: nat, data: seq<Byte>, k: nat) {
    k <= |data| && if k == 0 then g == f else Written(f, g, i, off, data[..k])
  }

  lemma SpliceThen(s: seq<Byte>, off: nat, a: seq<Byte>, b: seq<Byte>)
    requires off <= |s|
    ensures Splice(Splice(s, off, a), off + |a|, b) == Splice(s, off, a + b)
  {
  }

  lemma WrittenKeeps(f: Fs, g: Fs, i: nat, off: nat, src: seq<Byte>)
    requires Written(f, g, i, off, src)
    ensures FsInv(g) && i in g.inode && i in f.inode && off + |src| <= g.inode[i].size
              && g.inode[i].itype == f.inode[i].itype
  {
  }

  /** Two writes in a row are one. */
  lemma WrittenTwice(f: Fs, g: Fs, h: Fs, i: nat, off: nat, a: seq<Byte>, b: seq<Byte>)
    requires Written(f, g, i, off, a) && Written(g, h, i, off + |a|, b)
    ensures Written(f, h, i, off, a + b)
  {
    hide OwnInv, FileOf, Splice, Agree;
    SpliceThen(ContentsOf(f, i), off, a, b);
    forall j | j in f.inode && j != i ensures h.inode[j] == f.inode[j] && ContentsOf(h, j) == ContentsOf(f, j) {
      assert g.inode[j] == f.inode[j] && ContentsOf(g, j) == ContentsOf(f, j);
    }
  }

  lemma WrittenMore(f: Fs, g: Fs, h: Fs, i: nat, off: nat, data: seq<Byte>, k: nat, n: nat)
    requires WrittenSoFar(f, g, i, off, data, k) && 0 < n && k + n <= |data|
               && Written(g, h, i, off + k, data[k..k + n])
    ensures WrittenSoFar(f, h, i, off, data, k + n)
  {
    hide Written;
    assert data[..k + n] == data[..k] + data[k..k + n];
    if k > 0 {
      WrittenTwice(f, g, h, i, off, data[..k], data[k..k + n]);
    } else {
      assert data[..n] == data[0..n];
    }
  }

  /** The effect of a write, file by file. */
  ghost predicate Written(f: Fs, g: Fs, i: nat, off: nat, src: seq<Byte>) {
    && FsInv(f) && FsInv(g) && i in f.inode && g.inode.Keys == f.inode.Keys && off <= f.inode[i].size
    && g.inode[i] == f.inode[i].(addrs := g.inode[i].addrs, size := g.inode[i].size)
    && g.inode[i].size == Max(f.inode[i].size, off + |src|)
    && ContentsOf(g, i) == Splice(ContentsOf(f, i), off, src)
    && (forall j | j in f.inode && j != i :: g.inode[j] == f.inode[j] && ContentsOf(g, j) == ContentsOf(f, j))
  }

  /** The other inodes are still on disk as in memory; so is inode i, as it was before. */
  lemma OthersOnDisk(f: Fs, g: Fs, i: nat)
    requires FsInv(f) && OwnInv(g) && OnlyFile(f, g, i)
    ensures i in g.inode && g.inode[i].size == f.inode[i].size
    ensures forall j | j in g.inode && j != i :: OnDisk(g.sb, g.blocks, j, g.inode[j])
    ensures OnDisk(g.sb, g.blocks, i, f.inode[i])
  {
    forall j | j in g.inode ensures OnDisk(g.sb, g.blocks, j, f.inode[j]) {
      OnDiskKept(f.sb, f.blocks, g.blocks, j, f.inode[j]);
    }
  }

  /** Ownership and contents depend on an inode's addresses only. */
  lemma Relabel(g: Fs, i: nat, ip: Inode)
    requires OwnInv(g) && i in g.inode && ip.addrs == g.inode[i].addrs
    ensures OwnInv(g.(inode := g.inode[i := ip]))
    ensures FileOf(ip, g.blocks) == FileOf(g.inode[i], g.blocks)
  {
    var h := g.(inode := g.inode[i := ip]);
    forall j, s | j in h.inode && 0 <= s < NSLOTS
      ensures SlotOf(h.inode[j], h.blocks, s) == SlotOf(g.inode[j], g.blocks, s) {}
    forall c | c in h.owner ensures HangsFrom(h, c) { assert HangsFrom(g, c); }
    forall c | 0 <= c < h.sb.size ensures InBitmap(h, c) { assert InBitmap(g, c); }
  }

  lemma StillAgree(f: Fs, g: Fs, i: nat)
    requires OnlyFile(f, g, i) && g.inode == f.inode
    requires OnDisk(g.sb, g.blocks, i, f.inode[i])
    requires forall j | j in g.inode && j != i :: OnDisk(g.sb, g.blocks, j, g.inode[j])
    ensures Agree(g)
  {
  }

  lemma FilesNow(f: Fs, g: Fs, i: nat)
    requires OnlyFile(f, g, i)
    ensures i in g.inode && g.inode.Keys == f.inode.Keys && g.inode[i] == f.inode[i].(addrs := g.inode[i].addrs)
    ensures forall j | j in f.inode && j != i ::
              g.inode[j] == f.inode[j] && FileOf(g.inode[j], g.blocks) == FileOf(f.inode[j], f.blocks)
  {
  }

  lemma WrittenDone(f: Fs, g: Fs, h: Fs, i: nat, off: nat, src: seq<Byte>)
    requires FsInv(f) && OnlyFile(f, g, i) && i in f.inode && i in g.inode && off <= f.inode[i].size
    requires Half(FileOf(g.inode[i], g.blocks), FileOf(f.inode[i], f.blocks), f.inode[i].size, off, off + |src|, src)
    requires OwnInv(h) && Agree(h) && Max(f.inode[i].size, off + |src|) < TWO32
    requires g.inode[i].addrs[NDIRECT] != 0 ==> Max(f.inode[i].size, off + |src|) > NDIRECT * BSIZE
    requires h.inode == g.inode[i := g.inode[i].(size := Max(f.inode[i].size, off + |src|))]
    requires FileOf(h.inode[i], h.blocks) == FileOf(g.inode[i], g.blocks)
    requires forall j | j in g.inode && j != i :: FileOf(g.inode[j], h.blocks) == FileOf(g.inode[j], g.blocks)
    ensures FsInv(h) && Written(f, h, i, off, src)
  {
    hide OwnInv, SlotOf, FileOf, OnlyFile, Agree, Half, Bytes, Splice, DenseTo;
    HalfMapped(FileOf(g.inode[i], g.blocks), FileOf(f.inode[i], f.blocks), f.inode[i].size, off, off + |src|, src);
    HalfDone(FileOf(g.inode[i], g.blocks), FileOf(f.inode[i], f.blocks), f.inode[i].size, off, src);
    FilesNow(f, g, i);
    forall j | j in h.inode && j != i
      ensures h.inode[j] == f.inode[j] && FileOf(h.inode[j], h.blocks) == FileOf(f.inode[j], f.blocks)
    {
    }
  }

  lemma OnlyFileSelf(f: Fs, i: nat)
    requires i in f.inode
    ensures OnlyFile(f, f, i)
  {
    forall s | 0 <= s < NSLOTS ensures SlotStays(f, f, i, s) {}
  }

  lemma HalfMapped(F: File, F0: File, size: nat, off: nat, cur: nat, src: seq<Byte>)
    requires Half(F, F0, size, off, cur, src)
    ensures cur < size ==> cur / BSIZE in F
    ensures off <= size && DenseTo(F, Max(size, cur))
  {
  }

  lemma FileBound(f: Fs, i: nat, bn: nat)
    requires i in f.inode
    ensures bn in FileOf(f.inode[i], f.blocks) ==> bn < MAXFILE
  {
  }

  lemma ChunkEffect(f: Fs, g: Fs, i: nat, bn: nat, start: nat, chunk: seq<Byte>) returns (h: Fs)
    requires bn < MAXFILE && OwnInv(g) && i in f.inode && i in g.inode && Mapped(f, g, i, bn)
               && start + |chunk| <= BSIZE
    requires SlotOf(g.inode[i], g.blocks, DataSlot(bn)) != 0
    ensures var b := SlotOf(g.inode[i], g.blocks, DataSlot(bn));
            b < |g.blocks| && h == g.(blocks := g.blocks[b := Patch(g.blocks[b], start, chunk)])
    ensures OwnInv(h) && OnlyFile(f, h, i)
    ensures FileOf(h.inode[i], h.blocks) == Turned(FileOf(f.inode[i], f.blocks), bn, start, chunk)
    ensures SlotOf(h.inode[i], h.blocks, DataSlot(bn)) == SlotOf(g.inode[i], g.blocks, DataSlot(bn))
  {
    hide OwnInv, SlotOf, FileOf, OnlyFile;
    MappedSlotIn(g, i, bn);
    MappedBlock(g, i, bn);
    var b := SlotOf(g.inode[i], g.blocks, DataSlot(bn));
    h := StoreEffect(g, i, bn, Patch(g.blocks[b], start, chunk));
    OnlyFileTrans(f, g, h, i);
  }

  /** bmap() has returned a block of the disk, and this is what copying the chunk into it makes of the file system. */
  lemma ChunkPlaced(f: Fs, g: Fs, i: nat, bn: nat, start: nat, chunk: seq<Byte>, b: nat, l: set<nat>, l': set<nat>,
                    calls: int) returns (h: Fs)
    requires MapDone(f, g, i, bn, b, l, l', calls) && start + |chunk| <= BSIZE
    ensures b < |g.blocks| && h == g.(blocks := g.blocks[b := Patch(g.blocks[b], start, chunk)])
    ensures OwnInv(h) && i in g.inode && OnlyFile(f, h, i)
    ensures FileOf(h.inode[i], h.blocks) == Turned(FileOf(f.inode[i], f.blocks), bn, start, chunk)
    ensures b == SlotOf(h.inode[i], h.blocks, DataSlot(bn))
  {
    hide OwnInv, SlotOf, FileOf, OnlyFile, OnlyLogged, Extends, Bitmaps, MapPrint, MapCost, Mapped;
    h := ChunkEffect(f, g, i, bn, start, chunk);
  }

  lemma ChunkMade(f: Fs, g: Fs, h: Fs, i: nat, bn: nat, start: nat, chunk: seq<Byte>, b: nat,
                  l: set<nat>, l1: set<nat>, l2: set<nat>, calls: int)
    requires MapDone(f, g, i, bn, b, l, l1, calls) && start + |chunk| <= BSIZE && b < |g.blocks|
    requires h == g.(blocks := g.blocks[b := Patch(g.blocks[b], start, chunk)]) && l2 == l1 + {b}
    ensures ChunkDone(f, h, i, bn, start, chunk, b, l, l2, calls + 1)
  {
    hide OwnInv, SlotOf, FileOf, OnlyFile, OnlyLogged, Extends, Bitmaps, MapCost, Turned, Mapped, Hook;
    var h' := ChunkPlaced(f, g, i, bn, start, chunk, b, l, l1, calls);
    MappedSame(f, g, i, bn);
    OneLogged(g.blocks, h.blocks, b, l2);
    OnlyLoggedTrans(f.blocks, g.blocks, h.blocks, l1, l2);
    BitmapsSelf(f.sb, f.owner);
  }

  lemma MappedSlotIn(g: Fs, i: nat, bn: nat)
    requires OwnInv(g) && i in g.inode && bn < MAXFILE && SlotOf(g.inode[i], g.blocks, DataSlot(bn)) != 0
    ensures bn in FileOf(g.inode[i], g.blocks)
  {
    MappedSlot(g, i, bn);
  }

  lemma StoreEffect(g: Fs, i: nat, bn: nat, data: Block) returns (h: Fs)
    requires OwnInv(g) && i in g.inode && bn < MAXFILE && SlotOf(g.inode[i], g.blocks, DataSlot(bn)) != 0
    ensures SlotOf(g.inode[i], g.blocks, DataSlot(bn)) < |g.blocks|
    ensures h == g.(blocks := g.blocks[SlotOf(g.inode[i], g.blocks, DataSlot(bn)) := data])
    ensures OwnInv(h) && OnlyFile(g, h, i)
    ensures FileOf(h.inode[i], h.blocks) == FileOf(g.inode[i], g.blocks)[bn := data]
    ensures SlotOf(h.inode[i], h.blocks, DataSlot(bn)) == SlotOf(g.inode[i], g.blocks, DataSlot(bn))
  {
    StoreData(g, i, bn, data);
    StoreKeepsSlots(g, i, bn, data);
    h := g.(blocks := g.blocks[SlotOf(g.inode[i], g.blocks, DataSlot(bn)) := data]);
    forall s | 0 <= s < NSLOTS ensures SlotStays(g, h, i, s) {}
  }

  lemma InodeBlock(f: Fs, i: nat)
    requires OwnInv(f) && i in f.inode
    ensures f.sb.inodestart <= IBlock(f.sb, i) < f.sb.bmapstart < f.sb.datastart <= |f.blocks|
  {
    assert i / IPB <= f.sb.ninodes / IPB;
  }

  /** Writing an inode block back changes no file and no bit. */
  lemma UpdateInv(f: Fs, i: nat, data: Block)
    requires OwnInv(f) && i in f.inode && IBlock(f.sb, i) < |f.blocks|
    requires data == Put(f.blocks[IBlock(f.sb, i)], i % IPB, f.inode[i], 16)
    requires forall j | j in f.inode && j != i :: OnDisk(f.sb, f.blocks, j, f.inode[j])
    ensures var g := f.(blocks := f.blocks[IBlock(f.sb, i) := data]);
            && OwnInv(g) && Agree(g)
            && (forall j | j in f.inode :: FileOf(f.inode[j], g.blocks) == FileOf(f.inode[j], f.blocks))
  {
    InodeBlock(f, i);
    var g := f.(blocks := f.blocks[IBlock(f.sb, i) := data]);
    MetaInv(f, g.blocks);
    forall j | j in g.inode ensures OnDisk(g.sb, g.blocks, j, g.inode[j]) {
      PutOnDisk(f.sb, f.blocks, i, f.inode[i], j, f.inode[j]);
    }
  }

  /** Ownership does not depend on blocks that are neither data nor bitmap. */
  lemma MetaInv(f: Fs, blocks': seq<Block>)
    requires OwnInv(f) && |blocks'| == |f.blocks|
    requires forall k | f.sb.bmapstart <= k < |f.blocks| :: blocks'[k] == f.blocks[k]
    ensures OwnInv(f.(blocks := blocks'))
    ensures forall j | j in f.inode :: FileOf(f.inode[j], blocks') == FileOf(f.inode[j], f.blocks)
  {
    var g := f.(blocks := blocks');
    forall c | c in f.owner ensures f.sb.bmapstart <= c < |f.blocks| { assert HangsFrom(f, c); }
    forall j | j in f.inode
      ensures FileOf(f.inode[j], blocks') == FileOf(f.inode[j], f.blocks) && SameSlots(f.inode[j], f.blocks, blocks')
    {
      FileKept(f, j, blocks');
    }
    forall j, s | j in g.inode && 0 <= s < NSLOTS
      ensures SlotOf(g.inode[j], g.blocks, s) == SlotOf(f.inode[j], f.blocks, s)
    {
      assert SameSlots(f.inode[j], f.blocks, blocks');
    }
    forall c | c in g.owner ensures HangsFrom(g, c) { assert HangsFrom(f, c); }
    forall c | 0 <= c < g.sb.size ensures InBitmap(g, c) {
      assert InBitmap(f, c);
      BitmapKept(f.sb, f.blocks, blocks', c);
    }
  }

  lemma MappedBlock(f: Fs, i: nat, bn: nat)
    requires OwnInv(f) && i in f.inode && bn in FileOf(f.inode[i], f.blocks)
    ensures bn < MAXFILE && SlotOf(f.inode[i], f.blocks, DataSlot(bn)) < |f.blocks|
    ensures FileOf(f.inode[i], f.blocks)[bn] == f.blocks[SlotOf(f.inode[i], f.blocks, DataSlot(bn))]
  {
  }

  lemma DirectWord(f: Fs, i: nat, bn: nat)
    requires OwnInv(f) && i in f.inode && bn < NDIRECT
    ensures SlotOf(f.inode[i], f.blocks, DataSlot(bn)) == f.inode[i].addrs[bn]
    ensures bn in FileOf(f.inode[i], f.blocks) <==> f.inode[i].addrs[bn] != 0
    ensures OnlyFile(f, f, i)
  {
    MappedSlot(f, i, bn);
    OnlyFileSelf(f, i);
  }

  /** A mapped indirect block needs a mapped indirect slot. */
  lemma EntryMapped(f: Fs, i: nat, k: nat)
    requires OwnInv(f) && i in f.inode && k < NINDIRECT
    ensures NDIRECT + k in FileOf(f.inode[i], f.blocks) ==> f.inode[i].addrs[NDIRECT] != 0
    ensures NDIRECT + k in FileOf(f.inode[i], f.blocks) ==> SlotOf(f.inode[i], f.blocks, NDIRECT + 1 + k) != 0
  {
    MappedSlot(f, i, NDIRECT + k);
  }
}
