/** Inodes, the blocks they own, and the ownership invariant of crates/fs/src/fs.rs.

    A slot of an inode is a place that can hold a block number: slots 0..11 are the direct blocks, slot 12 the
    indirect block, slots 13..140 the entries of the indirect block. */
module Inodes {
  import opened Blocks
  import opened Bitmap

  const NDIRECT := 12
  const NINDIRECT := 128
  const MAXFILE := 140          // NDIRECT + NINDIRECT
  const NSLOTS := 141
  const IPB := 8                // inodes per block

  datatype RawInode = Inode(itype: nat, major: nat, minor: nat, nlink: nat, size: U32, addrs: seq<U32>)

  predicate Sound(ip: RawInode) {
    && |ip.addrs| == NDIRECT + 1
    && ip.itype < 0x1_0000 && ip.major < 0x1_0000 && ip.minor < 0x1_0000 && ip.nlink < 0x1_0000
  }

  const FREE_INODE: RawInode := Inode(0, 0, 0, 0, 0, [0, 0, 0, 0, 0, 0, 0, 0, 0, 0, 0, 0, 0])

  type Inode = ip: RawInode | Sound(ip) witness FREE_INODE

  /** The superblock, with the first data block spelled out. */
  datatype Super = Super(size: nat, ninodes: nat, inodestart: nat, bmapstart: nat, datastart: nat)

  /** Inode blocks, then the bitmap, then data; block 0 is never data. */
  predicate GoodLayout(sb: Super) {
    && 0 < sb.inodestart && sb.inodestart + sb.ninodes / IPB < sb.bmapstart
    && sb.bmapstart + sb.size / BPB < sb.datastart
    && sb.datastart <= sb.size < TWO32
  }

  /** The block number in slot s, 0 for none. */
  function SlotOf(ip: Inode, blocks: seq<Block>, s: nat): nat
    requires s < NSLOTS
  {
    if s <= NDIRECT then ip.addrs[s]
    else if 0 < ip.addrs[NDIRECT] < |blocks| then Word(blocks[ip.addrs[NDIRECT]], s - NDIRECT - 1)
    else 0
  }

  /** The slot of the bn-th data block. */
  function DataSlot(bn: nat): nat
    requires bn < MAXFILE
  {
    if bn < NDIRECT then bn else bn + 1
  }

  /** The file system as the block cache and the inode cache show it; `owner` says which slot of which inode each
      allocated data block hangs from. */
  datatype Fs = Fs(sb: Super, blocks: seq<Block>, inode: map<nat, Inode>, owner: map<nat, (nat, nat)>)

  ghost predicate HangsFrom(f: Fs, b: nat)
    requires b in f.owner
  {
    var (i, s) := f.owner[b];
    && i in f.inode && s < NSLOTS && SlotOf(f.inode[i], f.blocks, s) == b
    && f.sb.datastart <= b < f.sb.size
  }

  /** Every block number in use is used once. */
  ghost predicate Owned(f: Fs) {
    && (forall i, s {:trigger SlotOf(f.inode[i], f.blocks, s)} |
          i in f.inode && 0 <= s < NSLOTS && SlotOf(f.inode[i], f.blocks, s) != 0 ::
          SlotOf(f.inode[i], f.blocks, s) in f.owner && f.owner[SlotOf(f.inode[i], f.blocks, s)] == (i, s))
    && (forall b {:trigger HangsFrom(f, b)} | b in f.owner :: HangsFrom(f, b))
  }

  ghost predicate InBitmap(f: Fs, b: nat) {
    && f.sb.bmapstart + b / BPB < |f.blocks|
    && (Marked(f.blocks, f.sb.bmapstart, b) <==> b < f.sb.datastart || b in f.owner)
  }

  /** Exactly the metadata blocks and the owned blocks are marked: nothing is lost and nothing is given out twice. */
  ghost predicate Accounted(f: Fs) {
    forall b {:trigger InBitmap(f, b)} | 0 <= b < f.sb.size :: InBitmap(f, b)
  }

  ghost predicate OwnInv(f: Fs) {
    && GoodLayout(f.sb) && f.sb.size == |f.blocks|
    && (forall i | i in f.inode :: i < f.sb.ninodes)
    && Owned(f) && Accounted(f)
  }

  /** What a file consists of: its mapped blocks. */
  ghost function FileOf(ip: Inode, blocks: seq<Block>): map<nat, Block> {
    map bn | 0 <= bn < MAXFILE && 0 < SlotOf(ip, blocks, DataSlot(bn)) < |blocks| ::
      blocks[SlotOf(ip, blocks, DataSlot(bn))]
  }

  // ---- Which slots a change of blocks can affect ----

  /** Slots depend only on the indirect blocks. */
  lemma SlotsKept(ip: Inode, blocks: seq<Block>, blocks': seq<Block>, s: nat)
    requires |blocks'| == |blocks| && s < NSLOTS
    requires 0 < ip.addrs[NDIRECT] < |blocks| ==> blocks'[ip.addrs[NDIRECT]] == blocks[ip.addrs[NDIRECT]]
    ensures SlotOf(ip, blocks', s) == SlotOf(ip, blocks, s)
  {
  }

  ghost predicate SameSlots(ip: Inode, blocks: seq<Block>, blocks': seq<Block>) {
    forall s | 0 <= s < NSLOTS :: SlotOf(ip, blocks', s) == SlotOf(ip, blocks, s)
  }

  /** An inode whose blocks keep their contents keeps its file. */
  lemma FileKept(f: Fs, i: nat, blocks': seq<Block>)
    requires OwnInv(f) && i in f.inode && |blocks'| == |f.blocks|
    requires forall b | b in f.owner && f.owner[b].0 == i :: b < |blocks'| && blocks'[b] == f.blocks[b]
    ensures SameSlots(f.inode[i], f.blocks, blocks')
    ensures FileOf(f.inode[i], blocks') == FileOf(f.inode[i], f.blocks)
  {
    var ip := f.inode[i];
    assert SlotOf(ip, f.blocks, NDIRECT) == ip.addrs[NDIRECT];
    forall s | 0 <= s < NSLOTS ensures SlotOf(ip, blocks', s) == SlotOf(ip, f.blocks, s) {
      SlotsKept(ip, f.blocks, blocks', s);
    }
  }

  /** The bitmap depends only on its own blocks, which are never data. */
  lemma BitmapKept(sb: Super, blocks: seq<Block>, blocks': seq<Block>, b: nat)
    requires GoodLayout(sb) && |blocks| == |blocks'| == sb.size && b < sb.size
    requires forall k | sb.bmapstart <= k < sb.datastart :: blocks'[k] == blocks[k]
    ensures sb.bmapstart + b / BPB < sb.datastart
    ensures Marked(blocks', sb.bmapstart, b) <==> Marked(blocks, sb.bmapstart, b)
  {
    assert b / BPB <= sb.size / BPB;
  }

  // ---- Writing a data block ----

  /** New contents for an owned block that is not an indirect block: its file changes there and nowhere else. */
  lemma StoreData(f: Fs, i: nat, bn: nat, data: Block)
    requires OwnInv(f) && i in f.inode && bn < MAXFILE && SlotOf(f.inode[i], f.blocks, DataSlot(bn)) != 0
    ensures var b := SlotOf(f.inode[i], f.blocks, DataSlot(bn));
            && f.sb.datastart <= b < |f.blocks|
            && OwnInv(f.(blocks := f.blocks[b := data]))
            && FileOf(f.inode[i], f.blocks[b := data]) == FileOf(f.inode[i], f.blocks)[bn := data]
            && (forall j | j in f.inode && j != i ::
                  FileOf(f.inode[j], f.blocks[b := data]) == FileOf(f.inode[j], f.blocks))
  {
    var ip := f.inode[i];
    var b := SlotOf(ip, f.blocks, DataSlot(bn));
    assert HangsFrom(f, b);
    var blocks' := f.blocks[b := data];
    StoreKeepsSlots(f, i, bn, data);
    StoreKeepsInv(f, i, bn, data);
    forall j | j in f.inode && j != i ensures FileOf(f.inode[j], blocks') == FileOf(f.inode[j], f.blocks) {
      forall c | c in f.owner && f.owner[c].0 == j ensures c < |blocks'| && blocks'[c] == f.blocks[c] {
        assert HangsFrom(f, c);
      }
      FileKept(f, j, blocks');
    }
    StoreFile(f, i, bn, data);
  }

  lemma StoreFile(f: Fs, i: nat, bn: nat, data: Block)
    requires OwnInv(f) && i in f.inode && bn < MAXFILE && SlotOf(f.inode[i], f.blocks, DataSlot(bn)) != 0
    ensures SlotOf(f.inode[i], f.blocks, DataSlot(bn)) < |f.blocks|
    ensures FileOf(f.inode[i], f.blocks[SlotOf(f.inode[i], f.blocks, DataSlot(bn)) := data])
            == FileOf(f.inode[i], f.blocks)[bn := data]
  {
    var ip := f.inode[i];
    var b := SlotOf(ip, f.blocks, DataSlot(bn));
    assert HangsFrom(f, b);
    var blocks' := f.blocks[b := data];
    StoreKeepsSlots(f, i, bn, data);
    forall m | 0 <= m < MAXFILE
      ensures SlotOf(ip, blocks', DataSlot(m)) == SlotOf(ip, f.blocks, DataSlot(m))
      ensures m != bn && SlotOf(ip, f.blocks, DataSlot(m)) != 0 ==> SlotOf(ip, f.blocks, DataSlot(m)) != b
    {}
  }

  lemma StoreKeepsSlots(f: Fs, i: nat, bn: nat, data: Block)
    requires OwnInv(f) && i in f.inode && bn < MAXFILE && SlotOf(f.inode[i], f.blocks, DataSlot(bn)) != 0
    ensures SlotOf(f.inode[i], f.blocks, DataSlot(bn)) < |f.blocks|
    ensures forall j, s | j in f.inode && 0 <= s < NSLOTS ::
              SlotOf(f.inode[j], f.blocks[SlotOf(f.inode[i], f.blocks, DataSlot(bn)) := data], s)
              == SlotOf(f.inode[j], f.blocks, s)
  {
    var b := SlotOf(f.inode[i], f.blocks, DataSlot(bn));
    assert HangsFrom(f, b);
    forall j, s | j in f.inode && 0 <= s < NSLOTS
      ensures SlotOf(f.inode[j], f.blocks[b := data], s) == SlotOf(f.inode[j], f.blocks, s)
    {
      assert SlotOf(f.inode[j], f.blocks, NDIRECT) == f.inode[j].addrs[NDIRECT];
      SlotsKept(f.inode[j], f.blocks, f.blocks[b := data], s);
    }
  }

  lemma StoreKeepsInv(f: Fs, i: nat, bn: nat, data: Block)
    requires OwnInv(f) && i in f.inode && bn < MAXFILE && SlotOf(f.inode[i], f.blocks, DataSlot(bn)) != 0
    ensures SlotOf(f.inode[i], f.blocks, DataSlot(bn)) < |f.blocks|
    ensures OwnInv(f.(blocks := f.blocks[SlotOf(f.inode[i], f.blocks, DataSlot(bn)) := data]))
  {
    var b := SlotOf(f.inode[i], f.blocks, DataSlot(bn));
    assert HangsFrom(f, b);
    StoreKeepsSlots(f, i, bn, data);
    var g := f.(blocks := f.blocks[b := data]);
    forall c | c in g.owner ensures HangsFrom(g, c) { assert HangsFrom(f, c); }
    forall j, s | j in g.inode && 0 <= s < NSLOTS
      ensures SlotOf(g.inode[j], g.blocks, s) == SlotOf(f.inode[j], f.blocks, s) {}
    forall c | 0 <= c < g.sb.size ensures InBitmap(g, c) {
      assert InBitmap(f, c);
      BitmapKept(f.sb, f.blocks, g.blocks, c);
    }
  }

  // ---- Giving out a block ----

  /** What balloc() leaves behind: nb marked and zeroed. */
  function Given(f: Fs, nb: nat): seq<Block>
    requires nb < |f.blocks| && f.sb.bmapstart + nb / BPB < |f.blocks|
  {
    Mark(f.blocks, f.sb.bmapstart, nb, true)[nb := ZEROS]
  }

  predicate Free(f: Fs, nb: nat) {
    nb < |f.blocks| && f.sb.bmapstart + nb / BPB < |f.blocks| && !Marked(f.blocks, f.sb.bmapstart, nb)
  }

  lemma GivenBlocks(f: Fs, nb: nat)
    requires OwnInv(f) && Free(f, nb)
    ensures f.sb.datastart <= nb && nb !in f.owner && f.sb.bmapstart + nb / BPB < f.sb.datastart
    ensures forall c | c in f.owner :: f.sb.datastart <= c < |f.blocks| && Given(f, nb)[c] == f.blocks[c]
    ensures forall j | j in f.inode :: SameSlots(f.inode[j], f.blocks, Given(f, nb))
    ensures forall j | j in f.inode :: FileOf(f.inode[j], Given(f, nb)) == FileOf(f.inode[j], f.blocks)
  {
    assert InBitmap(f, nb);
    BitmapKept(f.sb, f.blocks, f.blocks, nb);
    forall c | c in f.owner ensures f.sb.datastart <= c < |f.blocks| && Given(f, nb)[c] == f.blocks[c] {
      assert HangsFrom(f, c);
    }
    var blocks' := Given(f, nb);
    forall j | j in f.inode
      ensures FileOf(f.inode[j], blocks') == FileOf(f.inode[j], f.blocks) && SameSlots(f.inode[j], f.blocks, blocks')
    {
      FileKept(f, j, blocks');
    }
  }

  lemma GivenBits(f: Fs, nb: nat, blocks': seq<Block>, owner': map<nat, (nat, nat)>, c: nat)
    requires OwnInv(f) && Free(f, nb) && |blocks'| == |f.blocks| && c < f.sb.size
    requires forall k | f.sb.bmapstart <= k < f.sb.datastart :: blocks'[k] == Given(f, nb)[k]
    requires owner'.Keys == f.owner.Keys + {nb}
    ensures InBitmap(f.(blocks := blocks', owner := owner'), c)
  {
    assert InBitmap(f, nb) && InBitmap(f, c);
    BitmapKept(f.sb, f.blocks, f.blocks, nb);
    BitmapKept(f.sb, f.blocks, f.blocks, c);
    MarkOne(f.blocks, f.sb.bmapstart, nb, true, c);
    BitmapKept(f.sb, Mark(f.blocks, f.sb.bmapstart, nb, true), blocks', c);
  }

  /** g is f with block nb in slot (i, s), which was empty. */
  ghost predicate SlotPlus(f: Fs, g: Fs, i: nat, s: nat, nb: nat) {
    && g.sb == f.sb && g.inode.Keys == f.inode.Keys && |g.blocks| == |f.blocks|
    && i in f.inode && s < NSLOTS && SlotOf(f.inode[i], f.blocks, s) == 0
    && g.owner == f.owner[nb := (i, s)]
    && (forall j, t {:trigger SlotAgrees(f, g, i, s, nb, j, t)} | j in f.inode && 0 <= t < NSLOTS ::
          SlotAgrees(f, g, i, s, nb, j, t))
    && (forall k | f.sb.bmapstart <= k < f.sb.datastart && k < |g.blocks| && Free(f, nb) ::
          g.blocks[k] == Given(f, nb)[k])
  }

  ghost predicate SlotAgrees(f: Fs, g: Fs, i: nat, s: nat, nb: nat, j: nat, t: nat)
    requires j in f.inode && j in g.inode && t < NSLOTS
  {
    SlotOf(g.inode[j], g.blocks, t) == if j == i && t == s then nb else SlotOf(f.inode[j], f.blocks, t)
  }

  lemma SlotPlusInv(f: Fs, g: Fs, i: nat, s: nat, nb: nat)
    requires OwnInv(f) && Free(f, nb) && SlotPlus(f, g, i, s, nb)
    ensures OwnInv(g)
  {
    assert InBitmap(f, nb);
    forall j, t | j in g.inode && 0 <= t < NSLOTS && SlotOf(g.inode[j], g.blocks, t) != 0
      ensures SlotOf(g.inode[j], g.blocks, t) in g.owner && g.owner[SlotOf(g.inode[j], g.blocks, t)] == (j, t)
    {
      assert SlotAgrees(f, g, i, s, nb, j, t);
    }
    forall c | c in g.owner ensures HangsFrom(g, c) {
      var (j, t) := g.owner[c];
      if c != nb {
        assert HangsFrom(f, c);
      }
      assert SlotAgrees(f, g, i, s, nb, j, t);
    }
    forall c | 0 <= c < g.sb.size ensures InBitmap(g, c) {
      GivenBits(f, nb, g.blocks, g.owner, c);
      assert InBitmap(f.(blocks := g.blocks, owner := g.owner), c);
    }
  }

  /** bmap() fills an empty direct slot, or the indirect slot, with a fresh block. */
  ghost function WithDirect(f: Fs, i: nat, s: nat, nb: nat): Fs
    requires i in f.inode && s <= NDIRECT && nb < TWO32 && Free(f, nb)
  {
    f.(blocks := Given(f, nb),
       inode := f.inode[i := f.inode[i].(addrs := f.inode[i].addrs[s := nb])],
       owner := f.owner[nb := (i, s)])
  }

  lemma AllocDirect(f: Fs, i: nat, s: nat, nb: nat)
    requires OwnInv(f) && i in f.inode && s <= NDIRECT && f.inode[i].addrs[s] == 0 && Free(f, nb)
    ensures SlotPlus(f, WithDirect(f, i, s, nb), i, s, nb) && OwnInv(WithDirect(f, i, s, nb))
  {
    GivenBlocks(f, nb);
    var g := WithDirect(f, i, s, nb);
    forall j, t | j in f.inode && 0 <= t < NSLOTS ensures SlotAgrees(f, g, i, s, nb, j, t) {
      if j == i && s == NDIRECT && t > NDIRECT {
        WordZeros(t - NDIRECT - 1);
      } else {
        assert SameSlots(f.inode[j], f.blocks, g.blocks);
      }
    }
    SlotPlusInv(f, g, i, s, nb);
  }

  /** bmap() fills an empty entry of the indirect block. */
  ghost function WithEntry(f: Fs, i: nat, k: nat, nb: nat): Fs
    requires i in f.inode && k < NINDIRECT && nb < TWO32 && Free(f, nb) && f.inode[i].addrs[NDIRECT] < |f.blocks|
  {
    var ind := f.inode[i].addrs[NDIRECT];
    f.(blocks := Given(f, nb)[ind := SetWord(f.blocks[ind], k, nb)],
       owner := f.owner[nb := (i, NDIRECT + 1 + k)])
  }

  lemma EntrySlots(f: Fs, g: Fs, i: nat, k: nat, nb: nat, j: nat, m: nat)
    requires OwnInv(f) && i in f.inode && k < NINDIRECT && Free(f, nb)
    requires f.inode[i].addrs[NDIRECT] < |f.blocks| && f.inode[i].addrs[NDIRECT] != 0
    requires g == WithEntry(f, i, k, nb) && j in f.inode && m < NINDIRECT
    ensures SlotAgrees(f, g, i, NDIRECT + 1 + k, nb, j, NDIRECT + 1 + m)
  {
    GivenBlocks(f, nb);
    var ind := f.inode[i].addrs[NDIRECT];
    assert SlotOf(f.inode[i], f.blocks, NDIRECT) == ind
        && SlotOf(f.inode[j], f.blocks, NDIRECT) == f.inode[j].addrs[NDIRECT];
    if j == i {
      WordSet(f.blocks[ind], k, nb, m);
    }
  }

  /** The bitmap is not touched by the new entry. */
  lemma EntryBits(f: Fs, i: nat, k: nat, nb: nat)
    requires OwnInv(f) && i in f.inode && k < NINDIRECT && Free(f, nb) && nb < TWO32
    requires f.sb.datastart <= f.inode[i].addrs[NDIRECT] < |f.blocks|
    ensures var g := WithEntry(f, i, k, nb);
            && |g.blocks| == |f.blocks|
            && forall b | f.sb.bmapstart <= b < f.sb.datastart && b < |g.blocks| :: g.blocks[b] == Given(f, nb)[b]
  {
  }

  lemma AllocEntry(f: Fs, i: nat, k: nat, nb: nat)
    requires OwnInv(f) && i in f.inode && k < NINDIRECT && Free(f, nb)
    requires f.inode[i].addrs[NDIRECT] != 0 && SlotOf(f.inode[i], f.blocks, NDIRECT + 1 + k) == 0
    ensures f.inode[i].addrs[NDIRECT] < |f.blocks| && f.inode[i].addrs[NDIRECT] != nb
    ensures var g := WithEntry(f, i, k, nb);
            SlotPlus(f, g, i, NDIRECT + 1 + k, nb) && OwnInv(g)
  {
    hide Word, SetWord, Given, Accounted;
    GivenBlocks(f, nb);
    var ind := f.inode[i].addrs[NDIRECT];
    assert SlotOf(f.inode[i], f.blocks, NDIRECT) == ind;
    assert HangsFrom(f, ind);
    var g, s := WithEntry(f, i, k, nb), NDIRECT + 1 + k;
    EntryBits(f, i, k, nb);
    forall j, t | j in f.inode && 0 <= t < NSLOTS ensures SlotAgrees(f, g, i, s, nb, j, t) {
      if t > NDIRECT {
        EntrySlots(f, g, i, k, nb, j, t - NDIRECT - 1);
      }
    }
    SlotPlusInv(f, g, i, s, nb);
  }

  /** Contents of data blocks, as opposed to indirect blocks. */
  ghost predicate DataKept(f: Fs, blocks': seq<Block>) {
    |blocks'| == |f.blocks| && forall c | c in f.owner && f.owner[c].1 != NDIRECT ::
      c < |blocks'| && blocks'[c] == f.blocks[c]
  }

  lemma SlotPlusAt(f: Fs, g: Fs, i: nat, s: nat, nb: nat, j: nat, m: nat)
    requires OwnInv(f) && Free(f, nb) && SlotPlus(f, g, i, s, nb) && DataKept(f, g.blocks) && g.blocks[nb] == ZEROS
    requires j in f.inode && m < MAXFILE
    ensures var F, G := FileOf(f.inode[j], f.blocks), FileOf(g.inode[j], g.blocks);
            if j == i && DataSlot(m) == s then m in G && G[m] == ZEROS
            else (m in G <==> m in F) && (m in F ==> G[m] == F[m])
  {
    assert InBitmap(f, nb);
    assert SlotAgrees(f, g, i, s, nb, j, DataSlot(m));
    var c := SlotOf(f.inode[j], f.blocks, DataSlot(m));
    if c != 0 {
      assert HangsFrom(f, c);
    }
  }

  /** A fresh block changes no other file, and a fresh indirect block changes none at all. */
  lemma SlotPlusOther(f: Fs, g: Fs, i: nat, s: nat, nb: nat, j: nat)
    requires OwnInv(f) && Free(f, nb) && SlotPlus(f, g, i, s, nb) && DataKept(f, g.blocks) && g.blocks[nb] == ZEROS
    requires j in f.inode && (j != i || s == NDIRECT)
    ensures FileOf(g.inode[j], g.blocks) == FileOf(f.inode[j], f.blocks)
  {
    var F, G := FileOf(f.inode[j], f.blocks), FileOf(g.inode[j], g.blocks);
    forall m | 0 <= m < MAXFILE ensures SameAt(F, G, m) {
      SlotPlusAt(f, g, i, s, nb, j, m);
    }
    SameMaps(F, G);
  }

  /** A fresh data block appears in its file as zeros. */
  lemma SlotPlusMine(f: Fs, g: Fs, i: nat, bn: nat, nb: nat)
    requires bn < MAXFILE
    requires OwnInv(f) && Free(f, nb) && SlotPlus(f, g, i, DataSlot(bn), nb) && DataKept(f, g.blocks)
               && g.blocks[nb] == ZEROS
    ensures FileOf(g.inode[i], g.blocks) == FileOf(f.inode[i], f.blocks)[bn := ZEROS]
  {
    var F, G := FileOf(f.inode[i], f.blocks), FileOf(g.inode[i], g.blocks);
    var H := F[bn := ZEROS];
    forall m | 0 <= m < MAXFILE ensures SameAt(H, G, m) {
      SlotPlusAt(f, g, i, DataSlot(bn), nb, i, m);
      assert m != bn ==> DataSlot(m) != DataSlot(bn);
    }
    SameMaps(H, G);
  }

  ghost predicate SameAt(F: map<nat, Block>, G: map<nat, Block>, m: nat) {
    (m in F <==> m in G) && (m in F ==> F[m] == G[m])
  }

  lemma SameMaps(F: map<nat, Block>, G: map<nat, Block>)
    requires forall m | m in F || m in G :: m < MAXFILE
    requires forall m | 0 <= m < MAXFILE :: SameAt(F, G, m)
    ensures F == G
  {
    forall m: nat ensures m in F <==> m in G { assert m < MAXFILE ==> SameAt(F, G, m); }
    assert forall m | m in F :: SameAt(F, G, m);
  }

  // ---- Truncation ----

  const NO_ADDRS: seq<U32> := [0, 0, 0, 0, 0, 0, 0, 0, 0, 0, 0, 0, 0]

  /** The blocks that hang from inode i. */
  ghost predicate OwnedBy(f: Fs, i: nat, b: nat) {
    b in f.owner && f.owner[b].0 == i
  }

  /** g is f with inode i emptied and exactly its blocks unmarked. */
  ghost predicate Truncated(f: Fs, g: Fs, i: nat) {
    && i in f.inode && g.sb == f.sb && |g.blocks| == |f.blocks|
    && g.inode == f.inode[i := f.inode[i].(addrs := NO_ADDRS, size := 0)]
    && g.owner == (map b | b in f.owner && f.owner[b].0 != i :: f.owner[b])
    && (forall k | 0 <= k < |f.blocks| && !(f.sb.bmapstart <= k < f.sb.datastart) :: g.blocks[k] == f.blocks[k])
    && (forall b {:trigger Unmarked(f, g, i, b)} | 0 <= b < f.sb.size :: Unmarked(f, g, i, b))
  }

  ghost predicate Unmarked(f: Fs, g: Fs, i: nat, b: nat) {
    && f.sb.bmapstart + b / BPB < |f.blocks| == |g.blocks|
    && (Marked(g.blocks, f.sb.bmapstart, b) <==> Marked(f.blocks, f.sb.bmapstart, b) && !OwnedBy(f, i, b))
  }

  lemma TruncSlots(f: Fs, g: Fs, i: nat, j: nat)
    requires OwnInv(f) && Truncated(f, g, i) && j in f.inode
    ensures FileOf(f.inode[j], g.blocks) == FileOf(f.inode[j], f.blocks) && SameSlots(f.inode[j], f.blocks, g.blocks)
  {
    forall c | c in f.owner ensures c < |f.blocks| && g.blocks[c] == f.blocks[c] { assert HangsFrom(f, c); }
    FileKept(f, j, g.blocks);
  }

  lemma TruncOwned(f: Fs, g: Fs, i: nat)
    requires OwnInv(f) && Truncated(f, g, i)
    ensures Owned(g)
  {
    hide FileOf, Accounted;
    forall j, s | j in g.inode && 0 <= s < NSLOTS && SlotOf(g.inode[j], g.blocks, s) != 0
      ensures SlotOf(g.inode[j], g.blocks, s) in g.owner && g.owner[SlotOf(g.inode[j], g.blocks, s)] == (j, s)
    {
      assert j != i;
      TruncSlots(f, g, i, j);
      assert SlotOf(g.inode[j], g.blocks, s) == SlotOf(f.inode[j], f.blocks, s);
    }
    forall c | c in g.owner ensures HangsFrom(g, c) {
      assert HangsFrom(f, c);
      TruncSlots(f, g, i, g.owner[c].0);
    }
  }

  lemma TruncInv(f: Fs, g: Fs, i: nat)
    requires OwnInv(f) && Truncated(f, g, i)
    ensures OwnInv(g)
    ensures FileOf(g.inode[i], g.blocks) == map[]
    ensures forall j | j in f.inode && j != i :: FileOf(g.inode[j], g.blocks) == FileOf(f.inode[j], f.blocks)
  {
    forall j | j in f.inode && j != i ensures FileOf(g.inode[j], g.blocks) == FileOf(f.inode[j], f.blocks) {
      TruncSlots(f, g, i, j);
    }
    TruncOwned(f, g, i);
    TruncBits(f, g, i);
  }

  lemma TruncBits(f: Fs, g: Fs, i: nat)
    requires OwnInv(f) && Truncated(f, g, i)
    ensures Accounted(g)
  {
    forall c | 0 <= c < g.sb.size ensures InBitmap(g, c) {
      assert InBitmap(f, c) && Unmarked(f, g, i, c);
      if OwnedBy(f, i, c) {
        assert HangsFrom(f, c);
      }
    }
  }

  // ---- Inodes on disk ----

  /** The 16 words of a struct Dinode. */
  function DinodeWord(ip: Inode, k: nat): U32
    requires k < 16
  {
    if k == 0 then ip.itype + 0x1_0000 * ip.major
    else if k == 1 then ip.minor + 0x1_0000 * ip.nlink
    else if k == 2 then ip.size
    else ip.addrs[k - 3]
  }

  function IBlock(sb: Super, i: nat): nat {
    sb.inodestart + i / IPB
  }

  /** Inode i's place in its block holds ip. */
  ghost predicate OnDisk(sb: Super, blocks: seq<Block>, i: nat, ip: Inode) {
    IBlock(sb, i) < |blocks| && forall k | 0 <= k < 16 ::
      Word(blocks[IBlock(sb, i)], i % IPB * 16 + k) == DinodeWord(ip, k)
  }

  ghost predicate Agree(f: Fs) {
    forall i | i in f.inode :: OnDisk(f.sb, f.blocks, i, f.inode[i])
  }

  /** iupdate()'s stores: the first k words of the inode. */
  function Put(b: Block, slot: nat, ip: Inode, k: nat): Block
    requires slot < IPB && k <= 16
  {
    if k == 0 then b else SetWord(Put(b, slot, ip, k - 1), slot * 16 + k - 1, DinodeWord(ip, k - 1))
  }

  lemma PutWords(b: Block, slot: nat, ip: Inode, k: nat, j: nat)
    requires slot < IPB && k <= 16 && j < WORDS
    ensures Word(Put(b, slot, ip, k), j) ==
            if slot * 16 <= j < slot * 16 + k then DinodeWord(ip, j - slot * 16) else Word(b, j)
  {
    if k > 0 {
      PutWords(b, slot, ip, k - 1, j);
      WordSet(Put(b, slot, ip, k - 1), slot * 16 + k - 1, DinodeWord(ip, k - 1), j);
    }
  }

  /** Writing one inode back touches no other. */
  lemma PutOnDisk(sb: Super, blocks: seq<Block>, i: nat, ip: Inode, j: nat, jp: Inode)
    requires IBlock(sb, i) < |blocks|
    ensures var blocks' := blocks[IBlock(sb, i) := Put(blocks[IBlock(sb, i)], i % IPB, ip, 16)];
            && OnDisk(sb, blocks', i, ip)
            && (j != i && OnDisk(sb, blocks, j, jp) ==> OnDisk(sb, blocks', j, jp))
  {
    var b := blocks[IBlock(sb, i)];
    var blocks' := blocks[IBlock(sb, i) := Put(b, i % IPB, ip, 16)];
    forall k | 0 <= k < 16 ensures Word(Put(b, i % IPB, ip, 16), i % IPB * 16 + k) == DinodeWord(ip, k) {
      PutWords(b, i % IPB, ip, 16, i % IPB * 16 + k);
    }
    if j != i && OnDisk(sb, blocks, j, jp) && IBlock(sb, j) == IBlock(sb, i) {
      assert i % IPB != j % IPB;
      forall k | 0 <= k < 16 ensures Word(blocks'[IBlock(sb, j)], j % IPB * 16 + k) == DinodeWord(jp, k) {
        PutWords(b, i % IPB, ip, 16, j % IPB * 16 + k);
      }
    }
  }

  /** What is on disk for an inode depends on the inode blocks only. */
  lemma OnDiskKept(sb: Super, blocks: seq<Block>, blocks': seq<Block>, i: nat, ip: Inode)
    requires GoodLayout(sb) && i < sb.ninodes && |blocks'| == |blocks| == sb.size && OnDisk(sb, blocks, i, ip)
    requires forall k | sb.inodestart <= k < sb.bmapstart :: blocks'[k] == blocks[k]
    ensures OnDisk(sb, blocks', i, ip)
  {
    assert i / IPB <= sb.ninodes / IPB;
  }

  /** The first n addresses of the inode in this slot of its block. */
  function Addrs(b: Block, slot: nat, n: nat): (a: seq<U32>)
    requires slot < IPB && n <= NDIRECT + 1
    ensures |a| == n && forall k | 0 <= k < n :: a[k] == Word(b, slot * 16 + 3 + k)
  {
    if n == 0 then [] else Addrs(b, slot, n - 1) + [Word(b, slot * 16 + 3 + n - 1)]
  }

  /** The inode in this slot of its block. */
  function Decode(b: Block, slot: nat): Inode
    requires slot < IPB
  {
    var w0, w1 := Word(b, slot * 16), Word(b, slot * 16 + 1);
    Inode(w0 % 0x1_0000, w0 / 0x1_0000, w1 % 0x1_0000, w1 / 0x1_0000, Word(b, slot * 16 + 2),
          Addrs(b, slot, NDIRECT + 1))
  }

  /** Where the fields of an inode are in its 64 bytes. */
  lemma DinodeLayout(sb: Super, blocks: seq<Block>, i: nat, ip: Inode)
    requires OnDisk(sb, blocks, i, ip)
    ensures var b, o := blocks[IBlock(sb, i)], 64 * (i % 8);
            && Pair(b, o) == ip.itype && Pair(b, o + 2) == ip.major && Pair(b, o + 4) == ip.minor
            && Pair(b, o + 6) == ip.nlink && Pair(b, o + 8) + 0x1_0000 * Pair(b, o + 10) == ip.size
            && forall k | 0 <= k < 13 :: Pair(b, o + 12 + 4 * k) + 0x1_0000 * Pair(b, o + 14 + 4 * k) == ip.addrs[k]
  {
    hide Word, Pair, DinodeWord, IBlock;
    var b, s := blocks[IBlock(sb, i)], i % IPB;
    PairsAre(b, s, ip, 0);
    PairsAre(b, s, ip, 1);
    PairsAre(b, s, ip, 2);
    SamePairs(Pair(b, 64 * s), Pair(b, 64 * s + 2), ip.itype, ip.major);
    SamePairs(Pair(b, 64 * s + 4), Pair(b, 64 * s + 6), ip.minor, ip.nlink);
    forall k | 0 <= k < 13
      ensures Pair(b, 64 * s + 12 + 4 * k) + 0x1_0000 * Pair(b, 64 * s + 14 + 4 * k) == ip.addrs[k]
    {
      PairsAre(b, s, ip, k + 3);
    }
  }

  /** Word k of the inode, by its two halves. */
  lemma PairsAre(b: Block, s: nat, ip: Inode, k: nat)
    requires s < IPB && k < 16 && Word(b, s * 16 + k) == DinodeWord(ip, k)
    ensures var lo, hi := Pair(b, 64 * s + 4 * k), Pair(b, 64 * s + 4 * k + 2);
            && 0 <= lo < 0x1_0000 && 0 <= hi < 0x1_0000
            && lo + 0x1_0000 * hi == if k == 0 then ip.itype + 0x1_0000 * ip.major
                                     else if k == 1 then ip.minor + 0x1_0000 * ip.nlink
                                     else if k == 2 then ip.size else ip.addrs[k - 3]
  {
  }

  lemma SamePairs(lo: int, hi: int, x: int, y: int)
    requires 0 <= lo < 0x1_0000 && 0 <= x < 0x1_0000 && lo + 0x1_0000 * hi == x + 0x1_0000 * y
    ensures lo == x && hi == y
  {
  }

  /** Two bytes, the low one first. */
  function Pair(b: Block, o: nat): int
    requires o + 1 < BSIZE
  {
    var lo: int, hi: int := b[o], b[o + 1];
    lo + 0x100 * hi
  }

  /** What is written to disk is what is read back. */
  lemma DecodeOnDisk(sb: Super, blocks: seq<Block>, i: nat, ip: Inode)
    requires OnDisk(sb, blocks, i, ip)
    ensures Decode(blocks[IBlock(sb, i)], i % IPB) == ip
  {
    hide Word;
    var b, slot := blocks[IBlock(sb, i)], i % IPB;
    var d := Decode(b, slot);
    assert Word(b, slot * 16 + 0) == DinodeWord(ip, 0);
    assert Word(b, slot * 16 + 1) == DinodeWord(ip, 1);
    assert Word(b, slot * 16 + 2) == DinodeWord(ip, 2);
    forall k | 0 <= k < NDIRECT + 1 ensures d.addrs[k] == ip.addrs[k] {
      assert Word(b, slot * 16 + (k + 3)) == DinodeWord(ip, k + 3);
    }
    assert d.addrs == ip.addrs;
  }
}
