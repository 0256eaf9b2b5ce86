/** The image builder of mkfs/src/main.rs. It takes blocks and inodes in order and writes the bitmap at the end; in
    between, the image stands for a file system whose bitmap marks the blocks below `freeBlock`. */
module Mkfs {
  import opened Common
  import opened Blocks
  import opened Bitmap
  import opened Inodes
  import opened Contents
  import opened Files
  import opened Directories
  import Crash

  const FSSIZE := 2000
  const NINODES := 200
  const BMAPSTART := 58         // 2 + LOGSIZE + (200 / IPB + 1)
  const SB: Super := Super(FSSIZE, NINODES, 32, BMAPSTART, 59)
  const LOG := Crash.Layout(2, LOGSIZE)

  const ROOTINO := 1

  // ---- The bitmap that is not there yet ----

  /** The first n bits set: the final loop of main(). */
  function BitsTo(n: nat): Block
    requires n <= BPB
  {
    if n == 0 then ZEROS else
    var b, i := BitsTo(n - 1), n - 1;
    b[i / 8 := ByteWith(b[i / 8], i % 8, true)]
  }

  lemma {:induction false} BitsAre(n: nat, c: nat)
    requires n <= BPB && c < BPB
    ensures Bit(BitsTo(n)[c / 8], c % 8) <==> c < n
  {
    if n > 0 {
      BitsAre(n - 1, c);
      var b, i := BitsTo(n - 1), n - 1;
      if i / 8 == c / 8 {
        BitsOfWith(b[i / 8], i % 8, c % 8);
      }
    } else {
      ZeroBits(c % 8);
    }
  }

  lemma ZeroBits(k: nat)
    ensures !Bit(0, k)
  {
  }

  /** The image with the bitmap in place. */
  function Img(blocks: seq<Block>, n: nat): (r: seq<Block>)
    requires |blocks| == FSSIZE
    ensures |r| == FSSIZE
  {
    blocks[BMAPSTART := if n <= BPB then BitsTo(n) else ZEROS]
  }

  lemma ImgMarked(blocks: seq<Block>, n: nat, c: nat)
    requires |blocks| == FSSIZE && n <= FSSIZE && c < FSSIZE
    ensures Marked(Img(blocks, n), BMAPSTART, c) <==> c < n
  {
    BitsAre(n, c);
  }

  lemma ImgStore(blocks: seq<Block>, n: nat, b: nat, data: Block)
    requires |blocks| == FSSIZE && b < FSSIZE && b != BMAPSTART
    ensures Img(blocks, n)[b := data] == Img(blocks[b := data], n)
  {
  }

  /** Taking the next block is what balloc() would do. */
  lemma Bump(f: Fs, blocks: seq<Block>, n: nat)
    requires |blocks| == FSSIZE && SB.datastart <= n < FSSIZE && blocks[n] == ZEROS
    requires f.sb == SB && f.blocks == Img(blocks, n)
    ensures Free(f, n) && Given(f, n) == Img(blocks, n + 1)
  {
    ImgMarked(blocks, n, n);
    var b := BitsTo(n);
    assert n / BPB == 0 && n % BPB == n;
    assert Mark(f.blocks, BMAPSTART, n, true) == Img(blocks, n + 1);
    assert Img(blocks, n + 1)[n] == ZEROS;
  }

  // ---- The image under construction ----

  class Image {
    var blocks: seq<Block>
    var freeInode: nat
    var freeBlock: nat
    ghost var inode: map<nat, Inode>
    ghost var owner: map<nat, (nat, nat)>

    ghost function F(): Fs
      requires |blocks| == FSSIZE
      reads this
    {
      Fs(SB, Img(blocks, freeBlock), inode, owner)
    }

    /** Between the steps of one append: blocks are accounted for, those not yet taken are zero, and so is the log's
        header. */
    ghost predicate Part()
      reads this
    {
      && |blocks| == FSSIZE && SB.datastart <= freeBlock <= FSSIZE
      && (forall k | freeBlock <= k < FSSIZE :: blocks[k] == ZEROS)
      && blocks[LOG.start] == ZEROS && OwnInv(F())
    }

    ghost predicate Inv()
      reads this
    {
      && Part() && FsInv(F()) && Vacant(F()) && 1 <= freeInode
      && (forall j :: j in inode <==> 0 <= j < NINODES)
      && (forall j | j in inode && j >= freeInode :: inode[j] == FREE_INODE)
    }

    /** The empty image: all zeros but for the superblock. */
    constructor ()
      ensures Inv() && freeInode == 1 && freeBlock == 59 && |blocks| == 2000
      ensures SuperFields(blocks[1]) && SB == Super(2000, 200, 32, 58, 59)
      ensures forall j | j in inode :: inode[j] == FREE_INODE
    {
      hide SuperBlock, SuperFields;
      blocks := Blank();
      freeInode, freeBlock := 1, SB.datastart;
      inode := FreeInodes(NINODES);
      owner := map[];
      new;
      BlankInv(F(), blocks);
      SuperIs();
    }

    /** ialloc(): the next inode, on disk too. */
    method Ialloc(itype: nat) returns (inum: nat)
      requires Inv() && freeInode < NINODES && 0 < itype < 0x1_0000
      modifies this`blocks, this`freeInode, this`inode
      ensures Inv() && inum == old(freeInode) && freeInode == old(freeInode) + 1
      ensures Created(old(F()), F(), inum, itype)
    {
      hide FsInv, OwnInv, FileOf, Put, Img, Created;
      inum := freeInode;
      freeInode := freeInode + 1;
      var din := FREE_INODE.(itype := itype, nlink := 1);
      ghost var f := F();
      ghost var h := Creation(f, inum, itype);
      var b := IBlock(SB, inum);
      ImgStore(blocks, freeBlock, b, Put(blocks[b], inum % IPB, din, 16));
      ImgSame(blocks, freeBlock, b);
      blocks := blocks[b := Put(blocks[b], inum % IPB, din, 16)];
      inode := inode[inum := din];
      assert F() == h;
      CreatedInv(f, h, inum, itype);
    }

    /** The last loop of main(): the bitmap goes to its block, and the image is a file system. */
    method Finish()
      requires Inv()
      modifies this`blocks
      ensures |blocks| == FSSIZE && Fs(SB, blocks, inode, owner) == old(F()) && Vacant(Fs(SB, blocks, inode, owner))
      ensures blocks[LOG.start] == ZEROS
      ensures forall b | 0 <= b < FSSIZE :: Marked(blocks, BMAPSTART, b) <==> b < freeBlock
      ensures forall b | 0 <= b < FSSIZE :: b in owner <==> SB.datastart <= b < freeBlock
    {
      hide FsInv, OwnInv, FileOf, Bit;
      var bitmap := ZEROS;
      for i := 0 to freeBlock
        invariant bitmap == BitsTo(i)
      {
        bitmap := bitmap[i / 8 := ByteWith(bitmap[i / 8], i % 8, true)];
      }
      forall b | 0 <= b < FSSIZE
        ensures Marked(Img(blocks, freeBlock), BMAPSTART, b) <==> b < freeBlock
        ensures b in owner <==> SB.datastart <= b < freeBlock
      {
        ImgMarked(blocks, freeBlock, b);
        UsedBelow(F(), blocks, freeBlock, b);
      }
      blocks := blocks[BMAPSTART := bitmap];
    }

    /** main(): the root directory, then every file with its entry in the root; the log is empty. It fails if the
        image or a file gets too big, or if there are more files than the superblock has inodes for, which it does
        not notice. */
    method Build(files: seq<HostFile>) returns (ok: bool)
      requires Inv() && freeInode == ROOTINO
      modifies this
      ensures ok ==> |blocks| == FSSIZE && Crash.Clean(LOG, blocks)
      ensures ok ==> |blocks| == FSSIZE && Stored(Fs(SB, blocks, inode, owner), files, |files|)
      ensures ok ==> Vacant(Fs(SB, blocks, inode, owner))
      ensures ok ==> forall b | 0 <= b < FSSIZE ::
                (Marked(blocks, BMAPSTART, b) <==> b < freeBlock) && (b in owner <==> SB.datastart <= b < freeBlock)
      ensures !ok ==> freeBlock >= FSSIZE || |files| > NINODES - 2 || exists k | 0 <= k < |files| ::
                |files[k].data| > MAXBYTES
    {
      hide FsInv, OwnInv, FileOf, Img, Created, Appended, Dirent, DirBytes, FileIs, Stored;
      ghost var f := F();
      var root := Ialloc(T_DIR);
      CreatedIs(f, F(), root, T_DIR);
      ghost var g := F();
      TypeOf(g, root, T_DIR, []);
      ok := Iappend(root, Dirent(root, ['.' as int]));
      if !ok {
        RootSmall(g, [], Dirent(root, ['.' as int]));
        return;
      }
      AppendIs(g, F(), root, T_DIR, [], Dirent(root, ['.' as int]));
      ghost var h := F();
      TypeOf(h, root, T_DIR, [] + Dirent(root, ['.' as int]));
      ok := Iappend(root, Dirent(root, ['.' as int, '.' as int]));
      if !ok {
        RootSmall(h, [] + Dirent(root, ['.' as int]), Dirent(root, ['.' as int, '.' as int]));
        return;
      }
      AppendIs(h, F(), root, T_DIR, [] + Dirent(root, ['.' as int]), Dirent(root, ['.' as int, '.' as int]));
      StoredNone(F(), files);
      for n := 0 to |files|
        invariant Inv() && freeInode == 2 + n && n <= NINODES - 2 && Stored(F(), files, n)
      {
        ok := AddFile(files, n);
        if !ok {
          return;
        }
      }
      Finish();
      WordZeros(0);
      ok := true;
    }

    /** One turn of main()'s loop over the files. */
    method AddFile(files: seq<HostFile>, n: nat) returns (ok: bool)
      requires Inv() && freeInode == 2 + n && n < |files| && n <= NINODES - 2 && Stored(F(), files, n)
      modifies this
      ensures ok ==> n < NINODES - 2 && Inv() && freeInode == 3 + n && Stored(F(), files, n + 1)
      ensures !ok ==> freeBlock >= FSSIZE || |files| > NINODES - 2 || exists k | 0 <= k < |files| ::
                |files[k].data| > MAXBYTES
    {
      hide FsInv, OwnInv, FileOf, Img, Created, Appended, Dirent, DirBytes, FileIs, Stored;
      if freeInode >= NINODES {
        return false;
      }
      ghost var f := F();
      var inum := Ialloc(T_FILE);
      ghost var g := F();
      StoredRoot(f, g, files, n, inum);
      TypeOf(g, ROOTINO, T_DIR, DirBytes(files, n));
      var de := Dirent(inum, Display(files[n].name));
      ok := Iappend(ROOTINO, de);
      if !ok {
        RootSmall(g, DirBytes(files, n), de);
        return;
      }
      ghost var h := F();
      StoredEntry(f, g, h, files, n, inum, de);
      TypeOf(h, inum, T_FILE, []);
      ok := Iappend(inum, files[n].data);
      if !ok {
        NewFileSize(h, inum);
        return;
      }
      StoredFile(f, h, F(), files, n, inum);
    }

    /** iappend() on an empty slot: the next block goes there. False stands for a read past the end of the image. */
    method FillSlot(i: nat, din: Inode, s: nat) returns (ok: bool, din': Inode)
      requires Part() && i in inode && inode[i] == din && s <= NDIRECT
      modifies this`freeBlock, this`inode, this`owner
      ensures ok ==>
                Part() && OnlyFile(old(F()), F(), i) && i in inode && inode[i] == din' && 0 < din'.addrs[s] < FSSIZE
      ensures din.addrs[s] != 0 ==> ok && din' == din && F() == old(F()) && freeBlock == old(freeBlock)
      ensures ok && s < NDIRECT ==> din'.addrs[NDIRECT] == din.addrs[NDIRECT]
      ensures ok && din.addrs[s] == 0 ==>
        FileOf(din', F().blocks) == var F := FileOf(din, old(F()).blocks); if s < NDIRECT then F[s := ZEROS] else F
      ensures !ok ==> freeBlock >= FSSIZE
    {
      hide OwnInv, FileOf, OnlyFile, Img, Given;
      ok, din' := true, din;
      SlotInside(F(), i, s);
      OnlyFileSelf(F(), i);
      if din.addrs[s] == 0 {
        if freeBlock >= FSSIZE {
          return false, din;
        }
        Bump(F(), blocks, freeBlock);
        ghost var g := DirectEffect(F(), i, s, freeBlock);
        din' := din.(addrs := din.addrs[s := freeBlock]);
        inode := inode[i := din'];
        owner := owner[freeBlock := (i, s)];
        freeBlock := freeBlock + 1;
        assert F() == g;
      }
    }

    /** iappend() on an entry of the indirect block. */
    method FillEntry(i: nat, din: Inode, k: nat) returns (ok: bool, blk: nat)
      requires Part() && i in inode && inode[i] == din && k < NINDIRECT && 0 < din.addrs[NDIRECT] < FSSIZE
      modifies this`blocks, this`freeBlock, this`owner
      ensures ok ==> Part() && Mapped(old(F()), F(), i, NDIRECT + k)
      ensures ok ==> 0 < blk < FSSIZE && blk == SlotOf(din, F().blocks, NDIRECT + 1 + k)
      ensures !ok ==> freeBlock >= FSSIZE
    {
      hide OwnInv, SlotOf, FileOf, OnlyFile, Given, SetWord, Word;
      ghost var f := F();
      EntryWord(f, i, k);
      SlotInside(f, i, NDIRECT);
      SlotBelow(f, blocks, freeBlock, i, NDIRECT);
      EntryInside(f, i, k);
      var ind := din.addrs[NDIRECT];
      blk := Word(blocks[ind], k);
      if blk == 0 {
        if freeBlock >= FSSIZE {
          return false, blk;
        }
        blk := freeBlock;
        Bump(f, blocks, freeBlock);
        ghost var g := EntryEffect(f, i, k, blk);
        ImgStore(blocks, blk + 1, ind, SetWord(blocks[ind], k, blk));
        blocks := blocks[ind := SetWord(blocks[ind], k, blk)];
        owner := owner[blk := (i, NDIRECT + 1 + k)];
        freeBlock := freeBlock + 1;
        assert F() == g;
      }
      ok := true;
    }

    /** The block of the file that iappend() writes next. */
    method MapBlock(i: nat, din: Inode, fbn: nat) returns (ok: bool, din': Inode, target: nat)
      requires Part() && i in inode && inode[i] == din && fbn < MAXFILE
      modifies this`blocks, this`freeBlock, this`inode, this`owner
      ensures ok ==> Part() && Mapped(old(F()), F(), i, fbn) && i in inode && inode[i] == din'
      ensures ok ==> 0 < target < FSSIZE && target == SlotOf(din', F().blocks, DataSlot(fbn))
      ensures ok && fbn < NDIRECT ==> din'.addrs[NDIRECT] == din.addrs[NDIRECT]
      ensures !ok ==> freeBlock >= FSSIZE
    {
      hide OwnInv, SlotOf, FileOf, OnlyFile, Img;
      target := 0;
      ghost var f := F();
      if fbn < NDIRECT {
        DirectWord(f, i, fbn);
        ok, din' := FillSlot(i, din, fbn);
        if ok {
          DirectWord(F(), i, fbn);
          target := din'.addrs[fbn];
        }
      } else {
        EntryMapped(f, i, fbn - NDIRECT);
        ok, din' := FillSlot(i, din, NDIRECT);
        if ok {
          ghost var g := F();
          ok, target := FillEntry(i, din', fbn - NDIRECT);
          if ok {
            OnlyFileTrans(f, g, F(), i);
          }
        }
      }
    }

    /** One turn of iappend()'s loop. */
    method WriteChunk(i: nat, din: Inode, fbn: nat, start: nat, chunk: seq<Byte>) returns (ok: bool, din': Inode)
      requires Part() && i in inode && inode[i] == din && fbn < MAXFILE && start + |chunk| <= BSIZE
      modifies this`blocks, this`freeBlock, this`inode, this`owner
      ensures ok ==> Part() && OnlyFile(old(F()), F(), i) && i in inode && inode[i] == din'
      ensures ok ==> FileOf(din', F().blocks) == Turned(FileOf(din, old(F()).blocks), fbn, start, chunk)
      ensures ok && fbn < NDIRECT ==> din'.addrs[NDIRECT] == din.addrs[NDIRECT]
      ensures !ok ==> freeBlock >= FSSIZE
    {
      hide OwnInv, SlotOf, FileOf, OnlyFile;
      ghost var f := F();
      var target;
      ok, din', target := MapBlock(i, din, fbn);
      if ok {
        ghost var g := F();
        ghost var h := ChunkEffect(f, g, i, fbn, start, chunk);
        SlotBelow(g, blocks, freeBlock, i, DataSlot(fbn));
        ImgStore(blocks, freeBlock, target, Patch(blocks[target], start, chunk));
        blocks := blocks[target := Patch(blocks[target], start, chunk)];
        assert F() == h;
      }
    }

    /** iappend(): the bytes go to the end of the file, and no other file changes. It fails if the file or the image
        gets too big. */
    method Iappend(i: nat, data: seq<Byte>) returns (ok: bool)
      requires Inv() && i in inode && i < freeInode && inode[i].itype != 0
      modifies this`blocks, this`freeBlock, this`inode, this`owner
      ensures ok ==> Inv() && Appended(old(F()), F(), i, data)
      ensures !ok ==> freeBlock >= FSSIZE || old(inode)[i].size + |data| > MAXBYTES
    {
      hide OwnInv, SlotOf, FileOf, OnlyFile, Half, Agree, Decode, Img, Appended, FsInv;
      ghost var f := F();
      ImgOnDisk(f, blocks, freeBlock, i);
      var din := Decode(blocks[IBlock(SB, i)], i % IPB);
      ghost var size, file := din.size, FileOf(din, f.blocks);
      HalfStart(file, size, size, data);
      OnlyFileSelf(f, i);
      var off, p := din.size, 0;
      while p < |data|
        invariant 0 <= p <= |data| && off == size + p && Part() && OnlyFile(f, F(), i) && i in inode && inode[i] == din
        invariant Half(FileOf(din, F().blocks), file, size, size, off, data) && off <= MAXBYTES
        invariant din.addrs[NDIRECT] != 0 ==> off > NDIRECT * BSIZE
      {
        var fbn := off / BSIZE;
        if fbn >= MAXFILE {
          return false;
        }
        var n1 := if |data| - p < (fbn + 1) * BSIZE - off then |data| - p else (fbn + 1) * BSIZE - off;
        HalfStep(FileOf(din, F().blocks), file, size, size, off, data, n1);
        ghost var g := F();
        ok, din := WriteChunk(i, din, fbn, off - fbn * BSIZE, data[p..p + n1]);
        if !ok {
          return;
        }
        OnlyFileTrans(f, g, F(), i);
        off := off + n1;
        p := p + n1;
      }
      WriteInode(i, din, off, f, data);
      AppendKeeps(f, F(), i, data);
      ok := true;
    }

    /** The end of iappend(): the new size, and the inode to its place. */
    method WriteInode(i: nat, din: Inode, off: nat, ghost f: Fs, ghost data: seq<Byte>)
      requires Part() && i in inode && inode[i] == din && i in f.inode && FsInv(f) && OnlyFile(f, F(), i)
      requires off == f.inode[i].size + |data| <= MAXBYTES && (din.addrs[NDIRECT] != 0 ==> off > NDIRECT * BSIZE)
      requires Half(FileOf(din, F().blocks), FileOf(f.inode[i], f.blocks), f.inode[i].size, f.inode[i].size, off, data)
      modifies this`blocks, this`inode
      ensures Part() && Appended(f, F(), i, data)
    {
      hide OwnInv, FileOf, OnlyFile, Half, FsInv, Put, Img, Appended;
      ghost var g := F();
      ghost var h := StampInode(f, g, i, data);
      var b := IBlock(SB, i);
      var block := Put(blocks[b], i % IPB, din.(size := off), 16);
      ImgStore(blocks, freeBlock, b, block);
      ImgSame(blocks, freeBlock, b);
      inode := inode[i := din.(size := off)];
      blocks := blocks[b := block];
      assert F() == h;
    }
  }

  lemma ImgSame(blocks: seq<Block>, n: nat, b: nat)
    requires |blocks| == FSSIZE && b < FSSIZE && b != BMAPSTART
    ensures Img(blocks, n)[b] == blocks[b]
  {
  }

  /** A file written up to its new end, with the new size in memory and on disk. */
  lemma StampInode(f: Fs, g: Fs, i: nat, data: seq<Byte>) returns (h: Fs)
    requires OwnInv(g) && i in g.inode && i in f.inode && FsInv(f) && OnlyFile(f, g, i) && g.sb == SB
    requires f.inode[i].size + |data| <= MAXBYTES
    requires g.inode[i].addrs[NDIRECT] != 0 ==> f.inode[i].size + |data| > NDIRECT * BSIZE
    requires Half(FileOf(g.inode[i], g.blocks), FileOf(f.inode[i], f.blocks), f.inode[i].size, f.inode[i].size,
                  f.inode[i].size + |data|, data)
    ensures var ip := g.inode[i].(size := f.inode[i].size + |data|); var b := IBlock(SB, i);
            && b < BMAPSTART < |g.blocks|
            && h == g.(inode := g.inode[i := ip], blocks := g.blocks[b := Put(g.blocks[b], i % IPB, ip, 16)])
    ensures OwnInv(h) && Appended(f, h, i, data)
  {
    hide OwnInv, SlotOf, FileOf, OnlyFile, Half, Agree;
    OthersOnDisk(f, g, i);
    var ip := g.inode[i].(size := f.inode[i].size + |data|);
    Relabel(g, i, ip);
    var r := g.(inode := g.inode[i := ip]);
    InodeBlock(r, i);
    var b := IBlock(SB, i);
    UpdateInv(r, i, Put(g.blocks[b], i % IPB, ip, 16));
    h := r.(blocks := g.blocks[b := Put(g.blocks[b], i % IPB, ip, 16)]);
    forall j | j in g.inode && j != i ensures FileOf(g.inode[j], h.blocks) == FileOf(g.inode[j], g.blocks) {
      assert r.inode[j] == g.inode[j];
    }
    WrittenDone(f, g, h, i, f.inode[i].size, data);
    AppendDone(f, h, i, data);
  }

  // ---- The superblock and the empty image ----

  /** size, nblocks, ninodes, nlog, logstart, inodestart, bmapstart. */
  function SuperBlock(): Block {
    var b := SetWord(SetWord(SetWord(ZEROS, 0, FSSIZE), 1, FSSIZE - 59), 2, NINODES);
    SetWord(SetWord(SetWord(SetWord(b, 3, 30), 4, 2), 5, 32), 6, BMAPSTART)
  }

  /** size, nblocks, ninodes, nlog, logstart, inodestart and bmapstart. */
  predicate SuperFields(b: Block) {
    && Word(b, 0) == 2000 && Word(b, 1) == 2000 - (2 + 30 + 26 + 1) && Word(b, 2) == 200 && Word(b, 3) == 30
    && Word(b, 4) == 2 && Word(b, 5) == 2 + 30 && Word(b, 6) == 2 + 30 + 200 / 8 + 1
  }

  lemma SuperIs()
    ensures SuperFields(SuperBlock())
  {
    hide Word, SetWord;
    var b0 := SetWord(ZEROS, 0, FSSIZE);
    var b1 := SetWord(b0, 1, FSSIZE - 59);
    var b2 := SetWord(b1, 2, NINODES);
    var b3 := SetWord(b2, 3, 30);
    var b4 := SetWord(b3, 4, 2);
    var b5 := SetWord(b4, 5, 32);
    forall j | 0 <= j < 7 ensures Word(SuperBlock(), j) == [FSSIZE, FSSIZE - 59, NINODES, 30, 2, 32, BMAPSTART][j] {
      WordSet(ZEROS, 0, FSSIZE, j);
      WordSet(b0, 1, FSSIZE - 59, j);
      WordSet(b1, 2, NINODES, j);
      WordSet(b2, 3, 30, j);
      WordSet(b3, 4, 2, j);
      WordSet(b4, 5, 32, j);
      WordSet(b5, 6, BMAPSTART, j);
    }
  }

  function Blank(): (r: seq<Block>)
    ensures |r| == FSSIZE && forall k | 0 <= k < FSSIZE && k != 1 :: r[k] == ZEROS
    ensures r[1] == SuperBlock()
  {
    ZeroBlocks(FSSIZE)[1 := SuperBlock()]
  }

  function ZeroBlocks(n: nat): (r: seq<Block>)
    ensures |r| == n && forall k | 0 <= k < n :: r[k] == ZEROS
  {
    if n == 0 then [] else ZeroBlocks(n - 1) + [ZEROS]
  }

  ghost function FreeInodes(n: nat): (m: map<nat, Inode>)
    ensures forall j :: j in m <==> 0 <= j < n
    ensures forall j | j in m :: m[j] == FREE_INODE
  {
    if n == 0 then map[] else FreeInodes(n - 1)[n - 1 := FREE_INODE]
  }

  lemma BlankInv(f: Fs, blocks: seq<Block>)
    requires |blocks| == FSSIZE && (forall k | 0 <= k < FSSIZE && k != 1 :: blocks[k] == ZEROS)
    requires f.sb == SB && f.blocks == Img(blocks, SB.datastart) && f.owner == map[]
    requires f.inode == FreeInodes(NINODES)
    ensures FsInv(f)
  {
    hide Word;
    forall i, s | i in f.inode && 0 <= s < NSLOTS ensures SlotOf(f.inode[i], f.blocks, s) == 0 {}
    forall b | 0 <= b < SB.size ensures InBitmap(f, b) {
      ImgMarked(blocks, SB.datastart, b);
    }
    forall i | i in f.inode
      ensures OnDisk(SB, f.blocks, i, f.inode[i]) && DenseTo(FileOf(f.inode[i], f.blocks), f.inode[i].size)
    {
      FreeEmpty(f.blocks);
      BlankInode(f.blocks, i);
    }
  }

  lemma BlankInode(blocks: seq<Block>, i: nat)
    requires |blocks| == FSSIZE && i < NINODES && forall k | 32 <= k < BMAPSTART :: blocks[k] == ZEROS
    ensures OnDisk(SB, blocks, i, FREE_INODE)
  {
    forall k | 0 <= k < 16 ensures Word(blocks[IBlock(SB, i)], i % IPB * 16 + k) == DinodeWord(FREE_INODE, k) {
      WordZeros(i % IPB * 16 + k);
    }
  }

  lemma FreeEmpty(blocks: seq<Block>)
    ensures FileOf(FREE_INODE, blocks) == map[] && DenseTo(map[], 0)
  {
  }

  // ---- A new inode ----

  ghost predicate Created(f: Fs, g: Fs, i: nat, itype: nat) {
    && FsInv(f) && FsInv(g) && i in f.inode && g.inode.Keys == f.inode.Keys && itype < 0x1_0000
    && g.inode[i] == FREE_INODE.(itype := itype, nlink := 1) && ContentsOf(g, i) == []
    && (forall j | j in f.inode && j != i :: g.inode[j] == f.inode[j] && ContentsOf(g, j) == ContentsOf(f, j))
  }

  lemma Creation(f: Fs, i: nat, itype: nat) returns (h: Fs)
    requires FsInv(f) && f.sb == SB && i in f.inode && f.inode[i] == FREE_INODE && itype < 0x1_0000
    ensures var ip := FREE_INODE.(itype := itype, nlink := 1); var b := IBlock(SB, i);
            && b < BMAPSTART < |f.blocks|
            && h == f.(inode := f.inode[i := ip], blocks := f.blocks[b := Put(f.blocks[b], i % IPB, ip, 16)])
    ensures Created(f, h, i, itype)
  {
    hide FsInv, FileOf, Put;
    h := Rewrite(f, i, FREE_INODE.(itype := itype, nlink := 1));
    InodeInside(f, i);
    FreeEmpty(f.blocks);
  }

  lemma CreatedInv(f: Fs, g: Fs, i: nat, itype: nat)
    requires Created(f, g, i, itype)
    ensures FsInv(g) && OwnInv(g) && i in f.inode && g.inode == f.inode[i := FREE_INODE.(itype := itype, nlink := 1)]
  {
  }

  // ---- What the image holds ----

  datatype HostFile = HostFile(name: seq<Byte>, data: seq<Byte>)

  /** The name without a leading underscore. */
  function Display(name: seq<Byte>): seq<Byte> {
    if |name| > 0 && name[0] == '_' as int then name[1..] else name
  }

  function DirBytes(files: seq<HostFile>, n: nat): (r: seq<Byte>)
    requires n <= |files|
    ensures |r| == 16 * (n + 2)
  {
    if n == 0 then Dirent(ROOTINO, ['.' as int]) + Dirent(ROOTINO, ['.' as int, '.' as int])
    else DirBytes(files, n - 1) + Dirent(n + 1, Display(files[n - 1].name))
  }

  /** Entry 2 + k of the root is for file k; the first two are "." and "..". */
  lemma {:induction false} RootEntry(files: seq<HostFile>, n: nat, k: nat)
    requires k < n + 2 && n <= |files|
    ensures EntryAt(DirBytes(files, n), k) ==
            if k == 0 then Dirent(ROOTINO, ['.' as int])
            else if k == 1 then Dirent(ROOTINO, ['.' as int, '.' as int])
            else Dirent(k, Display(files[k - 2].name))
    decreases n
  {
    hide Dirent, Display;
    var d := DirBytes(files, n);
    if n == 0 {
      var p, q := Dirent(ROOTINO, ['.' as int]), Dirent(ROOTINO, ['.' as int, '.' as int]);
      assert d == p + q && EntryAt(d, 0) == p && EntryAt(d, 1) == q;
    } else {
      var p, q := DirBytes(files, n - 1), Dirent(n + 1, Display(files[n - 1].name));
      assert d == p + q;
      if k == n + 1 {
        assert EntryAt(d, k) == q;
      } else {
        RootEntry(files, n - 1, k);
        assert EntryAt(d, k) == EntryAt(p, k);
      }
    }
  }

  /** The name under which file k can be looked up: without a leading underscore (95), and cut. */
  function ShownAs(files: seq<HostFile>, k: nat): seq<Byte>
    requires k < |files|
  {
    var name := files[k].name;
    Fit(if name != [] && name[0] == 95 then name[1..] else name)
  }

  /** Decoded: every entry has the number of its inode, and what fits of the name, without its underscore. */
  lemma RootDecoded(files: seq<HostFile>, k: nat)
    requires k < |files| <= NINODES - 2
    ensures var d := DirBytes(files, |files|);
            && InumOf(EntryAt(d, 0)) == InumOf(EntryAt(d, 1)) == 1 && InumOf(EntryAt(d, 2 + k)) == 2 + k
            && NameOf(EntryAt(d, 0)) == ['.' as int] && NameOf(EntryAt(d, 1)) == ['.' as int, '.' as int]
            && NameOf(EntryAt(d, 2 + k)) == ShownAs(files, k)
  {
    hide Dirent, EntryAt, DirBytes, InumOf, NameOf, Fit, Display;
    DotEntries();
    RootEntry(files, |files|, 0);
    RootEntry(files, |files|, 1);
    RootEntry(files, |files|, 2 + k);
    FileEntry(files[k].name, 2 + k);
  }

  lemma FileEntry(name: seq<Byte>, inum: nat)
    requires inum < NINODES
    ensures var e := Dirent(inum, Display(name));
            InumOf(e) == inum && NameOf(e) == Fit(if name != [] && name[0] == 95 then name[1..] else name)
  {
    hide Dirent, InumOf, NameOf, Fit;
    DirentIs(inum, Display(name));
  }

  lemma DotEntries()
    ensures var a, b := Dirent(ROOTINO, ['.' as int]), Dirent(ROOTINO, ['.' as int, '.' as int]);
            && InumOf(a) == InumOf(b) == 1 && NameOf(a) == ['.' as int] && NameOf(b) == ['.' as int, '.' as int]
  {
    hide Dirent, InumOf, NameOf;
    var dot, dots: seq<Byte> := ['.' as int], ['.' as int, '.' as int];
    DirentIs(ROOTINO, dot);
    DirentIs(ROOTINO, dots);
    CutUnique(dot, dot);
    CutUnique(dots, dots);
  }

  /** Nothing before file k in the root begins with its name. */
  ghost predicate Findable(files: seq<HostFile>, k: nat)
    requires k < |files|
  {
    var name := ShownAs(files, k);
    && !(name <= ['.' as int, '.' as int])
    && forall j | 0 <= j < k :: !(name <= ShownAs(files, j))
  }

  /** The entry of file k is the one found for its name exactly if nothing before it begins with that name. */
  lemma RootFinds(files: seq<HostFile>, k: nat)
    requires k < |files| <= NINODES - 2
    ensures FirstHit(DirBytes(files, |files|), ShownAs(files, k), 2 + k) <==> Findable(files, k)
  {
    hide Dirent, EntryAt, Display, DirBytes, InumOf, NameOf, ShownAs;
    var d, name := DirBytes(files, |files|), ShownAs(files, k);
    RootDecoded(files, k);
    assert name <= name && Hit(d, name, 2 + k);
    forall j | 0 <= j < k ensures Hit(d, name, 2 + j) <==> name <= ShownAs(files, j) { RootDecoded(files, j); }
    var dot, dots: seq<Byte> := ['.' as int], ['.' as int, '.' as int];
    assert Hit(d, name, 0) <==> name <= dot;
    assert Hit(d, name, 1) <==> name <= dots;
    assert name <= dot ==> name <= dots;
    if Findable(files, k) {
      forall i | 0 <= i < 2 + k ensures !Hit(d, name, i) {
        if i >= 2 {
          RootDecoded(files, i - 2);
          assert !(name <= ShownAs(files, i - 2));
        }
      }
    }
    if FirstHit(d, name, 2 + k) {
      assert !Hit(d, name, 1);
      forall j | 0 <= j < k ensures !(name <= ShownAs(files, j)) { assert !Hit(d, name, 2 + j); }
    }
  }

  ghost predicate FileIs(f: Fs, i: nat, itype: nat, data: seq<Byte>) {
    && i in f.inode && f.inode[i].itype == itype && DenseTo(FileOf(f.inode[i], f.blocks), f.inode[i].size)
    && ContentsOf(f, i) == data
  }

  /** The root lists the first n files, and inode 2 + k is file k. */
  ghost predicate Stored(f: Fs, files: seq<HostFile>, n: nat)
    requires n <= |files|
  {
    && FsInv(f) && FileIs(f, ROOTINO, T_DIR, DirBytes(files, n))
    && forall k | 0 <= k < n :: FileIs(f, 2 + k, T_FILE, files[k].data)
  }

  /** Look file k up in the root of an image, and read up to n bytes of what is found. */
  method ReadFile(fs: FileSystem, files: seq<HostFile>, k: nat, n: U32)
    returns (r: Looked, io: Io, data: seq<Byte>)
    requires k < |files| <= NINODES - 2 && Stored(fs.F(), files, |files|)
    modifies fs
    ensures fs.F() == old(fs.F()) && r.Found?
    ensures r.inum == 2 + k <==> Findable(files, k)
    ensures r.inum == ROOTINO || 2 <= r.inum <= 2 + k
    ensures r.inum >= 2 ==> var all := files[r.inum - 2].data;
                            data == (if n < |all| then all[..n] else all) && io == Done(|data|)
  {
    hide FsInv, FileIs, DirBytes, ShownAs, Findable, EntryAt, InumOf, Fit, FirstHit;
    ghost var f := fs.F();
    RootIs(f, files);
    FitShown(files, k);
    r := Dirlookup(fs, ROOTINO, ShownAs(files, k));
    io, data := Error, [];
    RootFound(files, k, r);
    if r.inum >= 2 {
      IsFile(f, 2 + (r.inum - 2), files[r.inum - 2].data);
      io, data := fs.Readi(r.inum, 0, n);
      ReadAll(f, r.inum, files[r.inum - 2].data);
    }
  }

  lemma RootIs(f: Fs, files: seq<HostFile>)
    requires Stored(f, files, |files|)
    ensures FsInv(f) && ROOTINO in f.inode && f.inode[ROOTINO].itype == T_DIR
    ensures DirData(f, ROOTINO) == DirBytes(files, |files|)
  {
  }

  lemma FitShown(files: seq<HostFile>, k: nat)
    requires k < |files|
    ensures Fit(ShownAs(files, k)) == ShownAs(files, k)
  {
    var name := files[k].name;
    FitTwice(if name != [] && name[0] == 95 then name[1..] else name);
  }

  lemma RootFound(files: seq<HostFile>, k: nat, r: Looked)
    requires k < |files| <= NINODES - 2
    requires var d, name := DirBytes(files, |files|), ShownAs(files, k);
             && r != NotDir && (r.Found? ==> FirstHit(d, name, r.k) && r.inum == InumOf(EntryAt(d, r.k)))
             && (r.Missing? || r.ShortRead? ==> NoHit(d, name))
    ensures r.Found? && (r.inum == ROOTINO || 2 <= r.inum <= 2 + k) && (r.inum == 2 + k <==> Findable(files, k))
  {
    hide DirBytes, ShownAs, Findable, EntryAt, InumOf, NameOf, Hit;
    var d, name := DirBytes(files, |files|), ShownAs(files, k);
    RootDecoded(files, k);
    HitIs(d, name, 2 + k);
    assert name <= name;
    RootFinds(files, k);
    if r.Found? && r.k >= 2 {
      RootDecoded(files, r.k - 2);
    }
  }

  lemma IsFile(f: Fs, i: nat, data: seq<Byte>)
    requires FileIs(f, i, T_FILE, data)
    ensures i in f.inode && f.inode[i].itype == T_FILE != T_DEV
  {
  }

  lemma ReadAll(f: Fs, i: nat, all: seq<Byte>)
    requires FsInv(f) && FileIs(f, i, T_FILE, all)
    ensures f.inode[i].size == |all| && all[0..] == all && ContentsOf(f, i) == all
  {
    hide FileOf, OwnInv, Agree;
  }

  lemma CreatedIs(f: Fs, g: Fs, i: nat, itype: nat)
    requires Created(f, g, i, itype)
    ensures FsInv(g) && FileIs(g, i, itype, [])
    ensures forall j, t, data | j != i && FileIs(f, j, t, data) :: FileIs(g, j, t, data)
  {
    hide OwnInv, FileOf, Agree;
  }

  lemma AppendIs(f: Fs, g: Fs, i: nat, itype: nat, was: seq<Byte>, data: seq<Byte>)
    requires Appended(f, g, i, data) && FileIs(f, i, itype, was)
    ensures FsInv(g) && FileIs(g, i, itype, was + data)
    ensures forall j, t, d | j != i && FileIs(f, j, t, d) :: FileIs(g, j, t, d)
  {
    hide OwnInv, FileOf, Agree;
  }

  lemma StoredNone(f: Fs, files: seq<HostFile>)
    requires FsInv(f)
    requires FileIs(f, ROOTINO, T_DIR, [] + Dirent(ROOTINO, ['.' as int]) + Dirent(ROOTINO, ['.' as int, '.' as int]))
    ensures Stored(f, files, 0)
  {
    hide FsInv, FileIs;
    assert [] + Dirent(ROOTINO, ['.' as int]) == Dirent(ROOTINO, ['.' as int]);
  }

  lemma TypeOf(f: Fs, i: nat, itype: nat, data: seq<Byte>)
    requires FileIs(f, i, itype, data)
    ensures i in f.inode && f.inode[i].itype == itype
  {
  }

  /** The root never grows too big. */
  lemma RootSmall(f: Fs, was: seq<Byte>, de: seq<Byte>)
    requires FileIs(f, ROOTINO, T_DIR, was) && |was| <= 16 * NINODES && |de| == 16
    ensures f.inode[ROOTINO].size + |de| <= MAXBYTES
  {
  }

  lemma StoredRoot(f: Fs, g: Fs, files: seq<HostFile>, n: nat, inum: nat)
    requires n < |files| && Stored(f, files, n) && Created(f, g, inum, T_FILE) && inum == 2 + n
    ensures FileIs(g, ROOTINO, T_DIR, DirBytes(files, n))
  {
    hide FileIs, FsInv;
    CreatedIs(f, g, inum, T_FILE);
  }

  lemma StoredEntry(f: Fs, g: Fs, h: Fs, files: seq<HostFile>, n: nat, inum: nat, de: seq<Byte>)
    requires n < |files| && Stored(f, files, n) && Created(f, g, inum, T_FILE) && inum == 2 + n
    requires de == Dirent(inum, Display(files[n].name)) && Appended(g, h, ROOTINO, de)
    ensures FsInv(h) && FileIs(h, ROOTINO, T_DIR, DirBytes(files, n + 1)) && FileIs(h, inum, T_FILE, [])
    ensures forall k | 0 <= k < n :: FileIs(h, 2 + k, T_FILE, files[k].data)
  {
    hide FileIs, FsInv, Created, Appended, Dirent;
    CreatedIs(f, g, inum, T_FILE);
    AppendIs(g, h, ROOTINO, T_DIR, DirBytes(files, n), de);
  }

  lemma NewFileSize(h: Fs, inum: nat)
    requires FileIs(h, inum, T_FILE, [])
    ensures h.inode[inum].size == 0
  {
  }

  lemma StoredFile(f: Fs, h: Fs, u: Fs, files: seq<HostFile>, n: nat, inum: nat)
    requires n < |files| && FileIs(h, ROOTINO, T_DIR, DirBytes(files, n + 1)) && FileIs(h, inum, T_FILE, [])
               && inum == 2 + n
    requires forall k | 0 <= k < n :: FileIs(h, 2 + k, T_FILE, files[k].data)
    requires Appended(h, u, inum, files[n].data)
    ensures Stored(u, files, n + 1)
  {
    hide FileIs, FsInv, Appended, DirBytes;
    AppendIs(h, u, inum, T_FILE, [], files[n].data);
    assert [] + files[n].data == files[n].data;
  }

  /** The effect of an append, file by file. */
  ghost predicate Appended(f: Fs, g: Fs, i: nat, data: seq<Byte>) {
    && FsInv(f) && FsInv(g) && i in f.inode && g.inode.Keys == f.inode.Keys
    && g.inode[i] == f.inode[i].(addrs := g.inode[i].addrs, size := g.inode[i].size)
    && ContentsOf(g, i) == ContentsOf(f, i) + data
    && (forall j | j in f.inode && j != i :: g.inode[j] == f.inode[j] && ContentsOf(g, j) == ContentsOf(f, j))
  }

  lemma AppendDone(f: Fs, g: Fs, i: nat, data: seq<Byte>)
    requires Written(f, g, i, if i in f.inode then f.inode[i].size else 0, data)
    ensures Appended(f, g, i, data)
  {
    hide OwnInv, FileOf, Agree;
    assert Splice(ContentsOf(f, i), |ContentsOf(f, i)|, data) == ContentsOf(f, i) + data;
  }

  lemma AppendKeeps(f: Fs, g: Fs, i: nat, data: seq<Byte>)
    requires Appended(f, g, i, data)
    ensures FsInv(g) && g.inode.Keys == f.inode.Keys && i in f.inode && g.inode[i].itype == f.inode[i].itype
    ensures forall j | j in f.inode && j != i :: g.inode[j] == f.inode[j]
  {
  }

  lemma ImgOnDisk(f: Fs, blocks: seq<Block>, n: nat, i: nat)
    requires FsInv(f) && f.sb == SB && |blocks| == FSSIZE && f.blocks == Img(blocks, n) && i in f.inode
    ensures IBlock(SB, i) < BMAPSTART && Decode(blocks[IBlock(SB, i)], i % IPB) == f.inode[i]
    ensures DenseTo(FileOf(f.inode[i], f.blocks), f.inode[i].size) && Tight(f.inode[i])
  {
    InodeBlock(f, i);
    DecodeOnDisk(SB, f.blocks, i, f.inode[i]);
  }

  /** The blocks in use are exactly the data blocks below freeBlock. */
  lemma UsedBelow(f: Fs, blocks: seq<Block>, n: nat, b: nat)
    requires OwnInv(f) && f.sb == SB && |blocks| == FSSIZE && f.blocks == Img(blocks, n) && n <= FSSIZE && b < FSSIZE
    ensures b in f.owner <==> SB.datastart <= b < n
  {
    assert InBitmap(f, b);
    ImgMarked(blocks, n, b);
    assert b in f.owner ==> HangsFrom(f, b);
  }

  lemma SlotBelow(f: Fs, blocks: seq<Block>, n: nat, i: nat, s: nat)
    requires OwnInv(f) && f.sb == SB && |blocks| == FSSIZE && f.blocks == Img(blocks, n) && n <= FSSIZE
    requires i in f.inode && s < NSLOTS
    ensures SlotOf(f.inode[i], f.blocks, s) == 0 || SB.datastart <= SlotOf(f.inode[i], f.blocks, s) < n
    ensures s == NDIRECT ==> SlotOf(f.inode[i], f.blocks, s) == f.inode[i].addrs[NDIRECT]
  {
    var b := SlotOf(f.inode[i], f.blocks, s);
    if b != 0 {
      assert HangsFrom(f, b);
      UsedBelow(f, blocks, n, b);
    }
  }

  lemma EntryInside(f: Fs, i: nat, k: nat)
    requires OwnInv(f) && i in f.inode && k < NINDIRECT
    ensures SlotOf(f.inode[i], f.blocks, NDIRECT + 1 + k) != 0 ==>
              f.sb.datastart <= SlotOf(f.inode[i], f.blocks, NDIRECT + 1 + k) < f.sb.size
  {
    var b := SlotOf(f.inode[i], f.blocks, NDIRECT + 1 + k);
    if b != 0 {
      assert HangsFrom(f, b);
    }
  }

  lemma SlotInside(f: Fs, i: nat, s: nat)
    requires OwnInv(f) && i in f.inode && s <= NDIRECT
    ensures f.inode[i].addrs[s] != 0 ==> f.sb.datastart <= f.inode[i].addrs[s] < f.sb.size
  {
    assert SlotOf(f.inode[i], f.blocks, s) == f.inode[i].addrs[s];
    if f.inode[i].addrs[s] != 0 {
      assert HangsFrom(f, f.inode[i].addrs[s]);
    }
  }
}
