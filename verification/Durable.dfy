/** Files across crashes: what module Files does to the blocks and what modules Log and Crash make of the disk, put
    together. After any crashes the disk is a file system again, with the contents of the last committed transaction. */
module Durable {
  import opened Common
  import opened Blocks
  import opened Crash
  import opened Inodes
  import opened Contents
  import opened Files
  import opened Lru
  import opened Bio
  import opened Log
  import Admission
  import Mkfs

  // ---- What module Files works on is what the cache and the log hold ----

  /** How many blocks log_write() takes. */
  function LogRoom(l: Layout): nat {
    if l.size == 0 then 0 else Min(LOGSIZE, l.size - 1)
  }

  /** The cache shows the blocks of the file system, and the log has those of the transaction. */
  ghost predicate Behind(log: TxnLog, fs: FileSystem)
    reads log, log.cache, fs
  {
    && log.Tracked() && log.cache.view == fs.blocks && AsSet(log.block) == fs.logged && fs.room == LogRoom(log.l)
    && log.outstanding >= 1
  }

  /** Module Files changes blocks only by `Store`. Here is the code behind it, a read, a store into the buffer,
      log_write() and a release: it does to the cache and the log what `Store` does, and panics exactly when `Store`
      fails. */
  method StoreThrough(log: TxnLog, fs: FileSystem, b: nat, data: Block, ghost p: nat) returns (ok: bool)
    requires Behind(log, fs) && b < |fs.blocks| && Outside(log.l, |fs.blocks|, b)
    requires Unlocked(log.cache.buf, b) && Readable(log.cache.buf, b)
               && Admission.Enabled(log.Gate(), Admission.Write(p, b))
    modifies log`block, log`budget, log.cache, fs`blocks, fs`logged, fs`calls
    ensures ok <==> |old(fs.logged)| < fs.room
    ensures ok ==> Behind(log, fs) && fs.blocks == old(fs.blocks)[b := data] && fs.logged == old(fs.logged) + {b}
    ensures log.cache.disk == old(log.cache.disk) && log.cache.trace == old(log.cache.trace)
  {
    hide DoublyLinked, Circle, Keyed, LinkOk, DirtySet, AsSet, Distinct;
    var cache := log.cache;
    DistinctCard(log.block);
    CacheSizes(cache.buf, cache.disk, cache.view);
    var got, i := ReadBlock(cache, b);
    ghost var buf1 := cache.buf;
    cache.SetData(i, data);
    SameDirty(buf1, cache.buf, i);
    ok := log.LogWrite(i, p);
    var stored := fs.Store(b, data);
    if ok {
      ghost var buf2 := cache.buf;
      cache.Release(i);
      SameDirty(buf2, cache.buf, i);
      LoggedSet(old(log.block), log.block, b);
    }
  }

  lemma LoggedSet(block: seq<U32>, block': seq<U32>, b: nat)
    requires b < TWO32 && block' == if b in block then block else block + [b]
    ensures AsSet(block') == AsSet(block) + {b}
  {
  }

  /** What the commit writes is then the transaction of the file system. */
  lemma BehindTxn(log: TxnLog, fs: FileSystem, f: Fs)
    requires Behind(log, fs) && OnlyLogged(f.blocks, fs.blocks, fs.logged)
    ensures forall i | 0 <= i < |log.block| :: log.block[i] < |log.cache.view|
    ensures var t := TxnOf(log.cache.view, log.block);
            HoldsAt(fs.blocks, t) && OnlyLogged(f.blocks, fs.blocks, AsSet(t.blocks))
  {
    ShapeFits(log.l, log.cache.view, log.block);
  }

  // ---- Crashes ----

  /** The log ends where the inodes begin, or before. */
  predicate LogBelow(l: Layout, sb: Super) {
    l.start + l.size <= sb.inodestart
  }

  /** The file system f, found on disk d. */
  ghost function On(f: Fs, d: Disk): Fs {
    f.(blocks := d)
  }

  ghost predicate SameFiles(f: Fs, g: Fs) {
    && FsInv(f) && FsInv(g) && g.inode == f.inode && g.owner == f.owner
    && forall i | i in f.inode :: ContentsOf(g, i) == ContentsOf(f, i)
  }

  /** The log is no part of the file system. */
  lemma HomesInv(l: Layout, f: Fs, d: Disk)
    requires FsInv(f) && LogBelow(l, f.sb) && SameHomes(l, d, f.blocks)
    ensures SameFiles(f, On(f, d))
  {
    var g := On(f, d);
    assert forall b | f.sb.inodestart <= b < |d| :: d[b] == f.blocks[b];
    forall b | b in f.owner ensures f.sb.datastart <= b < |d| && d[b] == f.blocks[b] { assert HangsFrom(f, b); }
    HomesOwned(f, d);
    forall i | i in f.inode
      ensures Inodes.OnDisk(g.sb, d, i, g.inode[i]) && FileOf(g.inode[i], d) == FileOf(f.inode[i], f.blocks)
    {
      OnDiskKept(f.sb, f.blocks, d, i, f.inode[i]);
      FileKept(f, i, d);
    }
  }

  lemma HomesOwned(f: Fs, d: Disk)
    requires OwnInv(f) && |d| == |f.blocks| && forall b | b in f.owner :: b < |d| && d[b] == f.blocks[b]
    requires forall b | f.sb.inodestart <= b < |d| :: d[b] == f.blocks[b]
    ensures OwnInv(On(f, d))
  {
    var g := On(f, d);
    forall i | i in f.inode ensures SameSlots(f.inode[i], f.blocks, d) { FileKept(f, i, d); }
    forall i, s | i in g.inode && 0 <= s < NSLOTS ensures SlotOf(g.inode[i], d, s) == SlotOf(f.inode[i], f.blocks, s) {
      assert SameSlots(f.inode[i], f.blocks, d);
    }
    forall b | b in g.owner ensures HangsFrom(g, b) { assert HangsFrom(f, b); }
    forall b | 0 <= b < f.sb.size ensures InBitmap(g, b) {
      assert InBitmap(f, b);
      BitmapKept(f.sb, f.blocks, d, b);
    }
  }

  /** A transaction takes f to g: its blocks are g's, and nothing else has changed. */
  ghost predicate Carries(f: Fs, g: Fs, t: Txn) {
    && FsInv(g) && g.sb == f.sb && HoldsAt(g.blocks, t) && OnlyLogged(f.blocks, g.blocks, AsSet(t.blocks))
  }

  lemma OverlayIs(f: Fs, g: Fs, t: Txn)
    requires Carries(f, g, t)
    ensures Fits(f.blocks, t) && Overlaid(f.blocks, t) == g.blocks
  {
    forall b | 0 <= b < |f.blocks| ensures Overlaid(f.blocks, t)[b] == g.blocks[b] {
      OverlayAt(f.blocks, g.blocks, t, |t.blocks|, b);
      assert t.blocks[..|t.blocks|] == t.blocks;
    }
  }

  /** The file system that counts from one event to the next: only a commit that gets past its header changes it. */
  ghost predicate Follows(e: Event, f: Fs, g: Fs) {
    match e
    case Boot(ws, k) => g == f
    case Commit(t, ws, k) => if k <= |t.blocks| then g == f else Carries(f, g, t)
  }

  ghost predicate Chronicle(l: Layout, ss: seq<System>, es: seq<Event>, fs: seq<Fs>) {
    && Run(l, ss, es) && |fs| == |ss|
    && forall i | 0 <= i < |es| :: Follows(es[i], fs[i], fs[i + 1])
  }

  /** The disk, once recovered, is the file system f. */
  ghost predicate Recovers(l: Layout, s: System, f: Fs) {
    && Consistent(l, s) && FsInv(f) && LogBelow(l, f.sb) && SameHomes(l, s.homes, f.blocks)
    && SameFiles(f, On(f, Recovered(l, s.disk)))
    && (s.up ==> SameFiles(f, On(f, s.disk)))
  }

  lemma RecoversFrom(l: Layout, s: System, f: Fs)
    requires Consistent(l, s) && FsInv(f) && LogBelow(l, f.sb) && SameHomes(l, s.homes, f.blocks)
    ensures Recovers(l, s, f)
  {
    hide FsInv;
    HomesInv(l, f, Recovered(l, s.disk));
    if s.up {
      HomesInv(l, f, s.disk);
    }
  }

  lemma FollowsHomes(l: Layout, s: System, e: Event, s': System, f: Fs, g: Fs)
    requires Recovers(l, s, f) && Step(l, s, e, s') && Follows(e, f, g)
    ensures Recovers(l, s', g)
  {
    hide FsInv, WellFormed;
    StepKeepsConsistent(l, s, e, s');
    if e.Commit? && e.k > |e.t.blocks| {
      OverlayIs(f, g, e.t);
      OverlaySameHomes(l, s.homes, f.blocks, e.t, |e.t.blocks|);
    }
    RecoversFrom(l, s', g);
  }

  /** However often the machine crashes, in commits and recoveries alike: whenever it is up, and whenever a recovery
      finishes, the disk meets the whole file-system invariant, and every file has the contents that the last committed
      transaction gave it. */
  lemma {:induction false} Durability(l: Layout, ss: seq<System>, es: seq<Event>, fs: seq<Fs>)
    requires Chronicle(l, ss, es, fs) && Recovers(l, ss[0], fs[0])
    ensures Recovers(l, ss[|es|], fs[|es|])
    decreases |es|
  {
    hide Recovers, Step, Follows;
    if es != [] {
      var n := |es| - 1;
      var ss', es', fs' := ss[..n + 1], es[..n], fs[..n + 1];
      ChronicleFront(l, ss, es, fs);
      Durability(l, ss', es', fs');
      FollowsHomes(l, ss[n], es[n], ss[n + 1], fs[n], fs[n + 1]);
    }
  }

  lemma ChronicleFront(l: Layout, ss: seq<System>, es: seq<Event>, fs: seq<Fs>)
    requires Chronicle(l, ss, es, fs) && es != []
    ensures var n := |es| - 1;
            && Chronicle(l, ss[..n + 1], es[..n], fs[..n + 1])
            && Step(l, ss[n], es[n], ss[n + 1]) && Follows(es[n], fs[n], fs[n + 1])
  {
    hide Step, Follows;
    var n := |es| - 1;
    forall i | 0 <= i < n ensures Step(l, ss[..n + 1][i], es[..n][i], ss[..n + 1][i + 1]) {
      assert Step(l, ss[i], es[i], ss[i + 1]);
    }
    forall i | 0 <= i < n ensures Follows(es[..n][i], fs[..n + 1][i], fs[..n + 1][i + 1]) {
      assert Follows(es[i], fs[i], fs[i + 1]);
    }
  }

  /** A write is all or nothing. Its transaction is cut off after any k of the disk writes of commit(): recovery then
      finds every file as before, or file i with exactly the new bytes spliced in and every other file as before. */
  lemma WriteIsAtomic(l: Layout, s: System, f: Fs, g: Fs, i: nat, off: nat, src: seq<Byte>,
                      t: Txn, ws: seq<Write>, k: nat)
    requires Recovers(l, s, f) && s.up && g.sb == f.sb && Written(f, g, i, off, src)
    requires HoldsAt(g.blocks, t) && OnlyLogged(f.blocks, g.blocks, AsSet(t.blocks))
    requires CommitList(l, s.disk, t, ws) && k <= |ws|
    ensures WellFormed(l, After(s.disk, ws, k))
    ensures var committed, d := k > |t.blocks|, Recovered(l, After(s.disk, ws, k));
            var h := On(if committed then g else f, d);
            && FsInv(h) && h.inode.Keys == f.inode.Keys
            && (forall j | j in f.inode && j != i :: ContentsOf(h, j) == ContentsOf(f, j))
            && ContentsOf(h, i) == if committed then Splice(ContentsOf(f, i), off, src) else ContentsOf(f, i)
  {
    hide FsInv, Splice, Overlaid, After;
    HomesFit(l, s, f, g, t);
    var e := Commit(t, ws, k);
    var s' := System(After(s.disk, ws, k), k == |ws|, if k <= |t.blocks| then s.homes else Overlaid(s.homes, t));
    FollowsHomes(l, s, e, s', f, if k <= |t.blocks| then f else g);
  }

  lemma HomesFit(l: Layout, s: System, f: Fs, g: Fs, t: Txn)
    requires Recovers(l, s, f) && HoldsAt(g.blocks, t) && |g.blocks| == |f.blocks|
    ensures Fits(s.homes, t)
  {
  }

  /** An image that mkfs has built is such a beginning. */
  lemma Newborn(f: Fs, files: seq<Mkfs.HostFile>)
    requires f.sb == Mkfs.SB && |f.blocks| == Mkfs.FSSIZE && Clean(Mkfs.LOG, f.blocks) && Mkfs.Stored(f, files, |files|)
    ensures Recovers(Mkfs.LOG, System(f.blocks, false, f.blocks), f)
  {
    hide FsInv;
    CleanRecovered(Mkfs.LOG, f.blocks);
    RecoversFrom(Mkfs.LOG, System(f.blocks, false, f.blocks), f);
  }
}
