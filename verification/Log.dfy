/** commit() and recover_from_log() of crates/fs/src/log.rs, running through the buffer cache. Each is shown to
    make exactly the disk writes that module Crash reasons about. */
module Log {
  import opened Common
  import opened Blocks
  import opened Crash
  import opened Lru
  import opened Bio
  import Admission

  ghost predicate Idle(buf: seq<Buf>) {
    forall i | 0 <= i < |buf| :: buf[i].refcnt == 0
  }

  predicate IsDirty(x: Buf) {
    x.dev == ROOTDEV && x.dirty
  }

  /** The blocks that are cached and dirty. */
  ghost function DirtySet(buf: seq<Buf>): set<nat> {
    set i | 0 <= i < |buf| && IsDirty(buf[i]) :: buf[i].blockno
  }

  ghost predicate Cached(buf: seq<Buf>, b: nat) {
    exists i :: 0 <= i < |buf| && Matches(buf[i], ROOTDEV, b)
  }

  ghost predicate SomeEligible(buf: seq<Buf>) {
    exists i :: 0 <= i < |buf| && Eligible(buf[i])
  }

  /** What reading a block takes. */
  ghost predicate Readable(buf: seq<Buf>, b: nat) {
    SomeEligible(buf) || Cached(buf, b)
  }

  ghost predicate TwoEligible(buf: seq<Buf>) {
    exists i, j :: 0 <= i < j < |buf| && Eligible(buf[i]) && Eligible(buf[j])
  }

  // ---- Fetching and copying blocks ----

  /** Reading never makes a block dirty or clean. */
  lemma FetchKeepsDirty(before: seq<Buf>, after: seq<Buf>, i: nat, blockno: nat, view: Disk)
    requires Fetched(before, after, i, blockno, view)
    ensures DirtySet(after) == DirtySet(before)
  {
    assert forall k | 0 <= k < NBUF :: IsDirty(after[k]) <==> IsDirty(before[k]);
    assert forall k | 0 <= k < NBUF && IsDirty(before[k]) :: after[k].blockno == before[k].blockno;
  }

  ghost predicate Unlocked(buf: seq<Buf>, b: nat) {
    forall i | 0 <= i < |buf| && Matches(buf[i], ROOTDEV, b) :: !buf[i].locked
  }

  /** A block with no dirty buffer is on disk as the cache shows it: buffers that others hold have not been changed,
      as holds once every operation that changed one has logged it. */
  ghost predicate Settled(buf: seq<Buf>, disk: Disk, view: Disk) {
    |view| == |disk| && forall b | 0 <= b < |disk| && b !in DirtySet(buf) :: view[b] == disk[b]
  }

  /** A fetched buffer that is not dirty holds what the disk holds. */
  lemma FetchedClean(before: seq<Buf>, after: seq<Buf>, i: nat, blockno: nat, disk: Disk, view: Disk)
    requires Unique(before) && Settled(before, disk, view) && Fetched(before, after, i, blockno, view)
    ensures after[i].dirty || after[i].data == disk[blockno]
  {
    if blockno in DirtySet(before) {
      var k :| 0 <= k < |before| && IsDirty(before[k]) && before[k].blockno == blockno;
      HitOrMiss(before, k, blockno);
      assert Matches(before[k], ROOTDEV, blockno);
    }
  }

  /** After one block has been fetched there is still room for another, if both were cached, or there was a buffer to
      spare and one of the two was dirty (and so already in the cache), or there were two buffers to spare. */
  lemma RoomForSecond(before: seq<Buf>, after: seq<Buf>, i: nat, src: nat, dst: nat, view: Disk)
    requires Fetched(before, after, i, src, view) && src != dst && Unique(before)
    requires TwoEligible(before)
             || (Readable(before, src) && Readable(before, dst) && {src, dst} * DirtySet(before) != {})
    ensures Readable(after, dst)
  {
    if TwoEligible(before) {
      var j, k :| 0 <= j < k < |before| && Eligible(before[j]) && Eligible(before[k]);
      assert Eligible(after[if j == i then k else j]);
    } else if dst in DirtySet(before) {
      FetchKeepsDirty(before, after, i, src, view);
      var k :| 0 <= k < |after| && IsDirty(after[k]) && after[k].blockno == dst;
      assert Matches(after[k], ROOTDEV, dst);
    } else {
      assert src in DirtySet(before);
      var k :| 0 <= k < |before| && IsDirty(before[k]) && before[k].blockno == src;
      assert Matches(before[k], ROOTDEV, src);
      assert k == i;
      if SomeEligible(before) {
        var j :| 0 <= j < |before| && Eligible(before[j]);
        assert Eligible(after[j]);
      } else {
        var j :| 0 <= j < |before| && Matches(before[j], ROOTDEV, dst);
        assert Matches(after[j], ROOTDEV, dst);
      }
    }
  }

  /** Fetching one block makes no room for another. */
  lemma NoRoomGained(before: seq<Buf>, after: seq<Buf>, i: nat, src: nat, dst: nat, view: Disk)
    requires Fetched(before, after, i, src, view) && src != dst && Readable(after, dst)
    ensures Readable(before, dst)
  {
    if !SomeEligible(before) {
      assert forall k | 0 <= k < NBUF && k != i :: after[k] == before[k];
      assert !SomeEligible(after);
      var j :| 0 <= j < |after| && Matches(after[j], ROOTDEV, dst);
      assert Matches(before[j], ROOTDEV, dst);
    }
  }

  /** read() of a block whose buffer nobody holds. */
  method ReadBlock(cache: Bcache, b: nat) returns (ok: bool, i: nat)
    requires cache.Valid() && b < |cache.disk| && Unlocked(cache.buf, b)
    modifies cache`buf
    ensures ok <==> Readable(old(cache.buf), b)
    ensures ok ==> cache.Valid() && Fetched(old(cache.buf), cache.buf, i, b, cache.view)
    ensures ok ==> DirtySet(cache.buf) == DirtySet(old(cache.buf))
  {
    hide DoublyLinked, Circle, Keyed, LinkOk;
    var r := cache.Read(b);
    ok, i := r.Ready?, 0;
    if ok {
      i := r.b;
      FetchKeepsDirty(old(cache.buf), cache.buf, i, b, cache.view);
    }
  }

  lemma SecondUnlocked(before: seq<Buf>, after: seq<Buf>, i: nat, src: nat, dst: nat, view: Disk)
    requires Fetched(before, after, i, src, view) && src != dst && Unlocked(before, dst)
    ensures Unlocked(after, dst)
  {
  }

  lemma FetchesBoth(before: seq<Buf>, mid: seq<Buf>, after: seq<Buf>, s: nat, d: nat, src: nat, dst: nat,
                    disk: Disk, view: Disk)
    requires Unique(before) && Settled(before, disk, view) && src != dst
    requires Fetched(before, mid, s, src, view) && Fetched(mid, after, d, dst, view)
    ensures BothFetched(before, after, s, d, src, dst, disk, view)
  {
    FetchedClean(before, mid, s, src, disk, view);
    assert d != s && mid[d] == before[d];
  }

  ghost predicate BothFetched(before: seq<Buf>, after: seq<Buf>, s: nat, d: nat, src: nat, dst: nat,
                              disk: Disk, view: Disk)
  {
    && |before| == |after| == NBUF && s < NBUF && d < NBUF && s != d
    && src < |view| == |disk| && dst < |view|
    && HandedOut(before[s], after[s], src, view[src])
    && (after[s].dirty || view[src] == disk[src])
    && HandedOut(before[d], after[d], dst, view[dst])
    && (forall i | 0 <= i < NBUF && i != s && i != d :: after[i] == before[i])
  }

  /** The buffer was the block's own, or a spare one; now it is locked and holds the block. */
  ghost predicate HandedOut(before: Buf, after: Buf, b: nat, data: Block) {
    && after.refcnt > 0 && after == Buf(ROOTDEV, b, true, after.dirty, true, after.refcnt, data)
    && if Matches(before, ROOTDEV, b) then after.refcnt == before.refcnt + 1 && after.dirty == before.dirty
       else Eligible(before) && after.refcnt == 1 && !after.dirty
  }

  /** Both blocks of a copy, locked, in two different buffers. */
  method FetchBoth(cache: Bcache, src: nat, dst: nat) returns (ok: bool, s: nat, d: nat)
    requires cache.Valid() && Settled(cache.buf, cache.disk, cache.view)
    requires src < |cache.disk| && dst < |cache.disk| && src != dst
    requires Unlocked(cache.buf, src) && Unlocked(cache.buf, dst)
    modifies cache`buf
    ensures ok ==> cache.Valid() && BothFetched(old(cache.buf), cache.buf, s, d, src, dst, cache.disk, cache.view)
    ensures ok ==> DirtySet(cache.buf) == DirtySet(old(cache.buf))
    ensures TwoEligible(old(cache.buf)) ==> ok
    ensures Readable(old(cache.buf), src) && Readable(old(cache.buf), dst) ==>
              {src, dst} * DirtySet(old(cache.buf)) == {} || ok
    ensures ok ==> Readable(old(cache.buf), src) && Readable(old(cache.buf), dst)
  {
    hide DoublyLinked, Circle, Keyed, LinkOk, Unlocked, DirtySet, SomeEligible, Cached, TwoEligible, Fetched;
    ghost var buf0 := cache.buf;
    d := 0;
    ok, s := ReadBlock(cache, src);
    if ok {
      ghost var buf1 := cache.buf;
      SecondUnlocked(buf0, buf1, s, src, dst, cache.view);
      if TwoEligible(buf0) || (Readable(buf0, src) && Readable(buf0, dst) && {src, dst} * DirtySet(buf0) != {}) {
        RoomForSecond(buf0, buf1, s, src, dst, cache.view);
      }
      ok, d := ReadBlock(cache, dst);
      if ok {
        NoRoomGained(buf0, buf1, s, src, dst, cache.view);
        FetchesBoth(buf0, buf1, cache.buf, s, d, src, dst, cache.disk, cache.view);
      }
    } else {
      NoneSpare(buf0);
    }
  }

  lemma NoneSpare(buf: seq<Buf>)
    requires !SomeEligible(buf)
    ensures !TwoEligible(buf)
  {
  }

  /** New contents for a locked buffer, written to disk at once, and the buffer let go. */
  method WriteBack(cache: Bcache, d: nat, data: Block)
    requires cache.Valid() && d < NBUF && cache.buf[d].valid && cache.buf[d].locked
    modifies cache
    ensures cache.Valid()
    ensures old(cache.buf)[d].blockno < |old(cache.disk)| == |old(cache.view)|
    ensures cache.view == old(cache.view)[old(cache.buf)[d].blockno := data]
    ensures cache.disk == old(cache.disk)[old(cache.buf)[d].blockno := data]
    ensures cache.trace == Then(old(cache.trace), Write(old(cache.buf)[d].blockno, data))
    ensures cache.buf == old(cache.buf)[d := old(cache.buf)[d].(locked := false, refcnt := old(cache.buf)[d].refcnt - 1,
                                                                dirty := false, data := data)]
  {
    hide DoublyLinked, Circle, Keyed, LinkOk;
    assert BufOk(cache.buf[d], cache.view);
    cache.SetData(d, data);
    cache.WriteOut(d);
    cache.Release(d);
  }

  /** What rewriting one block leaves behind in the cache: the block is clean, the buffers that others hold are as they
      were, and there is as much room as before. */
  ghost predicate Rewritten(before: seq<Buf>, after: seq<Buf>, dst: nat) {
    && |before| == |after|
    && (forall i | 0 <= i < |after| && after[i].locked :: after[i] == before[i])
    && (Idle(before) ==> Idle(after))
    && (SomeEligible(before) ==> SomeEligible(after))
    && (SomeEligible(after) && dst !in DirtySet(before) ==> SomeEligible(before))
    && (!SomeEligible(before) ==> forall b: nat :: Cached(after, b) <==> Cached(before, b))
    && DirtySet(after) == DirtySet(before) - {dst}
  }

  /** The common body of write_log() and install_trans(): read both blocks, copy, write the destination, and let
      both go. False stands for the panic of a full cache, before anything is written. */
  method Copy(cache: Bcache, src: nat, dst: nat) returns (ok: bool)
    requires cache.Valid() && Settled(cache.buf, cache.disk, cache.view)
    requires src < |cache.disk| && dst < |cache.disk| && src != dst
    requires Unlocked(cache.buf, src) && Unlocked(cache.buf, dst)
    modifies cache
    ensures ok ==> cache.Valid() && Settled(cache.buf, cache.disk, cache.view)
    ensures ok ==> Rewritten(old(cache.buf), cache.buf, dst)
    ensures ok ==> cache.view == old(cache.view)[dst := old(cache.view)[src]]
    ensures ok ==> cache.disk == old(cache.disk)[dst := old(cache.view)[src]]
    ensures ok ==> cache.trace == Then(old(cache.trace), Write(dst, old(cache.view)[src]))
    ensures !ok ==> cache.disk == old(cache.disk) && cache.trace == old(cache.trace)
    ensures TwoEligible(old(cache.buf)) ==> ok
    ensures Readable(old(cache.buf), src) && Readable(old(cache.buf), dst) ==>
              {src, dst} * DirtySet(old(cache.buf)) == {} || ok
    ensures ok ==> Readable(old(cache.buf), src) && Readable(old(cache.buf), dst)
  {
    hide DoublyLinked, Circle, Keyed, LinkOk;
    ghost var was := cache.buf;
    var s, d;
    ok, s, d := FetchBoth(cache, src, dst);
    if ok {
      ghost var fetched := cache.buf;
      WriteBack(cache, d, cache.buf[s].data);
      cache.Release(s);
      DirtyAfterCopy(fetched, cache.buf, s, d, dst);
      hide CacheInv, DirtySet;
      CopyRewrites(was, fetched, cache.buf, s, d, src, dst, old(cache.disk), old(cache.view));
    }
  }

  /** A buffer that was handed out, written or only read, and let go again. */
  ghost predicate LetGoOf(fetched: Buf, after: Buf) {
    && fetched.refcnt > 0
    && Matches(after, fetched.dev, fetched.blockno) && !after.locked && after.refcnt == fetched.refcnt - 1
    && (after.dirty ==> fetched.dirty)
  }

  lemma CopyRewrites(before: seq<Buf>, fetched: seq<Buf>, after: seq<Buf>, s: nat, d: nat, src: nat, dst: nat,
                     disk: Disk, view: Disk)
    requires BothFetched(before, fetched, s, d, src, dst, disk, view) && |after| == NBUF
    requires LetGoOf(fetched[s], after[s]) && after[s].dirty == fetched[s].dirty
    requires LetGoOf(fetched[d], after[d]) && !after[d].dirty
    requires forall i | 0 <= i < NBUF && i != s && i != d :: after[i] == fetched[i]
    requires DirtySet(after) == DirtySet(before) - {dst}
    ensures Rewritten(before, after, dst)
  {
    hide DirtySet;
    forall i | 0 <= i < NBUF ensures Eligible(before[i]) ==> Eligible(after[i]) {
      assert i == s || i == d || after[i] == before[i];
    }
    if SomeEligible(before) {
      var i :| 0 <= i < |before| && Eligible(before[i]);
      assert Eligible(after[i]);
    } else {
      assert forall i | 0 <= i < NBUF :: Matches(after[i], before[i].dev, before[i].blockno);
      SameCached(before, after);
      if SomeEligible(after) {
        var i :| 0 <= i < |after| && Eligible(after[i]);
        assert i == d && IsDirty(before[d]) && before[d].blockno == dst;
        InDirtySet(before, d);
      }
    }
  }

  lemma InDirtySet(buf: seq<Buf>, i: nat)
    requires i < |buf| && IsDirty(buf[i])
    ensures buf[i].blockno in DirtySet(buf)
  {
  }

  lemma SameCached(before: seq<Buf>, after: seq<Buf>)
    requires |before| == |after|
    requires forall i | 0 <= i < |before| :: Matches(after[i], before[i].dev, before[i].blockno)
    ensures forall b: nat :: Cached(after, b) <==> Cached(before, b)
  {
    forall b: nat ensures Cached(after, b) <==> Cached(before, b) {
      if Cached(before, b) {
        var i :| 0 <= i < |before| && Matches(before[i], ROOTDEV, b);
        assert Matches(after[i], ROOTDEV, b);
      }
      if Cached(after, b) {
        var i :| 0 <= i < |after| && Matches(after[i], ROOTDEV, b);
        assert Matches(before[i], ROOTDEV, b);
      }
    }
  }

  lemma DirtyAfterCopy(before: seq<Buf>, after: seq<Buf>, s: nat, d: nat, dst: nat)
    requires |before| == |after| == NBUF && s < NBUF && d < NBUF && s != d && Unique(before)
    requires Matches(before[d], ROOTDEV, dst)
    requires after[s].dirty == before[s].dirty && Matches(after[s], before[s].dev, before[s].blockno)
    requires !after[d].dirty
    requires forall i | 0 <= i < NBUF && i != s && i != d :: after[i] == before[i]
    ensures DirtySet(after) == DirtySet(before) - {dst}
  {
    forall k | 0 <= k < NBUF && k != d ensures !Matches(before[k], ROOTDEV, dst) { OneBuffer(before, d, k); }
    assert forall k | 0 <= k < NBUF && k != d ::
        IsDirty(after[k]) == IsDirty(before[k]) && after[k].blockno == before[k].blockno;
    forall b ensures b in DirtySet(after) <==> b in DirtySet(before) - {dst} {
      if b in DirtySet(after) {
        var k :| 0 <= k < |after| && IsDirty(after[k]) && after[k].blockno == b;
        assert k != d && IsDirty(before[k]) && !Matches(before[k], ROOTDEV, dst);
      }
      if b in DirtySet(before) - {dst} {
        var k :| 0 <= k < |before| && IsDirty(before[k]) && before[k].blockno == b;
        assert IsDirty(after[k]);
      }
    }
  }

  // ---- How many buffers a transaction pins ----

  ghost predicate Distinct(bs: seq<U32>) {
    forall i, j | 0 <= i < j < |bs| :: bs[i] != bs[j]
  }

  ghost function AsSet(bs: seq<U32>): set<nat> {
    set b | b in bs
  }

  lemma DistinctCard(bs: seq<U32>)
    ensures |AsSet(bs)| <= |bs| && (Distinct(bs) ==> |AsSet(bs)| == |bs|)
  {
    if bs != [] {
      var rest := bs[1..];
      DistinctCard(rest);
      assert bs == [bs[0]] + rest;
      assert AsSet(bs) == AsSet(rest) + {bs[0]};
    }
  }

  ghost function BlocksOf(buf: seq<Buf>, s: set<nat>): set<nat>
    requires forall i | i in s :: i < |buf|
  {
    set i | i in s :: buf[i].blockno
  }

  /** Different dirty buffers hold different blocks. */
  lemma BlocksCard(buf: seq<Buf>, s: set<nat>)
    requires Unique(buf) && forall i | i in s :: i < |buf| && IsDirty(buf[i])
    ensures |BlocksOf(buf, s)| == |s|
  {
    if s != {} {
      var i :| i in s;
      BlocksCard(buf, s - {i});
      forall j | j in s - {i} ensures buf[j].blockno != buf[i].blockno { OneBuffer(buf, i, j); }
      assert BlocksOf(buf, s) == BlocksOf(buf, s - {i}) + {buf[i].blockno};
    }
  }

  lemma CountBelow(n: nat, s: set<nat>)
    requires forall i: nat :: i in s <==> i < n
    ensures |s| == n
  {
    if n > 0 {
      CountBelow(n - 1, s - {n - 1});
    }
  }

  lemma CacheSizes(buf: seq<Buf>, disk: Disk, view: Disk)
    requires CacheInv(buf, disk, view)
    ensures |disk| == |view| && |buf| == NBUF
  {
  }

  lemma NothingIn()
    ensures AsSet([]) == {}
  {
  }

  lemma InSet(bs: seq<U32>, i: nat)
    requires i < |bs|
    ensures bs[i] in AsSet(bs)
  {
  }

  /** The clean buffers that are in use. */
  ghost function HeldSet(buf: seq<Buf>): set<nat> {
    set i: nat | i < |buf| && buf[i].refcnt > 0 && !buf[i].dirty
  }

  /** A buffer can be recycled exactly when the dirty blocks and the clean buffers in use are fewer than NBUF. */
  lemma EligibleLeft(buf: seq<Buf>, disk: Disk, view: Disk)
    requires CacheInv(buf, disk, view)
    ensures SomeEligible(buf) <==> |DirtySet(buf)| + |HeldSet(buf)| < NBUF
    ensures Idle(buf) ==> HeldSet(buf) == {}
  {
    var s := set i: nat | i < NBUF && IsDirty(buf[i]);
    BlocksCard(buf, s);
    assert BlocksOf(buf, s) == DirtySet(buf);
    CountBelow(NBUF, ALL);
    var used := s + HeldSet(buf);
    assert |used| == |s| + |HeldSet(buf)| by { assert s !! HeldSet(buf); }
    forall i: nat | i < NBUF ensures i in used <==> !Eligible(buf[i]) { assert BufOk(buf[i], view); }
    if SomeEligible(buf) {
      var i :| 0 <= i < |buf| && Eligible(buf[i]);
      ProperCard(used, ALL, i);
    } else {
      assert used == ALL;
    }
  }

  lemma ProperCard(s: set<nat>, t: set<nat>, i: nat)
    requires s <= t && i in t && i !in s
    ensures |s| < |t|
  {
    assert |t - s| == |t| - |s| && i in t - s;
  }

  // ---- Progress through a list of writes ----

  ghost predicate Made(d0: Disk, tr0: History, ws: seq<Write>, k: nat, disk: Disk, trace: History) {
    k <= |ws| && OnDisk(d0, ws) && disk == After(d0, ws, k) && trace == Grown(tr0, ws, k)
  }

  lemma MadeOneMore(d0: Disk, tr0: History, ws: seq<Write>, k: nat, disk: Disk, trace: History)
    requires Made(d0, tr0, ws, k, disk, trace) && k < |ws|
    ensures ws[k].blockno < |disk|
    ensures Made(d0, tr0, ws, k + 1, disk[ws[k].blockno := ws[k].data], Then(trace, ws[k]))
  {
  }

  ghost predicate LogShape(l: Layout, n: nat, block: seq<U32>) {
    |block| <= LOGSIZE && |block| < l.size && l.start + l.size <= n && AllOutside(l, n, block)
  }

  /** The cache shows the transaction's new contents at its home blocks. */
  ghost predicate HoldsAt(view: Disk, t: Txn) {
    Fits(view, t) && forall i | 0 <= i < |t.blocks| :: view[t.blocks[i]] == t.data[i]
  }

  /** The cache shows the first k of them in the log. */
  ghost predicate CopiedTo(l: Layout, view: Disk, t: Txn, k: nat) {
    k <= |t.data| && l.start + k < |view| && forall i | 0 <= i < k :: view[l.start + 1 + i] == t.data[i]
  }

  /** The writes from number m on bring the copies home that the cache shows in the log. */
  ghost predicate Sources(l: Layout, view: Disk, block: seq<U32>, ws: seq<Write>, m: nat) {
    && m + |block| <= |ws| && l.start + |block| < |view|
    && forall i | 0 <= i < |block| :: Sourced(l, view, block, ws, m, i)
  }

  ghost predicate Sourced(l: Layout, view: Disk, block: seq<U32>, ws: seq<Write>, m: nat, i: nat)
    requires i < |block| && m + i < |ws| && l.start + 1 + i < |view|
  {
    ws[m + i] == Write(block[i], view[l.start + 1 + i])
  }

  /** Writing into the log leaves the homes alone. */
  lemma CopyKeepsHomes(l: Layout, view: Disk, t: Txn, k: nat)
    requires LogShape(l, |view|, t.blocks) && HoldsAt(view, t) && CopiedTo(l, view, t, k) && k < |t.blocks|
    ensures var view' := view[l.start + 1 + k := view[t.blocks[k]]];
            HoldsAt(view', t) && CopiedTo(l, view', t, k + 1)
    ensures l.start + 1 + k !in AsSet(t.blocks) && t.blocks[k] < |view| && t.blocks[k] != l.start + 1 + k
  {
    assert forall i | 0 <= i < |t.blocks| :: Outside(l, |view|, t.blocks[i]);
  }

  lemma CopyStep(l: Layout, t: Txn, k: nat, d0: Disk, tr0: History, ws: seq<Write>,
                 view: Disk, disk: Disk, trace: History, dirty: set<nat>,
                 view': Disk, disk': Disk, trace': History, dirty': set<nat>)
    requires LogShape(l, |view|, t.blocks) && HoldsAt(view, t) && CopiedTo(l, view, t, k) && k < |t.blocks|
    requires Made(d0, tr0, ws, k, disk, trace) && k < |ws| && ws[k] == Write(l.start + 1 + k, t.data[k])
    requires dirty == AsSet(t.blocks) && |view| == |disk| && t.blocks[k] < |view|
    requires view' == view[l.start + 1 + k := view[t.blocks[k]]] && disk' == disk[l.start + 1 + k := view[t.blocks[k]]]
    requires trace' == Then(trace, Write(l.start + 1 + k, view[t.blocks[k]])) && dirty' == dirty - {l.start + 1 + k}
    ensures HoldsAt(view', t) && CopiedTo(l, view', t, k + 1) && view'[l.start] == view[l.start]
    ensures Made(d0, tr0, ws, k + 1, disk', trace') && dirty' == AsSet(t.blocks)
  {
    CopyKeepsHomes(l, view, t, k);
    MadeOneMore(d0, tr0, ws, k, disk, trace);
  }

  /** Writing a home leaves the log alone. */
  lemma InstallKeepsLog(l: Layout, view: Disk, block: seq<U32>, ws: seq<Write>, m: nat, k: nat)
    requires LogShape(l, |view|, block) && Sources(l, view, block, ws, m) && k < |block|
    ensures block[k] < |view| && block[k] != l.start + 1 + k && block[k] != l.start
    ensures Sources(l, view[block[k] := view[l.start + 1 + k]], block, ws, m)
  {
    assert Outside(l, |view|, block[k]);
    var view' := view[block[k] := view[l.start + 1 + k]];
    forall i | 0 <= i < |block| ensures Sourced(l, view', block, ws, m, i) {
      assert Sourced(l, view, block, ws, m, i);
    }
  }

  /** Whoever else holds a buffer holds neither a block of the log nor a logged one. */
  ghost predicate Quiet(l: Layout, block: seq<U32>, buf: seq<Buf>) {
    forall i | 0 <= i < |buf| && buf[i].locked :: !InLog(l, buf[i].blockno) && buf[i].blockno !in AsSet(block)
  }

  lemma QuietUnlocks(l: Layout, block: seq<U32>, buf: seq<Buf>, b: nat)
    requires Quiet(l, block, buf) && (InLog(l, b) || b in AsSet(block))
    ensures Unlocked(buf, b)
  {
  }

  lemma QuietKept(l: Layout, block: seq<U32>, before: seq<Buf>, after: seq<Buf>, dst: nat)
    requires Quiet(l, block, before) && Rewritten(before, after, dst)
    ensures Quiet(l, block, after)
  {
  }

  /** A commit of n blocks can read every block it needs: there is a buffer to recycle, or else the header and the n
      log blocks are all in the cache. */
  ghost predicate Room(l: Layout, n: nat, buf: seq<Buf>) {
    SomeEligible(buf) || forall b | l.start <= b <= l.start + n :: Cached(buf, b)
  }

  lemma RoomKept(l: Layout, n: nat, before: seq<Buf>, after: seq<Buf>, dst: nat)
    requires Room(l, n, before) && Rewritten(before, after, dst)
    ensures Room(l, n, after)
  {
    hide Cached, SomeEligible;
  }

  /** There is neither more nor less room. */
  ghost predicate SameRoom(before: seq<Buf>, after: seq<Buf>) {
    && (SomeEligible(before) <==> SomeEligible(after))
    && (!SomeEligible(before) ==> forall b: nat :: Cached(after, b) <==> Cached(before, b))
  }

  /** No other process uses a block of the log. */
  ghost predicate LogUnshared(l: Layout, buf: seq<Buf>) {
    forall i | 0 <= i < |buf| && buf[i].dev == ROOTDEV && InLog(l, buf[i].blockno) :: buf[i].refcnt == 0
  }

  /** Then a commit finds room exactly when the logged blocks and the clean buffers in use are fewer than NBUF. */
  lemma RoomExact(l: Layout, block: seq<U32>, buf: seq<Buf>, disk: Disk, view: Disk)
    requires CacheInv(buf, disk, view) && DirtySet(buf) == AsSet(block) && Distinct(block)
    requires LogShape(l, |disk|, block) && LogUnshared(l, buf)
    ensures Room(l, |block|, buf) <==> |block| + |HeldSet(buf)| < NBUF
  {
    EligibleLeft(buf, disk, view);
    DistinctCard(block);
    if Room(l, |block|, buf) && !SomeEligible(buf) {
      assert Cached(buf, l.start);
      var i :| 0 <= i < |buf| && Matches(buf[i], ROOTDEV, l.start);
      assert !Eligible(buf[i]);
      InDirtySet(buf, i);
      ShapeFits(l, view, block);
      assert false;
    }
  }

  /** What install_trans() meets on its way: in recovery nothing is dirty or in use; in a commit the homes still to be
      written are exactly the dirty blocks, and there is room. */
  ghost predicate InstallDirty(l: Layout, block: seq<U32>, tail: nat, buf: seq<Buf>)
    requires tail <= |block|
  {
    (DirtySet(buf) == {} && Idle(buf))
    || (Distinct(block) && DirtySet(buf) == AsSet(block[tail..]) && Room(l, |block|, buf))
  }

  lemma InstallRoom(l: Layout, buf: seq<Buf>, disk: Disk, view: Disk, block: seq<U32>, tail: nat)
    requires CacheInv(buf, disk, view) && tail < |block| && InstallDirty(l, block, tail, buf)
    ensures var copy := l.start + 1 + tail;
            TwoEligible(buf)
            || (Readable(buf, copy) && Readable(buf, block[tail]) && {copy, block[tail]} * DirtySet(buf) != {})
  {
    if DirtySet(buf) == {} && Idle(buf) {
      forall i | 0 <= i < NBUF ensures Eligible(buf[i]) {
        assert BufOk(buf[i], view);
        assert buf[i].blockno !in DirtySet(buf);
      }
      assert 0 <= 0 < 1 < |buf| && Eligible(buf[0]) && Eligible(buf[1]);
    } else {
      assert block[tail..][0] == block[tail];
      assert block[tail] in DirtySet(buf);
      var k :| 0 <= k < |buf| && IsDirty(buf[k]) && buf[k].blockno == block[tail];
      assert Matches(buf[k], ROOTDEV, block[tail]);
      assert block[tail] in {l.start + 1 + tail, block[tail]} * DirtySet(buf);
    }
  }

  lemma InstallNext(l: Layout, before: seq<Buf>, after: seq<Buf>, block: seq<U32>, tail: nat)
    requires tail < |block| && InstallDirty(l, block, tail, before) && Rewritten(before, after, block[tail])
    ensures InstallDirty(l, block, tail + 1, after)
  {
    hide SomeEligible, Cached, DirtySet;
    if !(DirtySet(before) == {} && Idle(before)) {
      RoomKept(l, |block|, before, after, block[tail]);
      var rest := block[tail..];
      assert rest == [block[tail]] + block[tail + 1..];
      assert block[tail] !in block[tail + 1..];
      assert AsSet(rest) - {block[tail] as nat} == AsSet(block[tail + 1..]);
    }
  }

  /** The transaction that the cache holds for the logged blocks. */
  ghost function TxnOf(view: Disk, block: seq<U32>): (t: Txn)
    requires forall i | 0 <= i < |block| :: block[i] < |view|
    ensures t.blocks == block && HoldsAt(view, t)
  {
    Txn(block, seq(|block|, i requires 0 <= i < |block| => view[block[i]]))
  }

  lemma ShapeFits(l: Layout, view: Disk, block: seq<U32>)
    requires LogShape(l, |view|, block)
    ensures forall i | 0 <= i < |block| :: block[i] < |view|
    ensures l.start !in AsSet(block)
  {
    assert forall i | 0 <= i < |block| :: Outside(l, |view|, block[i]);
  }

  /** The homes of a transaction, overlaid on the disk, are what readers saw all along. */
  lemma OverlayIsView(buf: seq<Buf>, disk: Disk, view: Disk, t: Txn)
    requires Settled(buf, disk, view) && DirtySet(buf) == AsSet(t.blocks) && HoldsAt(view, t)
    ensures Overlaid(disk, t) == view
  {
    forall b | 0 <= b < |disk| ensures Overlaid(disk, t)[b] == view[b] {
      OverlayAt(disk, view, t, |t.blocks|, b);
      assert t.blocks[..|t.blocks|] == t.blocks;
    }
  }

  lemma {:induction false} OverlayAt(disk: Disk, view: Disk, t: Txn, k: nat, b: nat)
    requires |view| == |disk| && HoldsAt(view, t) && k <= |t.blocks| && b < |disk|
    ensures Overlay(disk, t, k)[b] == if b in t.blocks[..k] then view[b] else disk[b]
  {
    if k > 0 {
      OverlayAt(disk, view, t, k - 1, b);
      assert t.blocks[..k] == t.blocks[..k - 1] + [t.blocks[k - 1]];
    }
  }

  lemma CommitSources(l: Layout, view: Disk, d0: Disk, t: Txn, ws: seq<Write>)
    requires CommitList(l, d0, t, ws) && CopiedTo(l, view, t, |t.blocks|)
    ensures Sources(l, view, t.blocks, ws, |t.blocks| + 1)
  {
    var m := |t.blocks| + 1;
    forall i | 0 <= i < |t.blocks| ensures Sourced(l, view, t.blocks, ws, m, i) {
      assert ws[m + i] == CommitWrite(l, d0, t, m + i);
    }
  }

  lemma HeaderHolds(h: Block, block: seq<U32>)
    requires |block| <= LOGSIZE
    ensures var x := Header(h, block, |block|);
            Word(x, 0) == |block| && forall i | 0 <= i < |block| :: Word(x, 1 + i) == block[i]
  {
    hide Word, Header;
    HeaderWords(h, block, |block|, 0);
    forall i | 0 <= i < |block| ensures Word(Header(h, block, |block|), 1 + i) == block[i] {
      HeaderWords(h, block, |block|, 1 + i);
    }
  }

  class TxnLog {
    const cache: Bcache
    const l: Layout
    var block: seq<U32>   // lh: the first lh.n entries of lh.block
    var outstanding: nat
    var committing: bool
    ghost var budget: map<nat, nat>
    ghost var asleep: set<nat>

    constructor (cache: Bcache, l: Layout)
      ensures this.cache == cache && this.l == l && Gate() == Admission.Initial(l.size, NBUF)
    {
      this.cache, this.l := cache, l;
      block, outstanding, committing, budget, asleep := [], 0, false, map[], {};
    }

    /** The fields that admission control works with. */
    ghost function Gate(): Admission.State
      reads this
    {
      Admission.State(l.size, NBUF, block, outstanding, committing, budget, asleep)
    }

    /** One turn of begin_op()'s loop: process p is admitted, or sleeps on the log. */
    method BeginOp(ghost p: nat) returns (admitted: bool)
      requires Admission.Enabled(Gate(), Admission.Begin(p))
      modifies this`outstanding, this`budget, this`asleep
      ensures Gate() == Admission.Step(old(Gate()), Admission.Begin(p))
      ensures admitted <==> !old(committing) && |old(block)| + (old(outstanding) + 1) * 10 <= 30
      ensures outstanding == old(outstanding) + (if admitted then 1 else 0) && (p in asleep <==> !admitted)
      ensures budget == if admitted then old(budget)[p := MAXOPBLOCKS] else old(budget)
    {
      if committing {
        asleep := asleep + {p};
        return false;
      } else if |block| + (outstanding + 1) * MAXOPBLOCKS > LOGSIZE {
        asleep := asleep + {p};
        return false;
      }
      outstanding := outstanding + 1;
      budget, asleep := budget[p := MAXOPBLOCKS], asleep - {p};
      return true;
    }

    /** end_op() before its commit: whether this process has to commit. False stands for the panic during a commit. */
    method EndOp(ghost p: nat) returns (ok: bool, doCommit: bool)
      requires Admission.Enabled(Gate(), Admission.End(p)) && outstanding >= 1
      modifies this`outstanding, this`committing, this`budget, this`asleep
      ensures ok <==> !Admission.Panics(old(Gate()), Admission.End(p))
      ensures ok ==> Gate() == Admission.Step(old(Gate()), Admission.End(p))
      ensures ok <==> !old(committing)
      ensures ok ==> outstanding == old(outstanding) - 1 && committing == doCommit == (outstanding == 0)
      ensures ok && !doCommit ==> asleep == {}
    {
      outstanding := outstanding - 1;
      if committing {
        return false, false;
      }
      ok := true;
      if outstanding == 0 {
        doCommit, committing := true, true;
      } else {
        doCommit, asleep := false, {};
      }
      budget := budget - {p};
    }

    /** Exactly the logged blocks are dirty, whoever holds buffers meanwhile. */
    ghost predicate Tracked()
      reads this, cache
    {
      && cache.Valid() && |cache.disk| <= TWO32
      && LogShape(l, |cache.view|, block) && Distinct(block)
      && DirtySet(cache.buf) == AsSet(block)
    }

    /** log_write(): record the block once, and pin its buffer. */
    method LogWrite(b: nat, ghost p: nat) returns (ok: bool)
      requires Tracked() && b < NBUF && Admission.Enabled(Gate(), Admission.Write(p, cache.buf[b].blockno))
      requires cache.buf[b].valid && cache.buf[b].locked && Outside(l, |cache.view|, cache.buf[b].blockno)
      modifies this`block, this`budget, cache`buf
      ensures ok <==> !Admission.Panics(old(Gate()), Admission.Write(p, old(cache.buf)[b].blockno))
      ensures !ok ==> Gate() == old(Gate()) && cache.buf == old(cache.buf)
      ensures ok ==> Tracked() && cache.buf == old(cache.buf)[b := old(cache.buf)[b].(dirty := true)]
      ensures ok ==> Gate() == Admission.Step(old(Gate()), Admission.Write(p, old(cache.buf)[b].blockno))
      ensures ok <==> |old(block)| < 30 && |old(block)| < l.size - 1 && outstanding >= 1
      ensures ok ==> var n := old(cache.buf)[b].blockno;
                     if n in old(block) then block == old(block) && budget == old(budget)
                     else block == old(block) + [n] && budget == old(budget)[p := old(budget)[p] - 1]
    {
      hide DoublyLinked, Circle, Keyed, LinkOk;
      if |block| >= LOGSIZE || |block| >= l.size - 1 {
        return false;
      }
      if outstanding < 1 {
        return false;
      }
      assert BufOk(cache.buf[b], cache.view);
      var blockno := cache.buf[b].blockno;
      var i := 0;
      while i < |block| && block[i] != blockno
        invariant 0 <= i <= |block| && blockno !in block[..i]
      {
        i := i + 1;
      }
      ghost var buf0, block0 := cache.buf, block;
      if i == |block| {
        assert block[..i] == block;
        block := block + [blockno];
        budget := budget[p := budget[p] - 1];
      } else {
        assert blockno in block;
        block := block[i := blockno];
        assert block == block0;
      }
      cache.Pin(b);
      DirtyAfterPin(buf0, cache.buf, b);
      assert AsSet(block) == AsSet(block0) + {blockno};
      ok := true;
    }

    /** k of the writes `ws`, starting from disk d0, have been made. */
    ghost predicate Progress(d0: Disk, tr0: History, ws: seq<Write>, k: nat)
      reads this, cache
    {
      Made(d0, tr0, ws, k, cache.disk, cache.trace)
    }

    /** write_head(). It panics exactly when the header is not in the cache and nothing can be recycled for it. */
    method WriteHead() returns (ok: bool)
      requires cache.Valid() && Settled(cache.buf, cache.disk, cache.view) && l.start < |cache.disk|
                 && |block| <= LOGSIZE
      requires l.start !in DirtySet(cache.buf) && Unlocked(cache.buf, l.start)
      modifies cache
      ensures ok <==> Readable(old(cache.buf), l.start)
      ensures ok ==> cache.Valid() && Settled(cache.buf, cache.disk, cache.view)
      ensures ok ==> Rewritten(old(cache.buf), cache.buf, l.start) && DirtySet(cache.buf) == DirtySet(old(cache.buf))
      ensures ok ==> var h := Header(old(cache.view)[l.start], block, |block|);
                     && cache.view == old(cache.view)[l.start := h]
                     && cache.disk == old(cache.disk)[l.start := h]
                     && cache.trace == Then(old(cache.trace), Write(l.start, h))
      ensures ok ==> Word(cache.disk[l.start], 0) == |block|
                     && forall i | 0 <= i < |block| :: Word(cache.disk[l.start], 1 + i) == block[i]
      ensures !ok ==> cache.disk == old(cache.disk) && cache.trace == old(cache.trace)
    {
      hide DoublyLinked, Circle, Keyed, LinkOk, Word, SetWord;
      ghost var buf0 := cache.buf;
      var b;
      ok, b := ReadBlock(cache, l.start);
      if !ok {
        return;
      }
      ghost var buf1 := cache.buf;
      var h := SetWord(cache.buf[b].data, 0, |block|);
      for i := 0 to |block|
        invariant h == Header(cache.buf[b].data, block, i)
      {
        h := SetWord(h, 1 + i, block[i]);
      }
      HeaderHolds(cache.buf[b].data, block);
      WriteBack(cache, b, h);
      DirtyAfterWrite(buf1, cache.buf, b);
      hide CacheInv, Header;
      HeadRewrites(buf0, buf1, cache.buf, b, l.start, old(cache.view));
    }

    /** The state of a commit: exactly the logged blocks are dirty. Others may hold buffers meanwhile, but of other
        blocks, and they only read. */
    ghost predicate Pinned()
      reads this, cache
    {
      && cache.Valid() && Settled(cache.buf, cache.disk, cache.view) && Quiet(l, block, cache.buf)
      && LogShape(l, |cache.view|, block) && Distinct(block)
      && DirtySet(cache.buf) == AsSet(block)
    }

    /** One turn of write_log(). */
    method CopyToLog(tail: nat, ghost d0: Disk, ghost tr0: History, ghost t: Txn, ghost ws: seq<Write>)
      returns (ok: bool)
      requires Pinned() && tail < |block| && t.blocks == block && HoldsAt(cache.view, t)
                 && CopiedTo(l, cache.view, t, tail)
      requires tail < |ws| && ws[tail] == Write(l.start + 1 + tail, t.data[tail]) && Progress(d0, tr0, ws, tail)
      modifies cache
      ensures ok ==> Pinned() && HoldsAt(cache.view, t) && CopiedTo(l, cache.view, t, tail + 1)
      ensures ok ==> Progress(d0, tr0, ws, tail + 1) && cache.view[l.start] == old(cache.view)[l.start]
      ensures ok <==> Readable(old(cache.buf), l.start + 1 + tail)
      ensures ok ==> SameRoom(old(cache.buf), cache.buf)
      ensures !ok ==> Progress(d0, tr0, ws, tail)
    {
      hide DoublyLinked, Circle, Keyed, LinkOk, CacheInv, DirtySet, AsSet, Idle, HoldsAt, Made, SomeEligible, Cached,
           Quiet, Unlocked;
      CacheSizes(cache.buf, cache.disk, cache.view);
      CopyKeepsHomes(l, cache.view, t, tail);
      InSet(block, tail);
      DirtyIsCached(cache.buf, block[tail]);
      QuietUnlocks(l, block, cache.buf, block[tail]);
      QuietUnlocks(l, block, cache.buf, l.start + 1 + tail);
      assert block[tail] in {block[tail], l.start + 1 + tail} * DirtySet(cache.buf);
      ghost var view, disk, trace, dirty := cache.view, cache.disk, cache.trace, DirtySet(cache.buf);
      ok := Copy(cache, block[tail], l.start + 1 + tail);
      if ok {
        CopyStep(l, t, tail, d0, tr0, ws, view, disk, trace, dirty, cache.view, cache.disk, cache.trace,
          DirtySet(cache.buf));
        QuietKept(l, block, old(cache.buf), cache.buf, l.start + 1 + tail);
      }
    }

    /** write_log(): the first n writes of a commit. It panics exactly when no buffer can be recycled and one of its log
        blocks is not in the cache. */
    method WriteLog(ghost d0: Disk, ghost tr0: History, ghost t: Txn, ghost ws: seq<Write>)
      returns (ok: bool, ghost done: nat)
      requires Pinned() && block != [] && t.blocks == block && HoldsAt(cache.view, t)
      requires CommitList(l, d0, t, ws) && Progress(d0, tr0, ws, 0)
      modifies cache
      ensures ok ==> Pinned() && HoldsAt(cache.view, t) && CopiedTo(l, cache.view, t, |block|)
      ensures ok ==> cache.view[l.start] == old(cache.view)[l.start] && SameRoom(old(cache.buf), cache.buf)
      ensures ok <==> forall b | l.start < b <= l.start + |block| :: Readable(old(cache.buf), b)
      ensures Progress(d0, tr0, ws, done) && (if ok then done == |block| else done < |block|)
    {
      hide SomeEligible, Cached, DoublyLinked, Circle, Keyed, LinkOk, CacheInv, DirtySet, Quiet, Settled, AsSet;
      CacheSizes(cache.buf, cache.disk, cache.view);
      for tail := 0 to |block|
        invariant Pinned() && HoldsAt(cache.view, t) && CopiedTo(l, cache.view, t, tail)
        invariant Progress(d0, tr0, ws, tail) && cache.view[l.start] == old(cache.view)[l.start]
        invariant SameRoom(old(cache.buf), cache.buf)
        invariant forall b | l.start < b <= l.start + tail :: Readable(old(cache.buf), b)
      {
        assert ws[tail] == CommitWrite(l, d0, t, tail);
        ok := CopyToLog(tail, d0, tr0, t, ws);
        done := tail;
        if !ok {
          assert !Readable(old(cache.buf), l.start + 1 + tail);
          return;
        }
      }
      return true, |block|;
    }

    ghost predicate Installing(tail: nat)
      reads this, cache
    {
      && cache.Valid() && Settled(cache.buf, cache.disk, cache.view) && Quiet(l, block, cache.buf)
      && LogShape(l, |cache.view|, block) && tail <= |block|
      && InstallDirty(l, block, tail, cache.buf)
    }

    /** One turn of install_trans(). */
    method InstallOne(tail: nat, ghost d0: Disk, ghost tr0: History, ghost ws: seq<Write>, ghost m: nat)
      returns (ok: bool)
      requires tail < |block| && Installing(tail) && Sources(l, cache.view, block, ws, m)
      requires Progress(d0, tr0, ws, m + tail)
      modifies cache
      ensures ok && Installing(tail + 1) && Sources(l, cache.view, block, ws, m)
      ensures Progress(d0, tr0, ws, m + tail + 1) && cache.view[l.start] == old(cache.view)[l.start]
    {
      hide DoublyLinked, Circle, Keyed, LinkOk;
      InstallRoom(l, cache.buf, cache.disk, cache.view, block, tail);
      InSet(block, tail);
      QuietUnlocks(l, block, cache.buf, block[tail]);
      QuietUnlocks(l, block, cache.buf, l.start + 1 + tail);
      InstallKeepsLog(l, cache.view, block, ws, m, tail);
      assert Sourced(l, cache.view, block, ws, m, tail);
      MadeOneMore(d0, tr0, ws, m + tail, cache.disk, cache.trace);
      hide SomeEligible, Cached, DirtySet, AsSet, Idle, TwoEligible, Unlocked;
      ok := Copy(cache, l.start + 1 + tail, block[tail]);
      QuietKept(l, block, old(cache.buf), cache.buf, block[tail]);
      InstallNext(l, old(cache.buf), cache.buf, block, tail);
    }

    /** install_trans(), in a commit and in recovery alike, always finds the buffers it needs. */
    method InstallTrans(ghost d0: Disk, ghost tr0: History, ghost ws: seq<Write>, ghost m: nat) returns (ok: bool)
      requires Installing(0) && Sources(l, cache.view, block, ws, m) && Progress(d0, tr0, ws, m)
      modifies cache
      ensures ok && Installing(|block|) && Progress(d0, tr0, ws, m + |block|)
      ensures cache.view[l.start] == old(cache.view)[l.start]
    {
      ok := true;
      for tail := 0 to |block|
        invariant ok && Installing(tail) && Sources(l, cache.view, block, ws, m) && Progress(d0, tr0, ws, m + tail)
        invariant cache.view[l.start] == old(cache.view)[l.start]
      {
        ok := InstallOne(tail, d0, tr0, ws, m);
      }
    }

    /** The last step of both: lh.n = 0 and write_head(). */
    method ClearLog(ghost d0: Disk, ghost tr0: History, ghost ws: seq<Write>) returns (ok: bool)
      requires Installing(|block|) && 0 < |ws| && Progress(d0, tr0, ws, |ws| - 1)
      requires ws[|ws| - 1] == Write(l.start, SetWord(cache.view[l.start], 0, 0))
      modifies this`block, cache
      ensures ok && block == [] && Pinned() && Progress(d0, tr0, ws, |ws|)
    {
      hide DoublyLinked, Circle, Keyed, LinkOk;
      assert block[|block|..] == [];
      assert DirtySet(cache.buf) == {};
      HeaderReadable(l, cache.buf, cache.disk, cache.view, block);
      QuietUnlocks(l, block, cache.buf, l.start);
      MadeOneMore(d0, tr0, ws, |ws| - 1, cache.disk, cache.trace);
      hide CacheInv, SomeEligible, Cached, DirtySet, Unlocked;
      QuietLess(l, block, cache.buf);
      block := [];
      ok := WriteHead();
      QuietKept(l, block, old(cache.buf), cache.buf, l.start);
    }

    /** The header is on disk; bring the blocks home and empty the log. */
    method FinishCommit(ghost d0: Disk, ghost tr0: History, ghost t: Txn, ghost ws: seq<Write>) returns (ok: bool)
      requires Pinned() && block != [] && t.blocks == block && Room(l, |block|, cache.buf)
      requires CopiedTo(l, cache.view, t, |block|) && CommitList(l, d0, t, ws)
      requires Progress(d0, tr0, ws, |block| + 1) && cache.view[l.start] == Header(d0[l.start], block, |block|)
      modifies this`block, cache
      ensures ok && block == [] && Pinned() && Progress(d0, tr0, ws, |ws|)
    {
      hide DoublyLinked, Circle, Keyed, LinkOk;
      CommitSources(l, cache.view, d0, t, ws);
      assert block[0..] == block;
      ok := InstallTrans(d0, tr0, ws, |block| + 1);
      assert ws[|ws| - 1] == CommitWrite(l, d0, t, |ws| - 1);
      ok := ClearLog(d0, tr0, ws);
    }

    /** commit(). It makes exactly the writes of `CommitWrites`, in that order, for the transaction the cache
        holds; afterwards the disk's homes are what readers saw before, and the log is empty. It panics exactly when no
        buffer can be recycled and some log block it needs is not in the cache; then the header has not been
        written, and recovery gives the disk from before. */
    method Commit() returns (ok: bool, ghost done: nat)
      requires Pinned() && Clean(l, cache.disk)
      modifies this`block, cache
      ensures ok <==> old(block) == [] || Room(l, |old(block)|, old(cache.buf))
      ensures ok ==> block == [] && Pinned() && Clean(l, cache.disk) && SameHomes(l, cache.disk, old(cache.view))
      ensures old(block) == [] ==> cache.disk == old(cache.disk) && cache.trace == old(cache.trace)
      ensures old(block) != [] ==>
                && (forall i | 0 <= i < |old(block)| :: old(block)[i] < |old(cache.view)|)
                && var t := TxnOf(old(cache.view), old(block));
                   && Legal(l, old(cache.disk), t)
                   && var ws := CommitWrites(l, old(cache.disk), t);
                      && (if ok then done == |ws| else done <= |old(block)|)
                      && cache.disk == After(old(cache.disk), ws, done)
                      && cache.trace == Grown(old(cache.trace), ws, done)
      ensures !ok ==> block == old(block) && WellFormed(l, cache.disk)
      ensures !ok ==> SameHomes(l, Recovered(l, cache.disk), old(cache.disk))
    {
      hide DoublyLinked, Circle, Keyed, LinkOk, CacheInv, DirtySet, AsSet, SomeEligible, Cached, Overlaid, Recovered,
           Header, Unlocked, Word;
      ghost var d0, tr0, v0, buf0 := cache.disk, cache.trace, cache.view, cache.buf;
      CacheSizes(buf0, d0, v0);
      ShapeFits(l, v0, block);
      if block == [] {
        NothingIn();
        return true, 0;
      }
      ghost var t := TxnOf(v0, block);
      ghost var ws := CommitWrites(l, d0, t);
      ghost var n := |block|;
      ok, done := WriteLog(d0, tr0, t, ws);
      if ok {
        QuietUnlocks(l, block, cache.buf, l.start);
        assert ws[n] == CommitWrite(l, d0, t, n);
        MadeOneMore(d0, tr0, ws, n, cache.disk, cache.trace);
        ghost var buf1 := cache.buf;
        RoomIsReadable(l, n, buf0, buf1);
        ok := WriteHead();
        if ok {
          QuietKept(l, block, buf1, cache.buf, l.start);
          RoomKept(l, n, buf1, cache.buf, l.start);
          ok := FinishCommit(d0, tr0, t, ws);
          done := |ws|;
          OverlayIsView(buf0, d0, v0, t);
        }
      } else {
        NoRoom(l, n, buf0);
      }
      CrashInCommit(l, d0, t, ws, done);
    }

    // ---- A commit while readers come and go ----

    /** Between two disk writes of a commit: nobody holds a logged block or one of the log, and nobody has changed a
        buffer without logging it. */
    ghost predicate Undisturbed()
      reads this, cache
    {
      cache.Valid() && Settled(cache.buf, cache.disk, cache.view) && Quiet(l, block, cache.buf)
    }

    /** One action of some reader, if it is possible. */
    method ReaderStep(a: ReaderAct)
      requires Undisturbed()
      modifies cache`buf, cache`next, cache`prev, cache`stamp, cache`clock
      ensures Undisturbed() && DirtySet(cache.buf) == DirtySet(old(cache.buf))
    {
      hide DoublyLinked, Circle, Keyed, LinkOk, DirtySet;
      ghost var was := cache.buf;
      CacheSizes(was, cache.disk, cache.view);
      match a {
        case Take(b) =>
          var r := cache.Get(ROOTDEV, b);
          if r.Some? {
            TakeKeeps(was, cache.buf, r.value, cache.disk, cache.view);
          }
        case Hold(i) =>
          if i < NBUF && cache.buf[i].refcnt > 0 && !InLog(l, cache.buf[i].blockno) && !Logged(cache.buf[i].blockno) {
            var got := cache.Lock(i);
            SameDirty(was, cache.buf, i);
          }
        case Load(i) =>
          if i < NBUF && cache.buf[i].locked && cache.buf[i].dev == ROOTDEV {
            var ok := cache.Fill(i);
            SameDirty(was, cache.buf, i);
          }
        case Unlock(i) =>
          if i < NBUF && cache.buf[i].locked && cache.buf[i].valid {
            HolderClean(was, cache.disk, cache.view, i);
            cache.Unlock(i);
            SameDirty(was, cache.buf, i);
          }
        case Drop(i) =>
          if i < NBUF && cache.buf[i].refcnt > if cache.buf[i].locked then 1 else 0 {
            cache.Unref(i);
            SameDirty(was, cache.buf, i);
          }
      }
    }

    predicate Logged(b: nat)
      reads this
    {
      exists i :: 0 <= i < |block| && block[i] == b
    }

    method Readers(acts: seq<ReaderAct>)
      requires Undisturbed()
      modifies cache`buf, cache`next, cache`prev, cache`stamp, cache`clock
      ensures Undisturbed() && DirtySet(cache.buf) == DirtySet(old(cache.buf))
    {
      for k := 0 to |acts|
        invariant Undisturbed() && DirtySet(cache.buf) == DirtySet(old(cache.buf))
      {
        ReaderStep(acts[k]);
      }
    }

    /** write_log(), with readers before every block. */
    method WriteLogAmid(others: nat -> seq<ReaderAct>, ghost d0: Disk, ghost tr0: History, ghost t: Txn,
                        ghost ws: seq<Write>)
      returns (ok: bool, ghost done: nat)
      requires Pinned() && block != [] && t.blocks == block && HoldsAt(cache.view, t)
      requires CommitList(l, d0, t, ws) && Progress(d0, tr0, ws, 0)
      modifies cache
      ensures ok ==> Pinned() && HoldsAt(cache.view, t) && CopiedTo(l, cache.view, t, |block|)
      ensures ok ==> cache.view[l.start] == old(cache.view)[l.start]
      ensures Progress(d0, tr0, ws, done) && (if ok then done == |block| else done < |block|)
    {
      hide SomeEligible, Cached, DoublyLinked, Circle, Keyed, LinkOk, CacheInv, DirtySet, Quiet, Settled, AsSet;
      CacheSizes(cache.buf, cache.disk, cache.view);
      for tail := 0 to |block|
        invariant Pinned() && HoldsAt(cache.view, t) && CopiedTo(l, cache.view, t, tail)
        invariant Progress(d0, tr0, ws, tail) && cache.view[l.start] == old(cache.view)[l.start]
      {
        assert ws[tail] == CommitWrite(l, d0, t, tail);
        Readers(others(tail));
        ok := CopyToLog(tail, d0, tr0, t, ws);
        done := tail;
        if !ok {
          return;
        }
      }
      return true, |block|;
    }

    /** Exactly the homes that are still to be written are dirty. */
    ghost predicate Partly(tail: nat)
      reads this, cache
    {
      && Undisturbed() && LogShape(l, |cache.view|, block) && Distinct(block) && tail <= |block|
      && DirtySet(cache.buf) == AsSet(block[tail..])
    }

    method InstallStep(tail: nat, ghost d0: Disk, ghost tr0: History, ghost ws: seq<Write>, ghost m: nat)
      returns (ok: bool)
      requires tail < |block| && Partly(tail) && Sources(l, cache.view, block, ws, m) && Progress(d0, tr0, ws, m + tail)
      modifies cache
      ensures ok ==> Partly(tail + 1) && Sources(l, cache.view, block, ws, m) && Progress(d0, tr0, ws, m + tail + 1)
      ensures ok ==> cache.view[l.start] == old(cache.view)[l.start]
      ensures !ok ==> Progress(d0, tr0, ws, m + tail)
    {
      hide DoublyLinked, Circle, Keyed, LinkOk;
      InSet(block, tail);
      QuietUnlocks(l, block, cache.buf, block[tail]);
      QuietUnlocks(l, block, cache.buf, l.start + 1 + tail);
      InstallKeepsLog(l, cache.view, block, ws, m, tail);
      assert Sourced(l, cache.view, block, ws, m, tail);
      MadeOneMore(d0, tr0, ws, m + tail, cache.disk, cache.trace);
      hide SomeEligible, Cached, DirtySet, AsSet, Idle, TwoEligible, Unlocked, CacheInv;
      ok := Copy(cache, l.start + 1 + tail, block[tail]);
      if ok {
        QuietKept(l, block, old(cache.buf), cache.buf, block[tail]);
        RestOf(block, tail);
      }
    }

    /** install_trans() of a commit, with readers before every block. */
    method InstallAmid(others: nat -> seq<ReaderAct>, ghost d0: Disk, ghost tr0: History, ghost ws: seq<Write>,
                       ghost m: nat)
      returns (ok: bool, ghost done: nat)
      requires Partly(0) && Sources(l, cache.view, block, ws, m) && Progress(d0, tr0, ws, m)
      modifies cache
      ensures ok ==> Partly(|block|) && cache.view[l.start] == old(cache.view)[l.start]
      ensures Progress(d0, tr0, ws, m + done) && (if ok then done == |block| else done < |block|)
    {
      hide DoublyLinked, Circle, Keyed, LinkOk, CacheInv, DirtySet, Quiet, Settled, AsSet, Sources;
      for tail := 0 to |block|
        invariant Partly(tail) && Sources(l, cache.view, block, ws, m) && Progress(d0, tr0, ws, m + tail)
        invariant cache.view[l.start] == old(cache.view)[l.start]
      {
        Readers(others(|block| + 1 + tail));
        ok := InstallStep(tail, d0, tr0, ws, m);
        done := tail;
        if !ok {
          return;
        }
      }
      return true, |block|;
    }

    /** write_head(), after readers. */
    method WriteHeadAmid(acts: seq<ReaderAct>, ghost d0: Disk, ghost tr0: History, ghost ws: seq<Write>, ghost k: nat)
      returns (ok: bool)
      requires Undisturbed() && LogShape(l, |cache.view|, block) && DirtySet(cache.buf) <= AsSet(block)
      requires Progress(d0, tr0, ws, k) && k < |ws|
                 && ws[k] == Write(l.start, Header(cache.view[l.start], block, |block|))
      modifies cache
      ensures ok ==> Undisturbed() && DirtySet(cache.buf) == DirtySet(old(cache.buf)) && Progress(d0, tr0, ws, k + 1)
      ensures ok ==> cache.view == old(cache.view)[l.start := ws[k].data]
      ensures !ok ==> Progress(d0, tr0, ws, k)
    {
      hide DoublyLinked, Circle, Keyed, LinkOk, CacheInv, DirtySet, AsSet, SomeEligible, Cached, Unlocked, Header;
      CacheSizes(cache.buf, cache.disk, cache.view);
      Readers(acts);
      ShapeFits(l, cache.view, block);
      QuietUnlocks(l, block, cache.buf, l.start);
      MadeOneMore(d0, tr0, ws, k, cache.disk, cache.trace);
      ghost var was := cache.buf;
      ok := WriteHead();
      if ok {
        QuietKept(l, block, was, cache.buf, l.start);
      }
    }

    /** commit() while readers take, read and let go of buffers of other blocks before every one of its disk writes. It
        still makes exactly the writes of `CommitWrites`, up to where it finds no buffer; there recovery gives the disk
        from before if the header had not been written, and what readers saw if it had. */
    method CommitAmid(others: nat -> seq<ReaderAct>) returns (ok: bool, ghost done: nat)
      requires Pinned() && Clean(l, cache.disk) && block != []
      modifies this`block, cache
      ensures (forall i | 0 <= i < |old(block)| :: old(block)[i] < |old(cache.view)|)
              && var t := TxnOf(old(cache.view), old(block));
                 && Legal(l, old(cache.disk), t)
                 && var ws := CommitWrites(l, old(cache.disk), t);
                    && done <= |ws| && (ok <==> done == |ws|)
                    && cache.disk == After(old(cache.disk), ws, done)
                    && cache.trace == Grown(old(cache.trace), ws, done)
      ensures WellFormed(l, cache.disk)
      ensures SameHomes(l, Recovered(l, cache.disk), if done <= |old(block)| then old(cache.disk) else old(cache.view))
      ensures ok ==> block == [] && Pinned() && Clean(l, cache.disk) && SameHomes(l, cache.disk, old(cache.view))
    {
      hide DoublyLinked, Circle, Keyed, LinkOk, CacheInv, DirtySet, AsSet, SomeEligible, Cached, Overlaid, Recovered,
           Header, Unlocked, Word;
      ghost var d0, tr0, v0, buf0 := cache.disk, cache.trace, cache.view, cache.buf;
      CacheSizes(buf0, d0, v0);
      ShapeFits(l, v0, block);
      ghost var t := TxnOf(v0, block);
      ghost var ws := CommitWrites(l, d0, t);
      var n := |block|;
      OverlayIsView(buf0, d0, v0, t);
      HeaderSettled(buf0, d0, v0, l, block);
      ok, done := WriteLogAmid(others, d0, tr0, t, ws);
      if ok {
        assert ws[n] == CommitWrite(l, d0, t, n);
        ok := WriteHeadAmid(others(n), d0, tr0, ws, n);
        if ok {
          done := n + 1;
          ok, done := FinishAmid(others, d0, tr0, t, ws);
        }
      }
      CrashInCommit(l, d0, t, ws, done);
    }

    /** The header is on disk; bring the blocks home and empty the log. */
    method FinishAmid(others: nat -> seq<ReaderAct>, ghost d0: Disk, ghost tr0: History, ghost t: Txn,
                      ghost ws: seq<Write>)
      returns (ok: bool, ghost done: nat)
      requires Undisturbed() && LogShape(l, |cache.view|, block) && Distinct(block)
                 && DirtySet(cache.buf) == AsSet(block)
      requires block != [] && t.blocks == block && CopiedTo(l, cache.view, t, |block|) && CommitList(l, d0, t, ws)
      requires Progress(d0, tr0, ws, |block| + 1) && cache.view[l.start] == Header(d0[l.start], block, |block|)
      modifies this`block, cache
      ensures |old(block)| < done <= |ws| && Progress(d0, tr0, ws, done) && (ok <==> done == |ws|)
      ensures ok ==> block == [] && Pinned()
    {
      hide DoublyLinked, Circle, Keyed, LinkOk, CacheInv, DirtySet, SomeEligible, Cached, Header;
      CommitSources(l, cache.view, d0, t, ws);
      assert block[0..] == block;
      var n := |block|;
      ok, done := InstallAmid(others, d0, tr0, ws, n + 1);
      done := n + 1 + done;
      if ok {
        assert block[n..] == [];
        NothingIn();
        assert ws[|ws| - 1] == CommitWrite(l, d0, t, |ws| - 1);
        QuietLess(l, block, cache.buf);
        block := [];
        EmptyHeader(cache.view[l.start]);
        ok := WriteHeadAmid(others(2 * n + 1), d0, tr0, ws, |ws| - 1);
        if ok {
          done := |ws|;
        }
      }
    }

    /** The rest of end_op(), for the process that commits: with the log's blocks its own, the commit panics exactly
        as admission control has it. */
    method FinishOp() returns (ok: bool)
      requires Pinned() && Clean(l, cache.disk) && committing && LogUnshared(l, cache.buf)
      modifies this`block, this`committing, this`asleep, cache
      ensures var a := Admission.Commit(|HeldSet(old(cache.buf))|);
              && (ok <==> !Admission.Panics(old(Gate()), a))
              && (ok ==> Gate() == Admission.Step(old(Gate()), a))
      ensures ok <==> old(block) == [] || |old(block)| + |HeldSet(old(cache.buf))| < 30
      ensures ok ==> block == [] && !committing && outstanding == old(outstanding) && asleep == {}
      ensures ok ==> Pinned() && Clean(l, cache.disk) && SameHomes(l, cache.disk, old(cache.view))
    {
      hide DoublyLinked, Circle, Keyed, LinkOk, DirtySet, AsSet, SomeEligible, Cached;
      RoomExact(l, block, cache.buf, cache.disk, cache.view);
      ghost var done;
      ok, done := Commit();
      if ok {
        committing, asleep := false, {};
      }
    }

    /** read_head(): the logged block numbers, from the header on disk. A count the in-memory array has no room
        for is an index panic. */
    method ReadHead() returns (ok: bool)
      requires cache.Valid() && Idle(cache.buf) && DirtySet(cache.buf) == {} && l.start < |cache.disk|
      modifies this`block, cache
      ensures cache.disk == old(cache.disk) && cache.trace == old(cache.trace) && cache.view == old(cache.view)
      ensures ok <==> Count(cache.disk[l.start]) <= LOGSIZE
      ensures ok ==> cache.Valid() && Idle(cache.buf) && DirtySet(cache.buf) == {}
      ensures ok ==> |block| == Count(cache.disk[l.start])
                     && forall i | 0 <= i < |block| :: block[i] == Entry(cache.disk[l.start], i)
      ensures ok ==> |block| == Word(cache.disk[l.start], 0) <= 30
                     && forall i | 0 <= i < |block| :: block[i] == Word(cache.disk[l.start], 1 + i)
    {
      hide DoublyLinked, Circle, Keyed, LinkOk;
      ghost var buf0 := cache.buf;
      IdleReadable(buf0, cache.disk, cache.view, l.start);
      var b;
      ok, b := ReadBlock(cache, l.start);
      var h := cache.buf[b].data;
      if Word(h, 0) > LOGSIZE {
        return false;
      }
      var blocks: seq<U32> := [];
      for i := 0 to Word(h, 0)
        invariant |blocks| == i && forall j | 0 <= j < i :: blocks[j] == Word(h, 1 + j)
      {
        blocks := blocks + [Word(h, 1 + i)];
      }
      block := blocks;
      ghost var buf1 := cache.buf;
      assert !IsDirty(buf1[b]) by { assert buf1[b].blockno !in DirtySet(buf1); }
      cache.Release(b);
      DirtyAfterWrite(buf1, cache.buf, b);
    }

    /** recover_from_log(), as initlog() runs it at boot: exactly the writes of `RecoverWrites`, after which every
        committed block is home and the log is empty. */
    method RecoverFromLog() returns (ok: bool)
      requires cache.Valid() && Idle(cache.buf) && DirtySet(cache.buf) == {} && WellFormed(l, cache.disk)
      modifies this`block, cache
      ensures ok && block == [] && Pinned()
      ensures var ws := RecoverWrites(l, old(cache.disk));
              && cache.disk == After(old(cache.disk), ws, |ws|)
              && cache.trace == Grown(old(cache.trace), ws, |ws|)
      ensures Clean(l, cache.disk) && SameHomes(l, cache.disk, Recovered(l, old(cache.disk)))
    {
      hide DoublyLinked, Circle, Keyed, LinkOk;
      ghost var d0, tr0 := cache.disk, cache.trace;
      ghost var ws := RecoverWrites(l, d0);
      ok := ReadHead();
      IdleReadable(cache.buf, cache.disk, cache.view, l.start);
      RecoverSources(l, cache.view, d0, block, ws);
      ok := InstallTrans(d0, tr0, ws, 0);
      assert ws[|block|] == RecoverWrite(l, d0, |block|);
      ok := ClearLog(d0, tr0, ws);
      CrashInRecovery(l, d0, ws, |ws|);
    }
  }

  // ---- The largest transaction that admission control lets in ----

  /** k blocks from `base` on have been logged, nobody holds a buffer, and the three operations have the rest of their
      budgets. */
  ghost predicate Filling(log: TxnLog, base: nat, k: nat)
    reads log, log.cache
  {
    && log.Tracked() && Idle(log.cache.buf) && log.outstanding == 3 && !log.committing && |log.block| == k
    && (forall i | 0 <= i < k :: log.block[i] == base + i)
    && forall p: nat | p < 3 :: p in log.budget && log.budget[p] == Left(p, k)
  }

  /** What operation p has left when the first one has used up its budget, then the second, and so on. */
  function Left(p: nat, k: nat): nat {
    if k >= (p + 1) * MAXOPBLOCKS then 0 else if k <= p * MAXOPBLOCKS then MAXOPBLOCKS else (p + 1) * MAXOPBLOCKS - k
  }

  lemma NextOp(k: nat) returns (p: nat)
    requires k < LOGSIZE
    ensures p < 3 && Left(p, k) > 0
    ensures forall q: nat | q < 3 :: Left(q, k + 1) == if q == p then Left(q, k) - 1 else Left(q, k)
  {
    p := if k < MAXOPBLOCKS then 0 else if k < 2 * MAXOPBLOCKS then 1 else 2;
  }

  /** One read, log_write and release. */
  method FillOne(log: TxnLog, base: nat, k: nat)
    requires Filling(log, base, k) && k < LOGSIZE < log.l.size && base + LOGSIZE <= |log.cache.disk|
    requires log.l.start + log.l.size <= base
    modifies log`block, log`budget, log.cache
    ensures Filling(log, base, k + 1) && log.cache.disk == old(log.cache.disk)
  {
    hide DoublyLinked, Circle, Keyed, LinkOk;
    var cache := log.cache;
    ghost var buf0 := cache.buf;
    DistinctCard(log.block);
    EligibleLeft(buf0, cache.disk, cache.view);
    IdleSettled(buf0, cache.disk, cache.view);
    hide DirtySet, AsSet, Cached, HeldSet, Distinct, CacheInv, Admission.Step, Admission.Panics;
    CacheSizes(cache.buf, cache.disk, cache.view);
    var ok, b := ReadBlock(cache, base + k);
    ghost var p := NextOp(k);
    hide Left;
    ok := log.LogWrite(b, p);
    ghost var buf1 := cache.buf;
    cache.Release(b);
    assert cache.buf == buf0[b := cache.buf[b]];
    SameDirty(buf1, cache.buf, b);
  }

  lemma SameDirty(before: seq<Buf>, after: seq<Buf>, i: nat)
    requires |before| == |after| && i < |before| && after == before[i := after[i]]
    requires Matches(after[i], before[i].dev, before[i].blockno) && after[i].dirty == before[i].dirty
    ensures DirtySet(after) == DirtySet(before)
  {
    assert forall k | 0 <= k < |before| ::
        IsDirty(after[k]) == IsDirty(before[k]) && after[k].blockno == before[k].blockno;
  }

  method BeginThree(log: TxnLog)
    requires log.Tracked() && Idle(log.cache.buf) && log.Gate() == Admission.Initial(log.l.size, NBUF)
    modifies log`outstanding, log`budget, log`asleep
    ensures forall base: nat :: Filling(log, base, 0)
  {
    hide CacheInv, DoublyLinked, DirtySet;
    for p := 0 to 3
      invariant log.Tracked() && log.outstanding == p && !log.committing && log.block == []
      invariant forall q: nat :: q in log.budget <==> q < p
      invariant forall q: nat | q < p :: log.budget[q] == MAXOPBLOCKS
    {
      var admitted := log.BeginOp(p);
    }
  }

  method EndThree(log: TxnLog, ghost base: nat)
    requires Filling(log, base, LOGSIZE)
    modifies log`outstanding, log`committing, log`budget, log`asleep
    ensures log.Tracked() && log.committing
  {
    hide CacheInv, DoublyLinked, DirtySet, Left;
    for p := 0 to 3
      invariant log.Tracked() && log.outstanding == 3 - p && (log.committing <==> p == 3)
      invariant forall q: nat | p <= q < 3 :: q in log.budget
    {
      var ok, doCommit := log.EndOp(p);
    }
  }

  /** On every disk with a log large enough, three operations of ten log_writes each are admitted together and leave a
      commit with as many logged blocks as there are buffers, which will panic. */
  method FillLog(disk: Disk, l: Layout) returns (log: TxnLog)
    requires Clean(l, disk) && LOGSIZE < l.size && l.start + l.size + LOGSIZE <= |disk| <= TWO32
    ensures fresh(log) && fresh(log.cache) && log.l == l
    ensures log.Pinned() && Clean(l, log.cache.disk) && log.committing && LogUnshared(l, log.cache.buf)
    ensures |log.block| == NBUF && !Room(l, |log.block|, log.cache.buf)
  {
    hide DoublyLinked, Circle, Keyed, LinkOk;
    var cache := new Bcache(disk);
    log := new TxnLog(cache, l);
    assert DirtySet(cache.buf) == {};
    NothingIn();
    CacheSizes(cache.buf, cache.disk, cache.view);
    hide DirtySet, AsSet, CacheInv, Distinct;
    BeginThree(log);
    for k := 0 to LOGSIZE
      invariant fresh(log) && fresh(cache) && log.cache == cache && log.l == l
      invariant Filling(log, l.start + l.size, k) && cache.disk == disk
    {
      FillOne(log, l.start + l.size, k);
    }
    EndThree(log, l.start + l.size);
    IdleSettled(cache.buf, cache.disk, cache.view);
    RoomExact(l, log.block, cache.buf, cache.disk, cache.view);
  }

  /** With nothing in use, nothing is locked and only dirty blocks differ from the disk. */
  lemma IdleSettled(buf: seq<Buf>, disk: Disk, view: Disk)
    requires CacheInv(buf, disk, view) && Idle(buf)
    ensures Settled(buf, disk, view) && forall i | 0 <= i < |buf| :: !buf[i].locked
  {
    forall i | 0 <= i < |buf| ensures !buf[i].locked { assert BufOk(buf[i], view); }
    forall b | 0 <= b < |disk| && b !in DirtySet(buf) ensures view[b] == disk[b] {
      assert forall i | 0 <= i < |buf| :: !Pins(buf[i], b);
    }
  }

  // ---- Readers ----

  /** What a reader does to the cache: take a reference to a block's buffer, lock it, fill it, unlock it, drop the
      reference. */
  datatype ReaderAct = Take(b: nat) | Hold(i: nat) | Load(i: nat) | Unlock(i: nat) | Drop(i: nat)

  lemma TakeKeeps(before: seq<Buf>, after: seq<Buf>, i: nat, disk: Disk, view: Disk)
    requires CacheInv(before, disk, view) && |after| == |before| && i < |before| && after == before[i := after[i]]
    requires after[i] == before[i].(refcnt := after[i].refcnt)
               || (Eligible(before[i]) && !after[i].dirty && !after[i].locked)
    ensures DirtySet(after) == DirtySet(before)
    ensures forall j | 0 <= j < |after| && after[j].locked :: before[j].locked && after[j].blockno == before[j].blockno
  {
    if after[i] == before[i].(refcnt := after[i].refcnt) {
      SameDirty(before, after, i);
    } else {
      DirtyAfterWrite(before, after, i);
    }
  }

  /** Whoever holds a buffer has not changed it, or has logged it. */
  lemma HolderClean(buf: seq<Buf>, disk: Disk, view: Disk, i: nat)
    requires CacheInv(buf, disk, view) && Settled(buf, disk, view) && i < NBUF && buf[i].valid
    ensures buf[i].blockno < |disk| && (buf[i].dirty || buf[i].data == disk[buf[i].blockno])
  {
    assert BufOk(buf[i], view);
    if buf[i].blockno in DirtySet(buf) {
      var k :| 0 <= k < |buf| && IsDirty(buf[k]) && buf[k].blockno == buf[i].blockno;
      if k != i {
        OneBuffer(buf, i, k);
      }
    }
  }

  lemma HeaderSettled(buf: seq<Buf>, disk: Disk, view: Disk, l: Layout, block: seq<U32>)
    requires Settled(buf, disk, view) && DirtySet(buf) == AsSet(block) && LogShape(l, |view|, block)
    ensures l.start < |disk| && view[l.start] == disk[l.start]
  {
    ShapeFits(l, view, block);
  }

  lemma RestOf(block: seq<U32>, tail: nat)
    requires tail < |block| && Distinct(block)
    ensures AsSet(block[tail..]) - {block[tail] as nat} == AsSet(block[tail + 1..])
  {
    var rest := block[tail..];
    assert rest == [block[tail]] + block[tail + 1..];
    assert block[tail] !in block[tail + 1..];
  }

  lemma EmptyHeader(h: Block)
    ensures Header(h, [], 0) == SetWord(h, 0, 0)
  {
  }

  lemma DirtyIsCached(buf: seq<Buf>, b: nat)
    requires b in DirtySet(buf)
    ensures Cached(buf, b)
  {
    var k :| 0 <= k < |buf| && IsDirty(buf[k]) && buf[k].blockno == b;
    assert Matches(buf[k], ROOTDEV, b);
  }

  lemma HeadRewrites(before: seq<Buf>, fetched: seq<Buf>, after: seq<Buf>, i: nat, b: nat, view: Disk)
    requires Fetched(before, fetched, i, b, view) && !fetched[i].dirty && |after| == NBUF
    requires LetGoOf(fetched[i], after[i]) && !after[i].dirty && after == fetched[i := after[i]]
    requires DirtySet(after) == DirtySet(before) && b !in DirtySet(before)
    ensures Rewritten(before, after, b)
  {
    assert forall k | 0 <= k < NBUF && k != i :: after[k] == before[k];
    if SomeEligible(before) {
      var k :| 0 <= k < |before| && Eligible(before[k]);
      assert Eligible(after[k]);
    } else {
      assert forall k | 0 <= k < NBUF :: Matches(after[k], before[k].dev, before[k].blockno);
      SameCached(before, after);
      assert forall k | 0 <= k < NBUF :: !Eligible(after[k]);
    }
  }

  lemma QuietLess(l: Layout, block: seq<U32>, buf: seq<Buf>)
    requires Quiet(l, block, buf)
    ensures Quiet(l, [], buf)
  {
  }

  /** With nothing dirty and nothing in use, any block can be read, and the disk is as the cache shows it. */
  lemma IdleReadable(buf: seq<Buf>, disk: Disk, view: Disk, b: nat)
    requires CacheInv(buf, disk, view) && Idle(buf) && DirtySet(buf) == {}
    ensures Readable(buf, b) && Unlocked(buf, b) && view == disk && Settled(buf, disk, view)
    ensures forall i | 0 <= i < |buf| :: !buf[i].locked
  {
    forall i | 0 <= i < NBUF ensures Eligible(buf[i]) && !buf[i].locked {
      assert BufOk(buf[i], view);
      assert buf[i].blockno !in DirtySet(buf);
    }
    assert Eligible(buf[0]);
  }

  lemma HeaderReadable(l: Layout, buf: seq<Buf>, disk: Disk, view: Disk, block: seq<U32>)
    requires CacheInv(buf, disk, view) && DirtySet(buf) == {} && InstallDirty(l, block, |block|, buf)
    ensures Readable(buf, l.start)
  {
    if Idle(buf) {
      IdleReadable(buf, disk, view, l.start);
    }
  }

  /** Room for a commit is room for each of its log blocks and for the header. */
  lemma RoomIsReadable(l: Layout, n: nat, before: seq<Buf>, after: seq<Buf>)
    requires SameRoom(before, after) && forall b | l.start < b <= l.start + n :: Readable(before, b)
    ensures Room(l, n, before) <==> Readable(after, l.start)
    ensures Room(l, n, after) <==> Room(l, n, before)
  {
    hide SomeEligible, Cached;
    if Readable(after, l.start) && !SomeEligible(before) {
      forall b | l.start <= b <= l.start + n ensures Cached(before, b) {
        assert b == l.start || Readable(before, b);
      }
    }
  }

  lemma NoRoom(l: Layout, n: nat, buf: seq<Buf>)
    requires !(forall b | l.start < b <= l.start + n :: Readable(buf, b))
    ensures !Room(l, n, buf)
  {
  }

  lemma RecoverSources(l: Layout, view: Disk, d0: Disk, block: seq<U32>, ws: seq<Write>)
    requires RecoverList(l, d0, ws) && view == d0 && |block| == Count(d0[l.start])
    requires forall i | 0 <= i < |block| :: block[i] == Entry(d0[l.start], i)
    ensures LogShape(l, |view|, block) && Sources(l, view, block, ws, 0)
  {
    forall i | 0 <= i < |block| ensures Sourced(l, view, block, ws, 0, i) && Outside(l, |view|, block[i]) {
      assert ws[i] == RecoverWrite(l, d0, i);
      assert Outside(l, |d0|, Home(l, d0, i));
    }
  }

  lemma DirtyAfterPin(before: seq<Buf>, after: seq<Buf>, i: nat)
    requires |before| == |after| && i < |before| && after == before[i := before[i].(dirty := true)]
               && before[i].dev == ROOTDEV
    ensures DirtySet(after) == DirtySet(before) + {before[i].blockno}
  {
    assert IsDirty(after[i]);
    assert forall k | 0 <= k < |before| && IsDirty(before[k]) ::
        IsDirty(after[k]) && after[k].blockno == before[k].blockno;
  }

  lemma DirtyAfterWrite(before: seq<Buf>, after: seq<Buf>, i: nat)
    requires |before| == |after| && i < |before| && after == before[i := after[i]]
    requires !after[i].dirty && !IsDirty(before[i])
    ensures DirtySet(after) == DirtySet(before)
  {
    assert forall k | 0 <= k < |before| && IsDirty(before[k]) ::
        IsDirty(after[k]) && after[k].blockno == before[k].blockno;
    assert forall k | 0 <= k < |before| && IsDirty(after[k]) ::
        IsDirty(before[k]) && after[k].blockno == before[k].blockno;
  }
}
