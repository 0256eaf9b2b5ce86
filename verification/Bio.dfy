/** The buffer cache of crates/fs/src/bio.rs. Get, Lock, Fill, SetData, Pin, WriteOut, Unlock and Unref are each
    one critical section or one action of the holder of a buffer's sleep lock; each keeps Valid() from any valid
    state, so Valid() holds in every interleaving of them. Read and Release put them together for one process. */
module Bio {
  import opened Common
  import opened Blocks
  import opened Crash
  import opened Lru

  const ROOTDEV := 1

  datatype Buf = Buf(
    dev: nat, blockno: nat,
    valid: bool, dirty: bool,   // B_VALID, B_DIRTY
    locked: bool,               // the sleep lock is held
    refcnt: nat,
    data: Block)

  predicate Matches(b: Buf, dev: nat, blockno: nat) {
    b.dev == dev && b.blockno == blockno
  }

  /** What get() may recycle. */
  predicate Eligible(b: Buf) {
    b.refcnt == 0 && !b.dirty
  }

  /** This buffer may hold contents its disk block does not. */
  predicate Pins(b: Buf, blockno: nat) {
    Matches(b, ROOTDEV, blockno) && b.valid && (b.dirty || b.locked)
  }

  /** No (device, block) pair has two buffers; device 0 marks a buffer never used. */
  ghost predicate Unique(buf: seq<Buf>) {
    forall i, j | 0 <= i < j < |buf| && buf[i].dev != 0 :: !Matches(buf[j], buf[i].dev, buf[i].blockno)
  }

  ghost predicate BufOk(b: Buf, view: Disk) {
    && (b.valid ==> b.dev == ROOTDEV && b.blockno < |view| && b.data == view[b.blockno])
    && (!b.valid ==> !b.dirty)
    && (b.refcnt == 0 ==> !b.locked)
  }

  ghost predicate Pinned(buf: seq<Buf>, b: nat) {
    exists i :: 0 <= i < |buf| && Pins(buf[i], b)
  }

  /** `view` is the file system as readers see it: cached contents where there are any, the disk elsewhere.
      It departs from the disk only where a dirty or locked buffer stands in for the block. */
  ghost predicate CacheInv(buf: seq<Buf>, disk: Disk, view: Disk) {
    && |buf| == NBUF && |view| == |disk|
    && Unique(buf)
    && (forall i | 0 <= i < |buf| :: BufOk(buf[i], view))
    && (forall b | 0 <= b < |disk| :: Pinned(buf, b) || view[b] == disk[b])
  }

  lemma OneBuffer(buf: seq<Buf>, i: nat, j: nat)
    requires Unique(buf) && i < |buf| && j < |buf| && i != j && buf[i].dev != 0
    ensures !Matches(buf[j], buf[i].dev, buf[i].blockno)
  {
    assert i < j ==> !Matches(buf[j], buf[i].dev, buf[i].blockno);
    assert j < i && buf[j].dev != 0 ==> !Matches(buf[i], buf[j].dev, buf[j].blockno);
  }

  /** Every unheld, valid, clean buffer equals its disk block. */
  lemma CleanEqualsDisk(buf: seq<Buf>, disk: Disk, view: Disk, i: nat)
    requires CacheInv(buf, disk, view) && i < NBUF
    requires buf[i].valid && !buf[i].dirty && !buf[i].locked
    ensures buf[i].blockno < |disk| && buf[i].data == disk[buf[i].blockno]
  {
    assert BufOk(buf[i], view);
    forall j | 0 <= j < |buf| ensures !Pins(buf[j], buf[i].blockno) {
      if j != i {
        OneBuffer(buf, i, j);
      }
    }
  }

  // ---- Each action on one buffer keeps the cache invariant ----

  lemma KeepPinned(buf: seq<Buf>, i: nat, x: Buf, disk: Disk, view: Disk)
    requires CacheInv(buf, disk, view) && i < NBUF
    requires forall b | Pins(buf[i], b) :: Pins(x, b)
    ensures forall b | 0 <= b < |disk| :: Pinned(buf[i := x], b) || view[b] == disk[b]
  {
    forall b | 0 <= b < |disk| && Pinned(buf, b) ensures Pinned(buf[i := x], b) {
      var j :| 0 <= j < |buf| && Pins(buf[j], b);
      assert Pins(buf[i := x][j], b);
    }
  }

  /** Changes that keep the buffer's identity and whatever it pins. */
  lemma Touch(buf: seq<Buf>, i: nat, x: Buf, disk: Disk, view: Disk)
    requires CacheInv(buf, disk, view) && i < NBUF
    requires Matches(x, buf[i].dev, buf[i].blockno) && BufOk(x, view)
    requires forall b | Pins(buf[i], b) :: Pins(x, b)
    ensures CacheInv(buf[i := x], disk, view)
  {
    KeepPinned(buf, i, x, disk, view);
    var buf' := buf[i := x];
    forall j, k | 0 <= j < k < |buf| && buf'[j].dev != 0 ensures !Matches(buf'[k], buf'[j].dev, buf'[j].blockno) {
      assert !Matches(buf[k], buf[j].dev, buf[j].blockno);
    }
  }

  lemma Recycle(buf: seq<Buf>, i: nat, x: Buf, disk: Disk, view: Disk)
    requires CacheInv(buf, disk, view) && i < NBUF && Eligible(buf[i])
    requires !x.valid && !x.dirty && (x.refcnt == 0 ==> !x.locked)
    requires forall j | 0 <= j < NBUF :: !Matches(buf[j], x.dev, x.blockno)
    ensures CacheInv(buf[i := x], disk, view)
  {
    assert BufOk(buf[i], view);
    KeepPinned(buf, i, x, disk, view);
    var buf' := buf[i := x];
    forall j, k | 0 <= j < k < |buf| && buf'[j].dev != 0 ensures !Matches(buf'[k], buf'[j].dev, buf'[j].blockno) {
      assert j != i && k != i ==> !Matches(buf[k], buf[j].dev, buf[j].blockno);
      assert !Matches(buf[j], x.dev, x.blockno);
    }
  }

  /** A locked buffer's contents change, and with them the view of its block. */
  lemma Modify(buf: seq<Buf>, i: nat, data: Block, disk: Disk, view: Disk)
    requires CacheInv(buf, disk, view) && i < NBUF && buf[i].valid && buf[i].locked
    ensures buf[i].blockno < |view|
    ensures CacheInv(buf[i := buf[i].(data := data)], disk, view[buf[i].blockno := data])
  {
    assert BufOk(buf[i], view);
    var b := buf[i].blockno;
    var buf', view' := buf[i := buf[i].(data := data)], view[b := data];
    KeepPinned(buf, i, buf'[i], disk, view);
    assert Pins(buf'[i], b);
    forall j, k | 0 <= j < k < |buf| && buf'[j].dev != 0 ensures !Matches(buf'[k], buf'[j].dev, buf'[j].blockno) {
      assert !Matches(buf[k], buf[j].dev, buf[j].blockno);
    }
    forall j | 0 <= j < |buf| ensures BufOk(buf'[j], view') {
      assert BufOk(buf[j], view);
      if j != i && buf[j].valid {
        OneBuffer(buf, i, j);
      }
    }
  }

  /** A locked buffer goes to disk; it stays locked. */
  lemma WriteThrough(buf: seq<Buf>, i: nat, disk: Disk, view: Disk)
    requires CacheInv(buf, disk, view) && i < NBUF && buf[i].valid && buf[i].locked
    ensures buf[i].blockno < |disk|
    ensures CacheInv(buf[i := buf[i].(dirty := false)], disk[buf[i].blockno := buf[i].data], view)
  {
    assert BufOk(buf[i], view);
    Touch(buf, i, buf[i].(dirty := false), disk, view);
  }

  /** The lock is let go once the buffer is dirty or equal to its disk block again. */
  lemma LetGo(buf: seq<Buf>, i: nat, x: Buf, disk: Disk, view: Disk)
    requires CacheInv(buf, disk, view) && i < NBUF && buf[i].valid
    requires x == buf[i].(locked := false, refcnt := x.refcnt)
    requires buf[i].blockno < |disk| && (buf[i].dirty || buf[i].data == disk[buf[i].blockno])
    ensures CacheInv(buf[i := x], disk, view)
  {
    assert BufOk(buf[i], view);
    var buf' := buf[i := x];
    forall b | 0 <= b < |disk| ensures Pinned(buf', b) || view[b] == disk[b] {
      if Pinned(buf, b) {
        var j :| 0 <= j < |buf| && Pins(buf[j], b);
        if j != i || buf[i].dirty {
          assert Pins(buf'[j], b);
        }
      }
    }
    forall j, k | 0 <= j < k < |buf| && buf'[j].dev != 0 ensures !Matches(buf'[k], buf'[j].dev, buf'[j].blockno) {
      assert !Matches(buf[k], buf[j].dev, buf[j].blockno);
    }
  }

  /** Only one buffer can be the block's. */
  lemma HitOrMiss(buf: seq<Buf>, b: nat, blockno: nat)
    requires Unique(buf) && b < |buf|
    ensures Matches(buf[b], ROOTDEV, blockno) ==> forall i | 0 <= i < |buf| && i != b ::
              !Matches(buf[i], ROOTDEV, blockno)
  {
    if Matches(buf[b], ROOTDEV, blockno) {
      forall i | 0 <= i < |buf| && i != b ensures !Matches(buf[i], ROOTDEV, blockno) { OneBuffer(buf, b, i); }
    }
  }

  /** What comes of one call of read(): the buffer, or a reference to one that another process has locked. */
  datatype Fetch = Ready(b: nat) | Waits(b: nat) | Panic

  ghost const ALL: set<nat> := set i: nat | i < NBUF

  class Bcache {
    var next: seq<nat>
    var prev: seq<nat>
    var buf: seq<Buf>
    var disk: Disk
    ghost var stamp: map<nat, int>   // when each buffer was last released
    ghost var clock: int
    ghost var view: Disk
    ghost var trace: History         // every write that reached the disk

    ghost predicate Listed()
      reads this
    {
      DoublyLinked(ALL, next, prev, stamp) && forall i | i in ALL :: stamp[i] <= clock
    }

    ghost predicate Valid()
      reads this
    {
      Listed() && CacheInv(buf, disk, view)
    }

    /** init(): zeroed buffers, linked in one after the other. */
    constructor (disk: Disk)
      ensures Valid() && this.disk == disk && view == disk && trace == Nothing
      ensures forall i | 0 <= i < NBUF :: buf[i] == Buf(0, 0, false, false, false, 0, ZEROS)
    {
      this.disk, view, trace := disk, disk, Nothing;
      buf := seq(NBUF, _ => Buf(0, 0, false, false, false, 0, ZEROS));
      next, prev := seq(NBUF + 1, _ => HEAD), seq(NBUF + 1, _ => HEAD);
      stamp, clock := map[], 0;
      new;
      ghost var nodes: set<nat> := {};
      assert LinkOk(nodes, next, stamp, HEAD) && LinkOk(nodes, prev, Neg(stamp), HEAD);
      for i := 0 to NBUF
        modifies this`next, this`prev, this`stamp, this`clock
        invariant forall j: nat :: j in nodes <==> j < i
        invariant DoublyLinked(nodes, next, prev, stamp)
        invariant clock == i && forall j | j in nodes :: stamp[j] < clock
      {
        LinkFront(nodes, i);
        nodes := nodes + {i};
      }
      assert nodes == ALL;
    }

    /** Link b in behind the list head: it is now the most recently used. */
    method LinkFront(ghost nodes: set<nat>, b: nat)
      requires DoublyLinked(nodes, next, prev, stamp) && b < NBUF && b !in nodes
      requires forall y | y in nodes :: stamp[y] < clock
      modifies this`next, this`prev, this`stamp, this`clock
      ensures DoublyLinked(nodes + {b}, next, prev, stamp)
      ensures stamp == old(stamp)[b := old(clock)] && clock == old(clock) + 1
    {
      PushFront(nodes, next, prev, stamp, b, clock);
      next := next[b := next[HEAD]];
      prev := prev[b := HEAD];
      prev := prev[next[HEAD] := b];
      next := next[HEAD := b];
      stamp := stamp[b := clock];
      clock := clock + 1;
    }

    /** The first loop of get(): forward from the most recently used. HEAD when the block is not cached. */
    method Find(dev: nat, blockno: nat) returns (b: nat)
      requires Valid()
      ensures b <= HEAD
      ensures b < HEAD ==> Matches(buf[b], dev, blockno)
      ensures b == HEAD ==> forall i | 0 <= i < NBUF :: !Matches(buf[i], dev, blockno)
    {
      b := next[HEAD];
      WalkStart(ALL, next, stamp);
      while b != HEAD && !Matches(buf[b], dev, blockno)
        invariant b == HEAD || b in ALL
        invariant forall i | 0 <= i < NBUF && i !in Remaining(ALL, stamp, b) :: !Matches(buf[i], dev, blockno)
        decreases Remaining(ALL, stamp, b)
      {
        assert b in Remaining(ALL, stamp, b);
        WalkStep(ALL, next, stamp, b);
        b := next[b];
      }
    }

    /** The second loop: backward from the least recently used. HEAD when nothing may be recycled. */
    method FindVictim() returns (b: nat)
      requires Valid()
      ensures b <= HEAD
      ensures b < HEAD ==> Eligible(buf[b]) && forall i | 0 <= i < NBUF && Eligible(buf[i]) :: stamp[b] <= stamp[i]
      ensures b == HEAD ==> forall i | 0 <= i < NBUF :: !Eligible(buf[i])
    {
      b := prev[HEAD];
      ghost var key := Neg(stamp);
      WalkStart(ALL, prev, key);
      while b != HEAD && !(buf[b].refcnt == 0 && !buf[b].dirty)
        invariant b == HEAD || b in ALL
        invariant forall i | 0 <= i < NBUF && i !in Remaining(ALL, key, b) :: !Eligible(buf[i])
        decreases Remaining(ALL, key, b)
      {
        assert b in Remaining(ALL, key, b);
        WalkStep(ALL, prev, key, b);
        b := prev[b];
      }
    }

    /** get(), up to the release of the cache lock: a hit, or else the eligible buffer released longest ago. */
    method Get(dev: nat, blockno: nat) returns (r: Option<nat>)
      requires Valid()
      modifies this`buf
      ensures Valid()
      ensures r.Some? ==> r.value < NBUF && Matches(buf[r.value], dev, blockno)
      ensures (exists i | 0 <= i < NBUF :: Matches(old(buf)[i], dev, blockno)) ==>
                && r.Some? && Matches(old(buf)[r.value], dev, blockno)
                && buf == old(buf)[r.value := old(buf)[r.value].(refcnt := old(buf)[r.value].refcnt + 1)]
      ensures (forall i | 0 <= i < NBUF :: !Matches(old(buf)[i], dev, blockno)) && r.Some? ==>
                && Eligible(old(buf)[r.value])
                && (forall i | 0 <= i < NBUF && Eligible(old(buf)[i]) :: stamp[r.value] <= stamp[i])
                && buf == old(buf)[r.value := Buf(dev, blockno, false, false, false, 1, old(buf)[r.value].data)]
      ensures r.None? ==> buf == old(buf) && forall i | 0 <= i < NBUF :: !Eligible(buf[i])
    {
      var b := Find(dev, blockno);
      if b != HEAD {
        var x := buf[b].(refcnt := buf[b].refcnt + 1);
        assert BufOk(buf[b], view);
        Touch(buf, b, x, disk, view);
        buf := buf[b := x];
        return Some(b);
      }
      b := FindVictim();
      if b != HEAD {
        assert BufOk(buf[b], view);
        var x := buf[b].(dev := dev, blockno := blockno, valid := false, dirty := false, refcnt := 1);
        Recycle(buf, b, x, disk, view);
        buf := buf[b := x];
        return Some(b);
      }
      return None;
    }

    /** acquiresleep() on a buffer the caller holds a reference to: the lock, or another turn of waiting for it. */
    method Lock(b: nat) returns (got: bool)
      requires Valid() && b < NBUF && buf[b].refcnt > 0
      modifies this`buf
      ensures Valid() && (got <==> !old(buf)[b].locked)
      ensures buf == if got then old(buf)[b := old(buf)[b].(locked := true)] else old(buf)
    {
      if buf[b].locked {
        return false;
      }
      assert BufOk(buf[b], view);
      Touch(buf, b, buf[b].(locked := true), disk, view);
      buf := buf[b := buf[b].(locked := true)];
      return true;
    }

    /** The rest of read(): iderw() fills a buffer that is not valid yet. False stands for its panic: the disk has
        no such block. */
    method Fill(b: nat) returns (ok: bool)
      requires Valid() && b < NBUF && buf[b].locked && buf[b].dev == ROOTDEV
      modifies this`buf
      ensures Valid() && (ok <==> old(buf)[b].valid || old(buf)[b].blockno < |disk|)
      ensures ok ==> buf[b].blockno < |view|
                     && buf == old(buf)[b := old(buf)[b].(valid := true, data := view[old(buf)[b].blockno])]
      ensures !ok ==> buf == old(buf)
    {
      assert BufOk(buf[b], view);
      if buf[b].valid {
        assert buf == buf[b := buf[b].(valid := true, data := view[buf[b].blockno])];
        return true;
      }
      var blockno := buf[b].blockno;
      if blockno >= |disk| {
        return false;
      }
      forall j | 0 <= j < NBUF ensures !Pins(buf[j], blockno) {
        if j != b {
          OneBuffer(buf, b, j);
        }
      }
      var x := buf[b].(valid := true, data := disk[blockno]);
      Touch(buf, b, x, disk, view);
      buf := buf[b := x];
      return true;
    }

    /** read(): get, lock, and fill from disk if not valid. It has to wait exactly when another process holds the
        block's buffer; it then goes on with Lock and Fill. It panics exactly when it need not wait and either no
        buffer is left for the block or the disk does not have it. */
    method Read(blockno: nat) returns (r: Fetch)
      requires Valid()
      modifies this`buf
      ensures r.Waits? <==> exists i | 0 <= i < NBUF :: Matches(old(buf)[i], ROOTDEV, blockno) && old(buf)[i].locked
      ensures r.Waits? ==> Valid() && r.b < NBUF && Matches(old(buf)[r.b], ROOTDEV, blockno) && old(buf)[r.b].locked
                           && buf == old(buf)[r.b := old(buf)[r.b].(refcnt := old(buf)[r.b].refcnt + 1)]
      ensures r.Ready? ==> Valid() && blockno < |disk| && Fetched(old(buf), buf, r.b, blockno, view)
      ensures r.Panic? <==>
                && (forall i | 0 <= i < NBUF && Matches(old(buf)[i], ROOTDEV, blockno) :: !old(buf)[i].locked)
                && (blockno >= |disk|
                    || forall i | 0 <= i < NBUF :: !Eligible(old(buf)[i]) && !Matches(old(buf)[i], ROOTDEV, blockno))
    {
      hide DoublyLinked, Circle, Keyed, LinkOk;
      ghost var was := buf;
      var g := Get(ROOTDEV, blockno);
      if g.None? {
        return Panic;
      }
      var b := g.value;
      HitOrMiss(was, b, blockno);
      var got := Lock(b);
      if !got {
        return Waits(b);
      }
      var ok := Fill(b);
      if !ok {
        return Panic;
      }
      assert buf == was[b := buf[b]];
      return Ready(b);
    }

    /** The holder of a buffer's lock writes into its data. */
    method SetData(b: nat, data: Block)
      requires Valid() && b < NBUF && buf[b].valid && buf[b].locked
      modifies this`buf, this`view
      ensures Valid() && old(buf)[b].blockno < |old(view)|
      ensures buf == old(buf)[b := old(buf)[b].(data := data)]
      ensures view == old(view)[old(buf)[b].blockno := data]
    {
      Modify(buf, b, data, disk, view);
      view := view[buf[b].blockno := data];
      buf := buf[b := buf[b].(data := data)];
    }

    /** log_write() marks a buffer dirty so that it stays in the cache. */
    method Pin(b: nat)
      requires Valid() && b < NBUF && buf[b].valid && buf[b].locked
      modifies this`buf
      ensures Valid() && buf == old(buf)[b := old(buf)[b].(dirty := true)]
    {
      assert BufOk(buf[b], view);
      Touch(buf, b, buf[b].(dirty := true), disk, view);
      buf := buf[b := buf[b].(dirty := true)];
    }

    /** write(): mark dirty and let iderw() write the block, which clears the mark. */
    method WriteOut(b: nat)
      requires Valid() && b < NBUF && buf[b].valid && buf[b].locked
      modifies this`buf, this`disk, this`trace
      ensures Valid() && old(buf)[b].blockno < |old(disk)|
      ensures buf == old(buf)[b := old(buf)[b].(dirty := false)]
      ensures disk == old(disk)[old(buf)[b].blockno := old(buf)[b].data]
      ensures trace == Then(old(trace), Write(old(buf)[b].blockno, old(buf)[b].data))
    {
      WriteThrough(buf, b, disk, view);
      disk := disk[buf[b].blockno := buf[b].data];
      trace := Then(trace, Write(buf[b].blockno, buf[b].data));
      buf := buf[b := buf[b].(dirty := false)];
    }

    /** releasesleep() in release_buf(). Whoever changed the data has either pinned the buffer or written it out. */
    method Unlock(b: nat)
      requires Valid() && b < NBUF && buf[b].valid && buf[b].locked
      requires buf[b].blockno < |disk| && (buf[b].dirty || buf[b].data == disk[buf[b].blockno])
      modifies this`buf
      ensures Valid() && buf == old(buf)[b := old(buf)[b].(locked := false)]
    {
      assert BufOk(buf[b], view);
      LetGo(buf, b, buf[b].(locked := false), disk, view);
      buf := buf[b := buf[b].(locked := false)];
    }

    /** The rest of release_buf(): drop the caller's reference, by which time another process may have the lock,
        and move an unreferenced buffer to the front of the list. */
    method Unref(b: nat)
      requires Valid() && b < NBUF && buf[b].refcnt > if buf[b].locked then 1 else 0
      modifies this`buf, this`next, this`prev, this`stamp, this`clock
      ensures Valid()
      ensures buf == old(buf)[b := old(buf)[b].(refcnt := old(buf)[b].refcnt - 1)]
      ensures buf[b].refcnt == 0 ==> forall i | 0 <= i < NBUF && i != b :: stamp[i] == old(stamp)[i] < stamp[b]
      ensures buf[b].refcnt != 0 ==> stamp == old(stamp)
    {
      assert BufOk(buf[b], view);
      var x := buf[b].(refcnt := buf[b].refcnt - 1);
      Touch(buf, b, x, disk, view);
      buf := buf[b := x];
      if x.refcnt == 0 {
        MoveToFront(b);
      }
    }

    /** release_buf(). */
    method Release(b: nat)
      requires Valid() && b < NBUF && buf[b].valid && buf[b].locked
      requires buf[b].blockno < |disk| && (buf[b].dirty || buf[b].data == disk[buf[b].blockno])
      modifies this`buf, this`next, this`prev, this`stamp, this`clock
      ensures Valid()
      ensures buf == old(buf)[b := old(buf)[b].(locked := false, refcnt := old(buf)[b].refcnt - 1)]
      ensures buf[b].refcnt == 0 ==> forall i | 0 <= i < NBUF && i != b :: stamp[i] == old(stamp)[i] < stamp[b]
      ensures buf[b].refcnt != 0 ==> stamp == old(stamp)
    {
      hide DoublyLinked, Circle, Keyed, LinkOk;
      assert BufOk(buf[b], view);
      Unlock(b);
      Unref(b);
    }

    method MoveToFront(b: nat)
      requires Listed() && b < NBUF
      modifies this`next, this`prev, this`stamp, this`clock
      ensures Listed() && forall i | 0 <= i < NBUF && i != b :: stamp[i] == old(stamp)[i] < stamp[b]
    {
      hide LinkOk;
      assert forall i: nat | i < NBUF :: i in ALL;
      Unlink(ALL, next, prev, stamp, b);
      prev := prev[next[b] := prev[b]];
      next := next[prev[b] := next[b]];
      clock := clock + 1;
      LinkFront(ALL - {b}, b);
      assert ALL - {b} + {b} == ALL;
    }
  }

  /** `after` is `before` with buffer b handed out for the block, locked, valid and holding the viewed contents. */
  ghost predicate Fetched(before: seq<Buf>, after: seq<Buf>, b: nat, blockno: nat, view: Disk) {
    && |before| == |after| == NBUF && b < NBUF && blockno < |view|
    && after == before[b := after[b]]
    && (Matches(before[b], ROOTDEV, blockno)
        || (Eligible(before[b]) && forall i | 0 <= i < NBUF :: !Matches(before[i], ROOTDEV, blockno)))
    && after[b] == (var hit := Matches(before[b], ROOTDEV, blockno);
                    Buf(ROOTDEV, blockno, true, hit && before[b].dirty, true,
                        if hit then before[b].refcnt + 1 else 1, view[blockno]))
  }
}
