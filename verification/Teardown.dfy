/** Tearing a tree down: which frames it has, and what is left when some of them are back on the free list. */
module Teardown {
  import opened Paging
  import opened Trees
  import opened Spaces

  function UpBy(prefix: nat, n: nat): nat {
    if n == 0 then prefix else UpBy(prefix, n - 1) / NENTRIES
  }

  /** k is `top` or below it. */
  predicate Under(k: Key, top: Key) {
    k.root == top.root && k.level <= top.level && UpBy(k.prefix, top.level - k.level) == top.prefix
  }

  ghost function FramesUnder(v: Space, top: Key): set<nat> {
    set f | f in v.use && Under(v.use[f], top)
  }

  /** The frames below the first i entries of the table at `top`. */
  ghost function FramesBelow(v: Space, top: Key, i: nat): set<nat>
    requires top.level >= 1
  {
    set f | f in v.use && BelowEntry(v.use[f], top, i)
  }

  predicate BelowEntry(k: Key, top: Key, i: nat)
    requires top.level >= 1
  {
    && k.root == top.root && k.level < top.level
    && top.prefix * NENTRIES <= UpBy(k.prefix, top.level - 1 - k.level) < top.prefix * NENTRIES + i
  }

  lemma BelowNext(v: Space, top: Key, i: nat)
    requires top.level >= 1
    ensures FramesBelow(v, top, i + 1) == FramesBelow(v, top, i) + FramesUnder(v, Child(top, i))
    ensures FramesBelow(v, top, i) !! FramesUnder(v, Child(top, i))
    ensures FramesBelow(v, top, 0) == {}
  {
  }

  /** A place in a tree is under `c` only if c is in the tree. */
  lemma {:induction false} UnderPlace(v: Space, k: Key, c: Key)
    requires TreeInv(v) && k in v.tab && Under(k, c) && c.level <= 4
    ensures c in v.tab
    decreases c.level - k.level
  {
    if k.level < c.level {
      assert KeyOk(v, k);
      UpByParent(k.prefix, c.level - k.level);
      UnderPlace(v, Parent(k), c);
    }
  }

  lemma {:induction false} UpByParent(p: nat, n: nat)
    requires n > 0
    ensures UpBy(p, n) == UpBy(p / NENTRIES, n - 1)
  {
    if n > 1 {
      UpByParent(p, n - 1);
    }
  }

  /** A missing entry has nothing below it. */
  lemma NothingUnder(v: Space, c: Key)
    requires TreeInv(v) && c !in v.tab && c.level <= 4
    ensures FramesUnder(v, c) == {}
  {
    forall f | f in v.use ensures !Under(v.use[f], c) {
      assert UseOk(v, f);
      if Under(v.use[f], c) {
        UnderPlace(v, v.use[f], c);
      }
    }
  }

  /** Under a page of data there is that page. */
  lemma PageAlone(v: Space, c: Key)
    requires TreeInv(v) && c in v.tab && c.level == 0
    ensures FramesUnder(v, c) == {v.tab[c]}
  {
    assert KeyOk(v, c);
    forall f | f in v.use && Under(v.use[f], c) ensures f == v.tab[c] {
      assert UseOk(v, f);
    }
  }

  /** Under a table: what its entries lead to, and itself. */
  lemma TableAll(v: Space, k: Key)
    requires TreeInv(v) && k in v.tab && 1 <= k.level <= 4
    ensures var n := if k.level == 4 then KSLOT else NENTRIES;
            FramesUnder(v, k) == FramesBelow(v, k, n) + {v.tab[k]} && v.tab[k] !in FramesBelow(v, k, n)
  {
    assert KeyOk(v, k);
    var n := if k.level == 4 then KSLOT else NENTRIES;
    forall f | f in v.use
      ensures f in FramesUnder(v, k) <==> f in FramesBelow(v, k, n) + {v.tab[k]}
    {
      assert UseOk(v, f);
      var q := v.use[f];
      assert KeyOk(v, q);
      if q.root == k.root && q.level < k.level {
        if k.level == 4 {
          TopIndex(v, q);
        }
      }
    }
    assert v.tab[k] in v.use;
  }

  /** The places of a tree are in its user half. */
  lemma {:induction false} TopIndex(v: Space, k: Key)
    requires TreeInv(v) && k in v.tab && k.level <= 3
    ensures UpBy(k.prefix, 3 - k.level) < KSLOT && UpBy(k.prefix, 4 - k.level) == 0
    decreases 4 - k.level
  {
    assert KeyOk(v, k);
    if k.level < 3 {
      TopIndex(v, Parent(k));
      UpByParent(k.prefix, 3 - k.level);
      UpByParent(k.prefix, 4 - k.level);
    }
  }

  lemma RootHasAll(v: Space, r: nat)
    requires TreeInv(v) && Live(v, r)
    ensures FramesUnder(v, Key(r, 4, 0)) == TreeFrames(v.use, r)
  {
    forall f | f in v.use && v.use[f].root == r ensures Under(v.use[f], Key(r, 4, 0)) {
      assert UseOk(v, f) && KeyOk(v, v.use[f]);
      if v.use[f].level < 4 {
        TopIndex(v, v.use[f]);
      }
    }
  }

  // ---- part of the way ----

  ghost function LessUse(use: map<nat, Key>, s: set<nat>): map<nat, Key> {
    map f | f in use && f !in s :: use[f]
  }

  ghost function OtherUse(use: map<nat, Key>, r: nat): map<nat, Key> {
    map f | f in use && use[f].root != r :: use[f]
  }

  ghost function TreeFrames(use: map<nat, Key>, r: nat): set<nat> {
    set f | f in use && use[f].root == r
  }

  /** From v, the frames s have gone back to the free list. The trees' own record is brought up to date at the end. */
  ghost predicate Freeing(v: Space, w: Space, s: set<nat>) {
    && FreeInv(w) && w.kernel == v.kernel && w.end == v.end && |w.mem| == NFRAMES == |v.mem|
    && w.tab == v.tab && w.use == LessUse(v.use, s)
    && Listed(w.free) == Listed(v.free) + s
    && forall f | 0 <= f < NFRAMES && f !in v.free && f !in s :: w.mem[f] == v.mem[f]
  }

  lemma FreeingNone(v: Space)
    requires VmInv(v)
    ensures Freeing(v, v, {})
  {
    hide FreeInv;
    assert v.use == LessUse(v.use, {});
  }

  lemma FreeingOne(v: Space, w: Space, s: set<nat>, f: nat)
    requires VmInv(v) && Freeing(v, w, s) && f in v.use && f !in s
    ensures v.end <= f < NFRAMES
    ensures Freeing(v, Returned(w, f).(use := Disused(w.use, f)), s + {f})
  {
    assert UseOk(v, f);
    var u := Returned(w, f).(use := Disused(w.use, f));
    UsedNotFree(v, f);
    assert f !in Listed(w.free);
    forall i | 0 <= i < |u.free| ensures FreeOk(u, i) {
      if i < |w.free| {
        assert FreeOk(w, i);
        assert w.free[i] in w.free;
      } else if i > 0 {
        assert FreeOk(w, i - 1);
      }
    }
    assert Listed(u.free) == Listed(w.free) + {f};
    assert u.use == LessUse(v.use, s + {f});
  }

  lemma UsedNotFree(v: Space, f: nat)
    requires VmInv(v) && f in v.use
    ensures f !in v.free
  {
    forall i | 0 <= i < |v.free| ensures v.free[i] != f {
      assert FreeOk(v, i);
    }
  }

  // ---- all the way ----

  /** Tree r is gone: its frames are free, each once, and everything else is as it was. */
  ghost predicate TornDown(v: Space, w: Space, r: nat) {
    && VmInv(v) && VmInv(w) && Pool(w) == Pool(v) && w.kernel == v.kernel && w.end == v.end
    && (forall q :: Live(w, q) <==> Live(v, q) && q != r)
    && (forall q, pg: nat {:trigger Lookup(w.mem, q, pg)} | Live(v, q) && q != r && pg < USERPAGES ::
          Lookup(w.mem, q, pg) == Lookup(v.mem, q, pg))
    && (forall f | f in TreeFrames(v.use, r) :: f in w.free)
    && (forall f {:trigger Still(v, w, f)} | Passive(v, f) && !(f in v.use && v.use[f].root == r) :: Still(v, w, f))
  }

  lemma TornDownDone(v: Space, w: Space, u: Space, r: nat)
    requires VmInv(v) && Live(v, r) && Freeing(v, w, FramesUnder(v, Key(r, 4, 0)))
    requires u == w.(tab := map k | k in v.tab && k.root != r :: v.tab[k])
    ensures TornDown(v, u, r)
  {
    hide Lookup, FreeInv;
    RootHasAll(v, r);
    assert u.use == OtherUse(v.use, r);
    forall f | f in u.use && f < NFRAMES ensures u.mem[f] == v.mem[f] {
      UsedNotFree(v, f);
    }
    assert Dropped(v, u, r);
    DroppedInv(v, u, r);
    FreeSame(w, u);
    TornDownRest(v, u, r);
    forall f | f in TreeFrames(v.use, r) ensures f in u.free {
      assert f in Listed(u.free);
    }
    assert Pool(u) == Pool(v);
    forall f | Passive(v, f) && !(f in v.use && v.use[f].root == r) ensures Still(v, u, f) {
      PassiveApart(v, f);
      assert f !in Listed(w.free);
    }
  }

  lemma FreeSame(v: Space, w: Space)
    requires FreeInv(v) && w == v.(tab := w.tab)
    ensures FreeInv(w)
  {
    forall i | 0 <= i < |w.free| ensures FreeOk(w, i) { assert FreeOk(v, i); }
  }

  lemma TornDownRest(v: Space, w: Space, r: nat)
    requires VmInv(v) && VmInv(w) && Dropped(v, w, r)
    ensures forall q, pg: nat {:trigger Lookup(w.mem, q, pg)} | Live(v, q) && q != r && pg < USERPAGES ::
              Lookup(w.mem, q, pg) == Lookup(v.mem, q, pg)
  {
    forall q, pg: nat | Live(v, q) && q != r && pg < USERPAGES ensures Lookup(w.mem, q, pg) == Lookup(v.mem, q, pg) {
      DroppedLookup(v, w, r, q, pg);
    }
  }

  /** When no tree is left, every frame of the pool is on the free list. */
  lemma AllReturned(v: Space)
    requires VmInv(v) && forall r :: !Live(v, r)
    ensures Listed(v.free) == Pool(v)
  {
    forall f | f in v.use ensures false {
      assert UseOk(v, f) && KeyOk(v, v.use[f]);
      NoOrphans(v, v.use[f]);
    }
  }
}
