/** Growing, shrinking, copying and tearing down whole address spaces. */
module Regions {
  import opened Common
  import opened Paging
  import opened Trees
  import opened Spaces
  import opened Mapping

  // ---- one fresh page ----

  /** Page pg was not mapped; now it is, with these flags, to a frame off the free list that holds `page`. */
  ghost predicate FreshPage(v: Space, w: Space, root: nat, pg: nat, flags: nat, page: Page) {
    && pg < USERPAGES && Lookup(v.mem, root, pg) == None
    && match Lookup(w.mem, root, pg)
       case None => false
       case Some(e) => FlagsOf(e) == flags && FrameOf(e) in v.free && FrameOf(e) < |w.mem| && w.mem[FrameOf(e)] == page
  }

  /** What every operation that takes frames for trees keeps. */
  ghost predicate Drawn(v: Space, w: Space) {
    VmInv(v) && VmInv(w) && Pool(w) == Pool(v) && w.free <= v.free && SameRoots(v, w)
  }

  ghost predicate Puts(v: Space, w: Space, root: nat, pg: nat, flags: nat, page: Page) {
    Drawn(v, w) && OnlyPages(v, w, root, pg, pg + 1, {}) && FreshPage(v, w, root, pg, flags, page)
  }

  /** A frame off the list, filled with `page`. */
  lemma Filled(v: Space, page: Page) returns (f: nat, b: Space)
    requires VmInv(v) && v.free != []
    ensures f == v.free[|v.free| - 1] && f < |v.mem| && b == Taken(v).(mem := v.mem[f := page])
    ensures VmInv(b) && Held(b, f) && OnlyPages(v, b, 0, 0, 0, {f}) && b.free <= v.free && SameRoots(v, b)
    ensures Pool(b) == Pool(v) - {f} && f in Pool(v) && f < |b.mem| && b.mem[f] == page
  {
    hide FreeInv, Lookup, OnlyPages;
    f := v.free[|v.free| - 1];
    var a := Taken(v);
    TakenInv(v);
    TakenOnly(v);
    b := a.(mem := a.mem[f := page]);
    WipedInv(a, f, page);
    OnlyTrans(v, a, b, 0, 0, 0, 0, {}, {f});
    assert {} + {f} == {f};
  }

  lemma PutsDone(v: Space, b: Space, w: Space, root: nat, pg: nat, flags: nat, page: Page, f: nat)
    requires VmInv(v) && Live(v, root) && pg < USERPAGES && Lookup(v.mem, root, pg) == None && f in v.free
    requires VmInv(b) && Held(b, f) && OnlyPages(v, b, 0, 0, 0, {f}) && b.free <= v.free && SameRoots(v, b)
    requires Pool(b) == Pool(v) - {f} && f in Pool(v) && f < |b.mem| && b.mem[f] == page
    requires MapsRange(b, w, root, pg, 1, f, flags)
    ensures Puts(v, w, root, pg, flags, page)
  {
    hide VmInv, Lookup, OnlyPages;
    assert MapsOne(b, w, root, pg, f, flags, 0);
    assert Frames(f, 1) == {f};
    OnlyWiden(v, b, 0, 0, 0, root, pg, pg, {f});
    OnlyTrans(v, b, w, root, pg, pg, pg + 1, {f}, {f});
    OnlyLess(v, w, root, pg, pg + 1, {f} + {f}, {});
  }

  // ---- growing ----

  const USERFLAGS := PTE_P + PTE_W + PTE_U

  /** Pages lo to hi are new, writable, zero and the only thing that changed. */
  ghost predicate Grows(v: Space, w: Space, root: nat, lo: nat, hi: nat) {
    && Drawn(v, w) && OnlyPages(v, w, root, lo, hi, {})
    && forall pg: nat {:trigger FreshPage(v, w, root, pg, USERFLAGS, ZERO)} | lo <= pg < hi ::
         FreshPage(v, w, root, pg, USERFLAGS, ZERO)
  }

  lemma GrowsNone(v: Space, root: nat, lo: nat)
    requires VmInv(v)
    ensures Grows(v, v, root, lo, lo)
  {
    OnlyRefl(v);
  }

  lemma GrowsStep(v: Space, w: Space, u: Space, root: nat, lo: nat, mid: nat)
    requires Grows(v, w, root, lo, mid) && Puts(w, u, root, mid, USERFLAGS, ZERO) && lo <= mid && Live(v, root)
    ensures Grows(v, u, root, lo, mid + 1)
  {
    hide VmInv, Lookup, OnlyPages;
    var none: set<nat> := {};
    OnlyTrans(v, w, u, root, lo, mid, mid + 1, none, none);
    assert none + none == none;
    forall pg: nat | lo <= pg < mid + 1 ensures FreshPage(v, u, root, pg, USERFLAGS, ZERO) {
      if pg < mid {
        assert FreshPage(v, w, root, pg, USERFLAGS, ZERO);
        FreshStays(v, w, u, root, pg, mid, USERFLAGS, ZERO);
      } else {
        OtherPage(v, w, root, lo, mid, root, pg);
      }
    }
  }

  lemma LeafRights(w: Space, root: nat, pg: nat, e: U64)
    requires VmInv(w) && Live(w, root) && pg < USERPAGES && Lookup(w.mem, root, pg) == Some(e)
    ensures HasRights(w.mem, root, pg, FlagsOf(e))
  {
    hide FreeInv, Lookup;
    LookupIsLeaf(w, root, pg);
    var k := Key(root, 0, pg);
    assert KeyOk(w, k) && UseOk(w, w.tab[k]);
    assert e == Entry(FrameOf(e), FlagsOf(e));
    EntryRights(w, root, pg, FrameOf(e), FlagsOf(e));
  }

  /** The user may read and write all of the new pages. */
  lemma GrowsRights(v: Space, w: Space, root: nat, lo: nat, hi: nat)
    requires Grows(v, w, root, lo, hi) && Live(v, root)
    ensures forall pg: nat, x: Right | lo <= pg < hi :: Allows(w.mem, root, 0, pg, x)
  {
    hide VmInv, Lookup, Allows;
    forall pg: nat, x: Right | lo <= pg < hi ensures Allows(w.mem, root, 0, pg, x) {
      assert FreshPage(v, w, root, pg, USERFLAGS, ZERO);
      LeafRights(w, root, pg, Lookup(w.mem, root, pg).value);
      assert Grants(USERFLAGS, x);
    }
  }

  lemma OtherPage(v: Space, w: Space, root: nat, lo: nat, hi: nat, r: nat, pg: nat)
    requires OnlyPages(v, w, root, lo, hi, {}) && Live(v, r) && pg < USERPAGES && !InRange(root, lo, hi, r, pg)
    ensures Lookup(w.mem, r, pg) == Lookup(v.mem, r, pg)
  {
  }

  /** A page just put keeps its translation and its contents while other pages are put. */
  lemma FreshStays(v: Space, w: Space, u: Space, root: nat, pg: nat, mid: nat, flags: nat, page: Page)
    requires FreshPage(v, w, root, pg, flags, page) && OnlyPages(w, u, root, mid, mid + 1, {}) && pg < mid
               && Live(w, root)
    ensures FreshPage(v, u, root, pg, flags, page)
  {
    hide FreeInv, Lookup;
    LookupIsLeaf(w, root, pg);
    var k := Key(root, 0, pg);
    assert KeyOk(w, k);
    assert Bystander(w, root, mid, mid + 1, {}, w.tab[k]);
    assert Still(w, u, w.tab[k]);
    assert Lookup(u.mem, root, pg) == Lookup(w.mem, root, pg);
  }

  lemma ShapeGrows(v: Space, w: Space, root: nat, lo: nat, hi: nat)
    requires Shape(v, root, lo * PGSIZE) && Grows(v, w, root, lo, hi) && 1 <= lo <= hi && Live(v, root)
    ensures Shape(w, root, hi * PGSIZE)
  {
    hide VmInv, Lookup;
    forall pg: nat | pg < USERPAGES ensures Lookup(w.mem, root, pg).Some? <==> 1 <= pg < hi {
      assert Lookup(v.mem, root, pg).Some? <==> 1 <= pg < lo;
      if lo <= pg < hi {
        assert FreshPage(v, w, root, pg, USERFLAGS, ZERO);
      }
    }
  }

  lemma ShapeUp(v: Space, root: nat, sz: nat)
    ensures Shape(v, root, sz) <==> Shape(v, root, Up(sz) * PGSIZE)
  {
  }

  // ---- shrinking ----

  ghost predicate GonePage(v: Space, w: Space, root: nat, pg: nat) {
    && pg < USERPAGES && Lookup(w.mem, root, pg) == None
    && match Lookup(v.mem, root, pg)
       case None => true
       case Some(e) => FrameOf(e) in w.free
  }

  /** Pages lo to hi are gone, their frames are on the free list, and nothing else changed. */
  ghost predicate Shrinks(v: Space, w: Space, root: nat, lo: nat, hi: nat) {
    && VmInv(v) && VmInv(w) && Pool(w) == Pool(v) && v.free <= w.free && SameRoots(v, w)
    && OnlyPages(v, w, root, lo, hi, {})
    && forall pg: nat {:trigger GonePage(v, w, root, pg)} | lo <= pg < hi :: GonePage(v, w, root, pg)
  }

  lemma ShrinksNone(v: Space, root: nat, lo: nat)
    requires VmInv(v)
    ensures Shrinks(v, v, root, lo, lo)
  {
    OnlyRefl(v);
  }

  /** A page that is not there. */
  lemma ShrinksAbsent(v: Space, root: nat, pg: nat)
    requires VmInv(v) && pg < USERPAGES && Lookup(v.mem, root, pg) == None
    ensures Shrinks(v, v, root, pg, pg + 1)
  {
    OnlyRefl(v);
    assert GonePage(v, v, root, pg);
  }

  lemma ShrinksPage(v: Space, root: nat, pg: nat) returns (u: Space)
    requires VmInv(v) && Live(v, root) && pg < USERPAGES && Key(root, 0, pg) in v.tab
    ensures var f, k := v.tab[Key(root, 0, pg)], Key(root, 1, pg / NENTRIES);
            && k in v.tab && v.end <= f < NFRAMES == |v.mem| && v.tab[k] < NFRAMES && f != v.tab[k]
            && u == v.(mem := v.mem[f := Junk(v.freelist)][v.tab[k] := v.mem[v.tab[k]][pg % NENTRIES := 0]],
                       free := v.free + [f], freelist := Kva(f),
                       tab := Cut(v.tab, Key(root, 0, pg)), use := Disused(v.use, f))
    ensures Shrinks(v, u, root, pg, pg + 1)
  {
    hide FreeInv, Lookup, OnlyPages;
    var k := Key(root, 0, pg);
    var f := v.tab[k];
    assert KeyOk(v, k) && UseOk(v, f) && KeyOk(v, Parent(k)) && UseOk(v, v.tab[Parent(k)]);
    var a := Unlink(v, root, pg);
    UnlinkInv(v, root, pg);
    UnlinkOnly(v, root, pg);
    u := Returned(a, f);
    ReturnedInv(a, f);
    HeldOnly(a, u, f);
    OnlyWiden(a, u, 0, 0, 0, root, pg + 1, pg + 1, {f});
    OnlyTrans(v, a, u, root, pg, pg + 1, pg + 1, {}, {f});
    ShrinkExempt(v, u, root, pg, f);
    SamePage(a, u, root, pg, f);
    LookupIsLeaf(v, root, pg);
    assert GonePage(v, u, root, pg);
    assert u.mem == v.mem[f := Junk(v.freelist)][v.tab[Parent(k)] := v.mem[v.tab[Parent(k)]][pg % NENTRIES := 0]];
  }

  lemma SamePage(v: Space, w: Space, r: nat, pg: nat, f: nat)
    requires OnlyPages(v, w, r, pg + 1, pg + 1, {f}) && Live(v, r) && pg < USERPAGES
    ensures Lookup(w.mem, r, pg) == Lookup(v.mem, r, pg)
  {
  }

  /** The frame of the page itself needs no exemption. */
  lemma ShrinkExempt(v: Space, w: Space, root: nat, pg: nat, f: nat)
    requires OnlyPages(v, w, root, pg, pg + 1, {} + {f}) && f in v.use && v.use[f] == Key(root, 0, pg)
    ensures OnlyPages(v, w, root, pg, pg + 1, {})
  {
    hide Lookup;
    forall g | Bystander(v, root, pg, pg + 1, {}, g) ensures Still(v, w, g) {
      assert f != v.kernel by { assert UseOk(v, f); }
      assert Bystander(v, root, pg, pg + 1, {} + {f}, g);
    }
  }

  lemma ShrinksStep(v: Space, w: Space, u: Space, root: nat, lo: nat, mid: nat)
    requires Shrinks(v, w, root, lo, mid) && Shrinks(w, u, root, mid, mid + 1) && lo <= mid && Live(v, root)
    ensures Shrinks(v, u, root, lo, mid + 1)
  {
    hide VmInv, Lookup, OnlyPages;
    var none: set<nat> := {};
    OnlyTrans(v, w, u, root, lo, mid, mid + 1, none, none);
    assert none + none == none;
    forall pg: nat | lo <= pg < mid + 1 ensures GonePage(v, u, root, pg) {
      if pg < mid {
        assert GonePage(v, w, root, pg);
        OtherPage(w, u, root, mid, mid + 1, root, pg);
      } else {
        assert GonePage(w, u, root, pg);
        OtherPage(v, w, root, lo, mid, root, pg);
      }
    }
  }

  lemma ShapeShrinks(v: Space, w: Space, root: nat, sz: nat, newsz: nat)
    requires Shape(v, root, sz) && Shrinks(v, w, root, Up(newsz), Up(sz)) && newsz <= sz && Live(v, root)
    ensures Shape(w, root, newsz)
  {
    hide VmInv, Lookup;
    forall pg: nat | pg < USERPAGES ensures Lookup(w.mem, root, pg).Some? <==> 1 <= pg < Up(newsz) {
      assert Lookup(v.mem, root, pg).Some? <==> 1 <= pg < Up(sz);
      if Up(newsz) <= pg < Up(sz) {
        assert GonePage(v, w, root, pg);
      }
    }
  }

  // ---- a new tree, and a copy of one ----

  /** d is a new tree that maps nothing. */
  ghost predicate NewTree(v: Space, w: Space, d: nat) {
    && VmInv(v) && VmInv(w) && Pool(w) == Pool(v) && w.free <= v.free && OnlyPages(v, w, 0, 0, 0, {}) && !Live(v, d)
    && (forall r :: Live(w, r) <==> Live(v, r) || r == d)
    && (forall pg: nat {:trigger Lookup(w.mem, d, pg)} | pg < USERPAGES :: Lookup(w.mem, d, pg) == None)
  }

  lemma Planted(v: Space, b: Space, d: nat) returns (u: Space)
    requires VmInv(v) && VmInv(b) && Held(b, d) && b.mem[d] == RootPage(b.kernel)
    requires OnlyPages(v, b, 0, 0, 0, {d}) && b.free <= v.free && SameRoots(v, b) && d in v.free
    requires Pool(b) == Pool(v) - {d} && d in Pool(v)
    ensures u == b.(tab := b.tab[Key(d, 4, 0) := d], use := b.use[d := Key(d, 4, 0)])
    ensures NewTree(v, u, d)
  {
    hide FreeInv, Lookup;
    u := Plant(b, d);
    PlantInv(b, d);
    forall r, pg: nat | (r == d || Live(b, r)) && pg < USERPAGES
      ensures r == d ==> Lookup(u.mem, r, pg) == None
    {
      PlantLookup(b, d, r, pg);
    }
    forall f | Bystander(v, 0, 0, 0, {}, f) ensures Still(v, u, f) {
      PassiveApart(v, f);
      assert Bystander(v, 0, 0, 0, {d}, f);
      assert Still(v, b, f);
    }
  }

  /** Page pg of tree root and page pg of tree d have the same flags and contents, the latter on a frame of its own. */
  ghost predicate CopiedPage(v: Space, w: Space, root: nat, d: nat, pg: nat) {
    match (Lookup(v.mem, root, pg), Lookup(w.mem, d, pg))
    case (Some(e), Some(c)) =>
      && FlagsOf(c) == FlagsOf(e) && FrameOf(c) in v.free
      && FrameOf(e) < |v.mem| == |w.mem| && FrameOf(c) < |w.mem| && w.mem[FrameOf(c)] == v.mem[FrameOf(e)]
    case _ => false
  }

  /** d is a new tree with copies of pages 1 to hi of root, and nothing else changed. */
  ghost predicate Copies(v: Space, w: Space, root: nat, d: nat, hi: nat) {
    && VmInv(v) && VmInv(w) && Pool(w) == Pool(v) && w.free <= v.free && OnlyPages(v, w, d, 1, hi, {}) && !Live(v, d)
    && (forall r :: Live(w, r) <==> Live(v, r) || r == d)
    && Shape(w, d, hi * PGSIZE)
    && forall pg: nat {:trigger CopiedPage(v, w, root, d, pg)} | 1 <= pg < hi :: CopiedPage(v, w, root, d, pg)
  }

  lemma CopiesNone(v: Space, w: Space, root: nat, d: nat)
    requires NewTree(v, w, d)
    ensures Copies(v, w, root, d, 1)
  {
    hide VmInv, Lookup, OnlyPages;
    OnlyWiden(v, w, 0, 0, 0, d, 1, 1, {});
  }

  lemma CopiesStep(v: Space, w: Space, u: Space, root: nat, d: nat, hi: nat, e: U64)
    requires Copies(v, w, root, d, hi) && 1 <= hi < USERPAGES && Live(v, root) && |v.mem| == |u.mem|
    requires Lookup(v.mem, root, hi) == Some(e) && FrameOf(e) < |v.mem|
    requires Puts(w, u, d, hi, FlagsOf(e), v.mem[FrameOf(e)])
    ensures Copies(v, u, root, d, hi + 1)
  {
    hide VmInv, Lookup;
    var none: set<nat> := {};
    OnlyTrans(v, w, u, d, 1, hi, hi + 1, none, none);
    assert none + none == none;
    forall pg: nat | 1 <= pg < hi + 1 ensures CopiedPage(v, u, root, d, pg) {
      if pg < hi {
        assert CopiedPage(v, w, root, d, pg);
        CopyStays(v, w, u, root, d, pg, hi);
      }
    }
    forall pg: nat | pg < USERPAGES ensures Lookup(u.mem, d, pg).Some? <==> 1 <= pg < hi + 1 {
      assert Lookup(w.mem, d, pg).Some? <==> 1 <= pg < hi;
    }
  }

  /** The copy of a page has the rights of the page. */
  lemma CopiesRights(v: Space, w: Space, root: nat, d: nat, hi: nat)
    requires Copies(v, w, root, d, hi) && Live(v, root) && hi <= USERPAGES
    ensures forall pg: nat, x: Right | 1 <= pg < hi ::
              Allows(w.mem, d, 0, pg, x) <==> Allows(v.mem, root, 0, pg, x)
  {
    hide VmInv, Lookup, Allows, Grants;
    forall pg: nat, x: Right | 1 <= pg < hi ensures Allows(w.mem, d, 0, pg, x) <==> Allows(v.mem, root, 0, pg, x) {
      assert CopiedPage(v, w, root, d, pg);
      LeafRights(w, d, pg, Lookup(w.mem, d, pg).value);
      LeafRights(v, root, pg, Lookup(v.mem, root, pg).value);
    }
  }

  lemma CopyStays(v: Space, w: Space, u: Space, root: nat, d: nat, pg: nat, hi: nat)
    requires CopiedPage(v, w, root, d, pg) && OnlyPages(w, u, d, hi, hi + 1, {}) && pg < hi < USERPAGES && Live(w, d)
    ensures CopiedPage(v, u, root, d, pg)
  {
    hide FreeInv, Lookup;
    LookupIsLeaf(w, d, pg);
    var k := Key(d, 0, pg);
    assert KeyOk(w, k);
    assert Bystander(w, d, hi, hi + 1, {}, w.tab[k]);
    assert Still(w, u, w.tab[k]);
    assert Lookup(u.mem, d, pg) == Lookup(w.mem, d, pg);
  }

  /** The page to be copied still is what it was when the copy began. */
  lemma SourcePage(v: Space, w: Space, root: nat, d: nat, hi: nat)
    requires Copies(v, w, root, d, hi) && Live(v, root) && hi < USERPAGES
    ensures Lookup(w.mem, root, hi) == Lookup(v.mem, root, hi) && Lookup(w.mem, d, hi) == None
    ensures match Lookup(v.mem, root, hi)
            case None => true
            case Some(e) => FrameOf(e) < NFRAMES == |v.mem| == |w.mem| && w.mem[FrameOf(e)] == v.mem[FrameOf(e)]
  {
    hide FreeInv, Lookup;
    LookupIsLeaf(v, root, hi);
    var k := Key(root, 0, hi);
    if k in v.tab {
      assert KeyOk(v, k);
      assert Bystander(v, d, 1, hi, {}, v.tab[k]);
      assert Still(v, w, v.tab[k]);
    }
    assert Lookup(w.mem, d, hi).Some? <==> 1 <= hi < Up(hi * PGSIZE);
  }
}
