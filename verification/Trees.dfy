/** Changes to the page-table trees: adding a frame, removing a page, making and dropping a tree. */
module Trees {
  import opened Common
  import opened Paging

  /** Entry i of the table at k leads to frame f from now on. */
  ghost predicate CanLink(v: Space, k: Key, i: nat, f: nat, flags: nat) {
    && VmInv(v) && k in v.tab && 1 <= k.level && i < NENTRIES && (k.level == 4 ==> i < KSLOT)
    && Child(k, i) !in v.tab && Held(v, f) && v.tab[k] < NFRAMES
    && flags < PGSIZE && flags % 2 == 1 && (k.level >= 2 ==> v.mem[f] == ZERO && Open(flags))
  }

  ghost function Link(v: Space, k: Key, i: nat, f: nat, flags: nat): Space
    requires CanLink(v, k, i, f, flags)
  {
    var t := v.tab[k];
    v.(mem := v.mem[t := v.mem[t][i := Entry(f, flags)]],
       tab := v.tab[Child(k, i) := f],
       use := v.use[f := Child(k, i)])
  }

  lemma EntryOpen(f: nat, flags: nat)
    requires f < NFRAMES && flags < PGSIZE
    ensures Open(Entry(f, flags)) <==> Open(flags)
  {
    EntryGrants(f, flags);
    assert Grants(flags, Writes) == WriteBit(flags) && Grants(flags, Users) == UserBit(flags);
    assert Grants(Entry(f, flags), Writes) && Grants(Entry(f, flags), Users) <==> Open(Entry(f, flags));
  }

  lemma LinkSlots(v: Space, k: Key, i: nat, f: nat, flags: nat, q: Key, j: nat)
    requires CanLink(v, k, i, f, flags)
    requires q in Link(v, k, i, f, flags).tab && q.level >= 1 && j < NENTRIES
    ensures SlotOk(Link(v, k, i, f, flags), q, j)
  {
    hide FreeInv;
    var w, c := Link(v, k, i, f, flags), Child(k, i);
    assert KeyOk(v, k);
    ParentChild(k, i);
    ParentChild(q, j);
    EntryOpen(f, flags);
    if q == c {
      assert c !in v.tab ==> Child(c, j) !in v.tab by {
        assert Child(c, j) in v.tab ==> KeyOk(v, Child(c, j));
      }
      assert w.tab[q] == f && w.mem[f] == v.mem[f] by { assert UseOk(v, v.tab[k]); }
    } else {
      assert KeyOk(v, q) && SlotOk(v, q, j) && UseOk(v, v.tab[q]);
      assert q != k ==> v.tab[q] != v.tab[k];
    }
  }

  lemma LinkInv(v: Space, k: Key, i: nat, f: nat, flags: nat)
    requires CanLink(v, k, i, f, flags)
    ensures VmInv(Link(v, k, i, f, flags)) && Pool(Link(v, k, i, f, flags)) == Pool(v) + {f}
  {
    var w, c := Link(v, k, i, f, flags), Child(k, i);
    assert KeyOk(v, k) && UseOk(v, v.tab[k]);
    ParentChild(k, i);
    forall q | q in w.tab ensures KeyOk(w, q) {
      if q != c { assert KeyOk(v, q); }
    }
    forall g | g in w.use ensures UseOk(w, g) {
      if g != f { assert UseOk(v, g); }
    }
    forall q, j | q in w.tab && q.level >= 1 && 0 <= j < NENTRIES ensures SlotOk(w, q, j) {
      LinkSlots(v, k, i, f, flags, q, j);
    }
    LinkFree(v, k, i, f, flags);
  }

  lemma LinkFree(v: Space, k: Key, i: nat, f: nat, flags: nat)
    requires CanLink(v, k, i, f, flags)
    ensures FreeInv(Link(v, k, i, f, flags))
  {
    var w := Link(v, k, i, f, flags);
    assert KeyOk(v, k) && UseOk(v, v.tab[k]);
    forall j | 0 <= j < |w.free| ensures FreeOk(w, j) {
      assert FreeOk(v, j);
      assert v.free[j] in v.free;
    }
  }

  /** A new table changes no translation; a new page changes its own only. */
  lemma LinkLookup(v: Space, k: Key, i: nat, f: nat, flags: nat, r: nat, pg: nat)
    requires CanLink(v, k, i, f, flags) && Live(v, r) && pg < USERPAGES
    ensures var w := Link(v, k, i, f, flags);
            Lookup(w.mem, r, pg) ==
            if Key(r, 0, pg) == Child(k, i) then Some(Entry(f, flags)) else Lookup(v.mem, r, pg)
  {
    hide FreeInv, Lookup;
    var w, c, t := Link(v, k, i, f, flags), Child(k, i), Key(r, 1, pg / NENTRIES);
    LinkInv(v, k, i, f, flags);
    LookupIsLeaf(v, r, pg);
    LookupIsLeaf(w, r, pg);
    ChildParent(Key(r, 0, pg));
    ParentChild(k, i);
    assert KeyOk(v, k) && UseOk(v, v.tab[k]);
    assert t in v.tab ==> KeyOk(v, t) && UseOk(v, v.tab[t]);
    assert Key(r, 0, pg) in v.tab ==> KeyOk(v, Key(r, 0, pg));
  }

  // ---- removing a page of data ----

  ghost function Cut(m: map<Key, nat>, k: Key): map<Key, nat> {
    map q | q in m && q != k :: m[q]
  }

  ghost function Disused(m: map<nat, Key>, f: nat): map<nat, Key> {
    map g | g in m && g != f :: m[g]
  }

  /** Page pg of tree r is no longer mapped; its frame is held by whoever does this. */
  ghost function Unlink(v: Space, r: nat, pg: nat): Space
    requires VmInv(v) && Key(r, 0, pg) in v.tab
  {
    assert KeyOk(v, Key(r, 0, pg));
    var t := v.tab[Key(r, 1, pg / NENTRIES)];
    assert KeyOk(v, Key(r, 1, pg / NENTRIES)) && UseOk(v, t);
    v.(mem := v.mem[t := v.mem[t][pg % NENTRIES := 0]],
       tab := Cut(v.tab, Key(r, 0, pg)),
       use := Disused(v.use, v.tab[Key(r, 0, pg)]))
  }

  lemma UnlinkSlots(v: Space, r: nat, pg: nat, q: Key, j: nat)
    requires VmInv(v) && Key(r, 0, pg) in v.tab
    requires q in Unlink(v, r, pg).tab && q.level >= 1 && j < NENTRIES
    ensures SlotOk(Unlink(v, r, pg), q, j)
  {
    hide FreeInv;
    var k := Key(r, 0, pg);
    assert KeyOk(v, k) && KeyOk(v, Parent(k)) && KeyOk(v, q) && SlotOk(v, q, j);
    ChildParent(k);
    ParentChild(q, j);
    assert UseOk(v, v.tab[Parent(k)]);
  }

  lemma UnlinkInv(v: Space, r: nat, pg: nat)
    requires VmInv(v) && Key(r, 0, pg) in v.tab
    ensures var w, f := Unlink(v, r, pg), v.tab[Key(r, 0, pg)];
            VmInv(w) && Held(w, f) && f in v.use && v.use[f] == Key(r, 0, pg)
            && Pool(w) == Pool(v) - {f} && f in Pool(v)
  {
    var w, k := Unlink(v, r, pg), Key(r, 0, pg);
    assert KeyOk(v, k) && UseOk(v, v.tab[k]) && KeyOk(v, Parent(k)) && UseOk(v, v.tab[Parent(k)]);
    forall q | q in w.tab ensures KeyOk(w, q) { assert KeyOk(v, q); }
    forall g | g in w.use ensures UseOk(w, g) { assert UseOk(v, g); }
    forall q, j | q in w.tab && q.level >= 1 && 0 <= j < NENTRIES ensures SlotOk(w, q, j) {
      UnlinkSlots(v, r, pg, q, j);
    }
    UnlinkFree(v, r, pg);
  }

  lemma UnlinkFree(v: Space, r: nat, pg: nat)
    requires VmInv(v) && Key(r, 0, pg) in v.tab
    ensures FreeInv(Unlink(v, r, pg)) && v.tab[Key(r, 0, pg)] !in v.free
  {
    hide SlotOk, FreeInv;
    var w, k, t := Unlink(v, r, pg), Key(r, 0, pg), Key(r, 1, pg / NENTRIES);
    assert KeyOk(v, k) && KeyOk(v, t) && UseOk(v, v.tab[t]) && UseOk(v, v.tab[k]);
    UsedApart(v, v.tab[t]);
    UsedApart(v, v.tab[k]);
    FreeKept(v, w);
  }

  lemma UsedApart(v: Space, f: nat)
    requires VmInv(v) && f in v.use
    ensures f !in v.free
  {
    forall j | 0 <= j < |v.free| ensures v.free[j] != f { assert FreeOk(v, j); }
  }

  /** The free list does not depend on the frames in use. */
  lemma FreeKept(v: Space, w: Space)
    requires FreeInv(v) && w.free == v.free && w.freelist == v.freelist && w.end == v.end && w.kernel == v.kernel
    requires |w.mem| == |v.mem| && forall f | f in v.free && f < |v.mem| :: w.mem[f] == v.mem[f]
    requires forall f | f in w.use :: f in v.use
    ensures FreeInv(w)
  {
    forall j | 0 <= j < |w.free| ensures FreeOk(w, j) {
      assert FreeOk(v, j);
      assert v.free[j] in v.free;
    }
  }

  lemma UnlinkLookup(v: Space, r: nat, pg: nat, r': nat, pg': nat)
    requires VmInv(v) && Key(r, 0, pg) in v.tab && Live(v, r') && pg' < USERPAGES
    ensures Lookup(Unlink(v, r, pg).mem, r', pg') == if r' == r && pg' == pg then None else Lookup(v.mem, r', pg')
  {
    hide FreeInv, Lookup;
    var w, k, k' := Unlink(v, r, pg), Key(r, 0, pg), Key(r', 0, pg');
    UnlinkInv(v, r, pg);
    LookupIsLeaf(v, r', pg');
    LookupIsLeaf(w, r', pg');
    assert KeyOk(v, k) && KeyOk(v, Parent(k));
    if k' in v.tab {
      assert KeyOk(v, k') && KeyOk(v, Parent(k'));
      ChildParent(k);
      ChildParent(k');
    }
  }

  // ---- a new tree ----

  /** setupkvm()'s page: empty but for the kernel's slot. */
  function RootPage(kernel: nat): Page
    requires kernel < NFRAMES
  {
    ZERO[KSLOT := Entry(kernel, PTE_P + PTE_W)]
  }

  ghost function Plant(v: Space, f: nat): Space {
    v.(tab := v.tab[Key(f, 4, 0) := f], use := v.use[f := Key(f, 4, 0)])
  }

  lemma PlantInv(v: Space, f: nat)
    requires VmInv(v) && Held(v, f) && v.mem[f] == RootPage(v.kernel)
    ensures VmInv(Plant(v, f)) && Pool(Plant(v, f)) == Pool(v) + {f} && !Live(v, f)
  {
    var w, c := Plant(v, f), Key(f, 4, 0);
    assert c in v.tab ==> KeyOk(v, c);
    forall q | q in w.tab ensures KeyOk(w, q) {
      if q != c { assert KeyOk(v, q); }
    }
    forall g | g in w.use ensures UseOk(w, g) {
      if g != f { assert UseOk(v, g); }
    }
    forall q, j | q in w.tab && q.level >= 1 && 0 <= j < NENTRIES ensures SlotOk(w, q, j) {
      ParentChild(q, j);
      if q != c {
        assert SlotOk(v, q, j);
      } else {
        assert Child(c, j) in v.tab ==> KeyOk(v, Child(c, j));
      }
    }
    forall j | 0 <= j < |w.free| ensures FreeOk(w, j) {
      assert FreeOk(v, j);
      assert v.free[j] in v.free;
    }
  }

  /** A new tree translates nothing, and the others are as they were. */
  lemma PlantLookup(v: Space, f: nat, r: nat, pg: nat)
    requires VmInv(v) && Held(v, f) && v.mem[f] == RootPage(v.kernel) && pg < USERPAGES
    requires r == f || Live(v, r)
    ensures Lookup(v.mem, r, pg) == Leaf(Plant(v, f), r, pg)
    ensures r == f ==> Lookup(v.mem, r, pg) == None
  {
    hide FreeInv, Lookup;
    PlantInv(v, f);
    LookupIsLeaf(Plant(v, f), r, pg);
    if r == f {
      NoOrphans(v, Key(f, 0, pg));
    }
  }

  /** Every place in a tree is under a live root. */
  lemma {:induction false} NoOrphans(v: Space, k: Key)
    requires TreeInv(v) && k.level <= 4
    ensures k in v.tab ==> Live(v, k.root)
    decreases 4 - k.level
  {
    if k in v.tab {
      assert KeyOk(v, k);
      if k.level < 4 {
        NoOrphans(v, Parent(k));
      }
    }
  }

  // ---- dropping a tree ----

  /** Nothing of tree r is left, and its frames are on the free list. */
  ghost predicate Dropped(v: Space, w: Space, r: nat) {
    && w.kernel == v.kernel && w.end == v.end && |w.mem| == NFRAMES
    && w.tab == (map k | k in v.tab && k.root != r :: v.tab[k])
    && w.use == (map f | f in v.use && v.use[f].root != r :: v.use[f])
    && (forall f | f in w.use && f < NFRAMES == |v.mem| :: w.mem[f] == v.mem[f])
  }

  lemma DroppedInv(v: Space, w: Space, r: nat)
    requires TreeInv(v) && Dropped(v, w, r)
    ensures TreeInv(w)
  {
    forall q | q in w.tab ensures KeyOk(w, q) { assert KeyOk(v, q); }
    forall g | g in w.use ensures UseOk(w, g) { assert UseOk(v, g); }
    forall q, j | q in w.tab && q.level >= 1 && 0 <= j < NENTRIES ensures SlotOk(w, q, j) {
      assert SlotOk(v, q, j) && KeyOk(v, q) && KeyOk(w, q);
    }
  }

  lemma DroppedLookup(v: Space, w: Space, r: nat, r': nat, pg: nat)
    requires VmInv(v) && VmInv(w) && Dropped(v, w, r) && Live(v, r') && r' != r && pg < USERPAGES
    ensures Lookup(w.mem, r', pg) == Lookup(v.mem, r', pg)
  {
    hide FreeInv, Lookup;
    LookupIsLeaf(v, r', pg);
    LookupIsLeaf(w, r', pg);
    var t := Key(r', 1, pg / NENTRIES);
    assert t in v.tab ==> KeyOk(v, t);
  }
}
