/** The promises of the steps that add tables and pages to a tree, and how they add up. */
module Mapping {
  import opened Common
  import opened Paging
  import opened Trees
  import opened Spaces

  // ---- promises of the operations ----

  ghost predicate SameRoots(v: Space, w: Space) {
    forall r :: Live(v, r) <==> Live(w, r)
  }

  /** Tables were added, from the free list, and nothing else happened. */
  ghost predicate Grew(v: Space, w: Space) {
    && VmInv(w) && OnlyPages(v, w, 0, 0, 0, {}) && Pool(w) == Pool(v) && w.free <= v.free && SameRoots(v, w)
    && forall k | k in v.tab :: k in w.tab && w.tab[k] == v.tab[k]
  }

  lemma GrewTrans(v: Space, w: Space, u: Space)
    requires Grew(v, w) && Grew(w, u)
    ensures Grew(v, u)
  {
    var none: set<nat> := {};
    OnlyTrans(v, w, u, 0, 0, 0, 0, none, none);
    assert none + none == none;
  }

  /** One more table, below the table at k. */
  lemma NewTable(v: Space, k: Key, i: nat) returns (f: nat, u: Space)
    requires VmInv(v) && v.free != [] && k in v.tab && 2 <= k.level && i < NENTRIES && (k.level == 4 ==> i < KSLOT)
    requires Child(k, i) !in v.tab
    ensures f == v.free[|v.free| - 1] && f < NFRAMES && v.tab[k] < NFRAMES && f != v.tab[k]
    ensures u.mem == v.mem[f := ZERO][v.tab[k] := v.mem[v.tab[k]][i := Entry(f, PTE_P + PTE_W + PTE_U)]]
    ensures u == Taken(v).(mem := u.mem, tab := v.tab[Child(k, i) := f], use := v.use[f := Child(k, i)])
    ensures Grew(v, u)
  {
    hide FreeInv, Lookup, OnlyPages;
    f := v.free[|v.free| - 1];
    var a := Taken(v);
    TakenInv(v);
    TakenOnly(v);
    var b := a.(mem := a.mem[f := ZERO]);
    WipedInv(a, f, ZERO);
    assert KeyOk(v, k) && UseOk(v, v.tab[k]);
    u := Link(b, k, i, f, PTE_P + PTE_W + PTE_U);
    LinkInv(b, k, i, f, PTE_P + PTE_W + PTE_U);
    LinkOnly(b, k, i, f, PTE_P + PTE_W + PTE_U);
    OnlyTrans(v, a, b, 0, 0, 0, 0, {}, {f});
    OnlyWiden(b, u, k.root, 0, 0, 0, 0, 0, {f});
    OnlyTrans(v, b, u, 0, 0, 0, 0, {} + {f}, {f});
    OnlyLess(v, u, 0, 0, 0, {} + {f} + {f}, {});
    ParentChild(k, i);
    assert Pool(u) == Pool(v);
  }

  lemma WipedInv(v: Space, f: nat, page: Page)
    requires VmInv(v) && Held(v, f)
    ensures var w := v.(mem := v.mem[f := page]); VmInv(w) && OnlyPages(v, w, 0, 0, 0, {f})
  {
    var w := v.(mem := v.mem[f := page]);
    TreeKept(v, w);
    forall i | 0 <= i < |w.free| ensures FreeOk(w, i) {
      assert FreeOk(v, i);
      assert v.free[i] in v.free;
    }
    HeldOnly(v, w, f);
  }

  // ---- mapping pages ----

  predicate Within(f0: nat, n: nat, f: nat) {
    f0 <= f < f0 + n
  }

  ghost function Frames(f0: nat, n: nat): set<nat> {
    set f: nat | f < f0 + n && Within(f0, n, f)
  }

  /** Page p0 + j of the tree was not mapped, and now is, to frame f0 + j. */
  ghost predicate MapsOne(v: Space, w: Space, root: nat, p0: nat, f0: nat, flags: nat, j: nat) {
    && f0 + j < NFRAMES == |v.mem| == |w.mem| && flags < PGSIZE && p0 + j < USERPAGES
    && Lookup(v.mem, root, p0 + j) == None
    && Lookup(w.mem, root, p0 + j) == Some(Entry(f0 + j, flags))
    && w.mem[f0 + j] == v.mem[f0 + j]
    && f0 + j in w.use && w.use[f0 + j] == Key(root, 0, p0 + j)
  }

  /** Pages p0 to p0 + n are mapped to frames f0 to f0 + n, and no other translation and no data change. */
  ghost predicate MapsRange(v: Space, w: Space, root: nat, p0: nat, n: nat, f0: nat, flags: nat) {
    && VmInv(w) && Live(w, root) && OnlyPages(v, w, root, p0, p0 + n, Frames(f0, n))
    && Pool(w) == Pool(v) + Frames(f0, n)
    && w.free <= v.free && SameRoots(v, w)
    && forall j: nat {:trigger MapsOne(v, w, root, p0, f0, flags, j)} | j < n :: MapsOne(v, w, root, p0, f0, flags, j)
  }

  lemma GrewMaps(v: Space, w: Space, root: nat, p0: nat, f0: nat, flags: nat)
    requires Grew(v, w) && Live(v, root)
    ensures MapsRange(v, w, root, p0, 0, f0, flags)
  {
    hide VmInv, OnlyPages;
    OnlyWiden(v, w, 0, 0, 0, root, p0, p0, {});
    assert Frames(f0, 0) == {};
  }

  lemma LinkMaps(v: Space, root: nat, pg: nat, f: nat, flags: nat) returns (u: Space)
    requires VmInv(v) && Live(v, root) && pg < USERPAGES && Key(root, 1, pg / NENTRIES) in v.tab && Held(v, f)
    requires flags < PGSIZE && flags % 2 == 1 && Key(root, 0, pg) !in v.tab
    ensures var t := v.tab[Key(root, 1, pg / NENTRIES)];
            && t < NFRAMES && f < NFRAMES
            && u == v.(mem := v.mem[t := v.mem[t][pg % NENTRIES := Entry(f, flags)]],
                       tab := v.tab[Key(root, 0, pg) := f], use := v.use[f := Key(root, 0, pg)])
    ensures MapsRange(v, u, root, pg, 1, f, flags)
  {
    hide FreeInv, Lookup, OnlyPages;
    var k := Key(root, 1, pg / NENTRIES);
    assert KeyOk(v, k) && UseOk(v, v.tab[k]);
    ChildParent(Key(root, 0, pg));
    u := Link(v, k, pg % NENTRIES, f, flags);
    LinkInv(v, k, pg % NENTRIES, f, flags);
    LinkOnly(v, k, pg % NENTRIES, f, flags);
    LinkLookup(v, k, pg % NENTRIES, f, flags, root, pg);
    LookupIsLeaf(v, root, pg);
    assert Frames(f, 1) == {f};
    assert MapsOne(v, u, root, pg, f, flags, 0);
  }

  lemma MapsStep(v: Space, w: Space, u: Space, root: nat, p0: nat, n: nat, f0: nat, flags: nat)
    requires MapsRange(v, w, root, p0, n, f0, flags) && MapsRange(w, u, root, p0 + n, 1, f0 + n, flags)
    requires Held(v, f0 + n) && Live(v, root)
    ensures MapsRange(v, u, root, p0, n + 1, f0, flags)
  {
    hide VmInv, Lookup;
    var lo, hi := p0 + n, p0 + n + 1;
    OnlyTrans(v, w, u, root, p0, lo, hi, Frames(f0, n), Frames(f0 + n, 1));
    assert Frames(f0, n + 1) == Frames(f0, n) + Frames(f0 + n, 1);
    assert MapsOne(w, u, root, lo, f0 + n, flags, 0);
    forall j: nat | j < n + 1 ensures MapsOne(v, u, root, p0, f0, flags, j) {
      if j < n {
        assert MapsOne(v, w, root, p0, f0, flags, j);
        assert Bystander(w, root, lo, hi, Frames(f0 + n, 1), f0 + j);
        assert Still(w, u, f0 + j);
        assert Lookup(u.mem, root, p0 + j) == Lookup(w.mem, root, p0 + j);
      } else {
        assert Bystander(v, root, p0, lo, Frames(f0, n), f0 + n);
        assert Still(v, w, f0 + n);
        assert Lookup(w.mem, root, lo) == Lookup(v.mem, root, lo);
      }
    }
  }

  /** The pages have the rights of their flags, whatever the tables above them. */
  lemma MapsRights(v: Space, w: Space, root: nat, p0: nat, n: nat, f0: nat, flags: nat)
    requires MapsRange(v, w, root, p0, n, f0, flags) && flags < PGSIZE
    ensures forall pg: nat | p0 <= pg < p0 + n :: HasRights(w.mem, root, pg, flags)
  {
    hide VmInv, Lookup, Allows, HasRights;
    forall pg: nat | p0 <= pg < p0 + n ensures HasRights(w.mem, root, pg, flags) {
      assert MapsOne(v, w, root, p0, f0, flags, pg - p0);
      EntryRights(w, root, pg, f0 + (pg - p0), flags);
    }
  }

  /** The number of pages that [va, va + size) touches. */
  function Span(va: nat, size: nat): nat
    requires size > 0
  {
    (va + size - 1) / PGSIZE - va / PGSIZE + 1
  }

  lemma StartMaps(v: Space, root: nat, p0: nat, f0: nat, flags: nat)
    requires VmInv(v) && Live(v, root)
    ensures MapsRange(v, v, root, p0, 0, f0, flags)
  {
    OnlyRefl(v);
    GrewMaps(v, v, root, p0, f0, flags);
  }

  lemma StillHeld(v: Space, w: Space, root: nat, p0: nat, n: nat, f0: nat, flags: nat, f: nat)
    requires MapsRange(v, w, root, p0, n, f0, flags) && Held(v, f) && f >= f0 + n && Live(v, root)
    ensures Held(w, f) && VmInv(w) && Live(w, root)
    ensures p0 + n < USERPAGES ==> Lookup(w.mem, root, p0 + n) == Lookup(v.mem, root, p0 + n)
  {
    hide VmInv, Lookup;
    assert Bystander(v, root, p0, p0 + n, Frames(f0, n), f);
    assert Still(v, w, f);
  }

  lemma PteOk(v: Space, w: Space, root: nat, pg: nat, f: nat)
    requires Grew(v, w) && Live(v, root) && pg < USERPAGES && Key(root, 1, pg / NENTRIES) in w.tab && Held(v, f)
    ensures var t := w.tab[Key(root, 1, pg / NENTRIES)];
            && t < NFRAMES == |w.mem| && Held(w, f)
            && (Present(w.mem[t][pg % NENTRIES]) <==> Key(root, 0, pg) in w.tab)
            && (Key(root, 0, pg) in w.tab <==> Lookup(v.mem, root, pg).Some?)
    ensures VmInv(w) && Live(w, root)
  {
    hide FreeInv, Lookup;
    var k := Key(root, 1, pg / NENTRIES);
    assert Still(v, w, f);
    LookupIsLeaf(w, root, pg);
    ChildParent(Key(root, 0, pg));
    assert KeyOk(w, k) && UseOk(w, w.tab[k]) && SlotOk(w, k, pg % NENTRIES);
  }

  lemma RootKey(v: Space, root: nat)
    requires VmInv(v) && Live(v, root)
    ensures v.tab[Key(root, 4, 0)] == root
  {
    assert KeyOk(v, Key(root, 4, 0));
  }

  /** A page table is in its tree only with the tables above it. */
  lemma Lineage(v: Space, k: Key)
    requires VmInv(v) && k.level == 1
    ensures k in v.tab ==> Parent(k) in v.tab && Parent(Parent(k)) in v.tab
  {
    assert k in v.tab ==> KeyOk(v, k);
    assert Parent(k) in v.tab ==> KeyOk(v, Parent(k));
  }
}
