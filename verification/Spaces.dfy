/** What the operations on address spaces promise, and how the promises of their steps add up. */
module Spaces {
  import opened Common
  import opened Paging
  import opened Trees

  /** sz rounded up to whole pages. */
  function Up(sz: nat): nat {
    (sz + PGSIZE - 1) / PGSIZE
  }

  /** A frame whose contents no paging operation may touch: the kernel's table, a frame somebody holds, a page of
      data. */
  ghost predicate Passive(v: Space, f: nat) {
    f == v.kernel || Held(v, f) || (f in v.use && v.use[f].level == 0)
  }

  /** Frame f holds what it held, and serves the same purpose. */
  ghost predicate Still(v: Space, w: Space, f: nat) {
    && f < NFRAMES == |v.mem| == |w.mem| && w.mem[f] == v.mem[f] && f !in w.free
    && (if f in v.use then f in w.use && w.use[f] == v.use[f] else f !in w.use)
  }

  ghost predicate InRange(root: nat, lo: nat, hi: nat, r: nat, pg: nat) {
    r == root && lo <= pg < hi
  }

  ghost predicate Bystander(v: Space, root: nat, lo: nat, hi: nat, x: set<nat>, f: nat) {
    && Passive(v, f) && f !in x
    && !(f in v.use && v.use[f].level == 0 && InRange(root, lo, hi, v.use[f].root, v.use[f].prefix))
  }

  /**
    From v to w only pages lo to hi of tree root change, and the frames x: every other translation of every tree is
    the same, and every other frame that is passive holds the same.
   */
  ghost predicate OnlyPages(v: Space, w: Space, root: nat, lo: nat, hi: nat, x: set<nat>) {
    && VmInv(v) && VmInv(w) && w.kernel == v.kernel && w.end == v.end
    && (forall r | Live(v, r) :: Live(w, r))
    && (forall r, pg: nat {:trigger Lookup(w.mem, r, pg)}
          | Live(v, r) && pg < USERPAGES && !InRange(root, lo, hi, r, pg) ::
          Lookup(w.mem, r, pg) == Lookup(v.mem, r, pg))
    && (forall f {:trigger Still(v, w, f)} | Bystander(v, root, lo, hi, x, f) :: Still(v, w, f))
  }

  lemma OnlyRefl(v: Space)
    requires VmInv(v)
    ensures forall root, lo, hi, x :: OnlyPages(v, v, root, lo, hi, x)
  {
    forall f | Passive(v, f) ensures Still(v, v, f) {
      PassiveApart(v, f);
    }
  }

  lemma PassiveApart(v: Space, f: nat)
    requires VmInv(v) && Passive(v, f)
    ensures f !in v.free && f < NFRAMES
  {
    assert f in v.use ==> UseOk(v, f);
    forall i | 0 <= i < |v.free| ensures v.free[i] != f {
      assert FreeOk(v, i);
    }
  }

  lemma OnlyTrans(v: Space, w: Space, u: Space, root: nat, lo: nat, mid: nat, hi: nat, x: set<nat>, y: set<nat>)
    requires OnlyPages(v, w, root, lo, mid, x) && OnlyPages(w, u, root, mid, hi, y) && lo <= mid <= hi
    ensures OnlyPages(v, u, root, lo, hi, x + y)
  {
    hide VmInv, Lookup;
    forall r, pg: nat | Live(v, r) && pg < USERPAGES && !InRange(root, lo, hi, r, pg)
      ensures Lookup(u.mem, r, pg) == Lookup(v.mem, r, pg)
    {
      assert Lookup(u.mem, r, pg) == Lookup(w.mem, r, pg);
    }
    forall f | Bystander(v, root, lo, hi, x + y, f) ensures Still(v, u, f) {
      assert Still(v, w, f);
      assert Bystander(w, root, mid, hi, y, f);
      assert Still(w, u, f);
    }
  }

  /** Frames nobody relied on need no exemption. */
  lemma OnlyLess(v: Space, w: Space, root: nat, lo: nat, hi: nat, x: set<nat>, y: set<nat>)
    requires OnlyPages(v, w, root, lo, hi, x) && forall f | f in x && f !in y :: f in v.free
    ensures OnlyPages(v, w, root, lo, hi, y)
  {
    hide Lookup;
    forall f | Bystander(v, root, lo, hi, y, f) ensures Still(v, w, f) {
      PassiveApart(v, f);
      assert Bystander(v, root, lo, hi, x, f);
    }
  }

  /** A change that touches no range fits every range. */
  lemma OnlyWiden(v: Space, w: Space, root: nat, lo: nat, hi: nat, root': nat, lo': nat, hi': nat, x: set<nat>)
    requires OnlyPages(v, w, root, lo, hi, x) && (lo >= hi || (root' == root && lo' <= lo <= hi <= hi'))
    ensures OnlyPages(v, w, root', lo', hi', x)
  {
    hide VmInv, Lookup;
    forall f | Bystander(v, root', lo', hi', x, f) ensures Still(v, w, f) {
      assert Bystander(v, root, lo, hi, x, f);
    }
  }

  /** No other page's rights change. */
  lemma OnlyRights(v: Space, w: Space, root: nat, lo: nat, hi: nat, x: set<nat>, r: nat, pg: nat, right: Right)
    requires OnlyPages(v, w, root, lo, hi, x) && Live(v, r) && pg < USERPAGES && !InRange(root, lo, hi, r, pg)
    ensures Allows(w.mem, r, 0, pg, right) <==> Allows(v.mem, r, 0, pg, right)
  {
    hide VmInv, Lookup, Allows;
    RightsAreLeaf(v, r, pg, right);
    RightsAreLeaf(w, r, pg, right);
    assert Lookup(w.mem, r, pg) == Lookup(v.mem, r, pg);
  }

  /** The rights on page pg of tree root are exactly what these flags grant. */
  ghost predicate HasRights(mem: seq<Page>, root: nat, pg: nat, flags: nat)
    requires flags < PGSIZE
  {
    forall x: Right :: Allows(mem, root, 0, pg, x) <==> Grants(flags, x)
  }

  lemma EntryRights(v: Space, root: nat, pg: nat, f: nat, flags: nat)
    requires VmInv(v) && Live(v, root) && pg < USERPAGES && f < NFRAMES && flags < PGSIZE
    requires Lookup(v.mem, root, pg) == Some(Entry(f, flags))
    ensures HasRights(v.mem, root, pg, flags)
  {
    hide VmInv, Lookup, Allows, Grants;
    EntryGrants(f, flags);
    forall x: Right ensures Allows(v.mem, root, 0, pg, x) <==> Grants(flags, x) { RightsAreLeaf(v, root, pg, x); }
  }

  // ---- the promises of the elementary changes ----

  lemma TakenOnly(v: Space)
    requires VmInv(v) && v.free != []
    ensures OnlyPages(v, Taken(v), 0, 0, 0, {})
  {
    hide FreeInv, TreeInv, Lookup;
    var w := Taken(v);
    TakenInv(v);
    forall f | Bystander(v, 0, 0, 0, {}, f) ensures Still(v, w, f) {
      PassiveApart(v, f);
      TreeSize(v);
    }
  }

  lemma TreeSize(v: Space)
    requires TreeInv(v)
    ensures |v.mem| == NFRAMES
  {
  }

  /** Writing a frame that is held changes no translation. */
  lemma HeldOnly(v: Space, w: Space, f: nat)
    requires VmInv(v) && VmInv(w) && Held(v, f) && w == v.(mem := w.mem, freelist := w.freelist, free := w.free)
    requires w.free == v.free || w.free == v.free + [f]
    requires forall g | 0 <= g < NFRAMES && g != f :: w.mem[g] == v.mem[g]
    ensures OnlyPages(v, w, 0, 0, 0, {f})
  {
    hide FreeInv, Lookup;
    forall r, pg: nat | Live(v, r) && pg < USERPAGES ensures Lookup(w.mem, r, pg) == Lookup(v.mem, r, pg) {
      LookupIsLeaf(v, r, pg);
      LookupIsLeaf(w, r, pg);
      var t := Key(r, 1, pg / NENTRIES);
      assert t in v.tab ==> KeyOk(v, t);
    }
    forall g | Bystander(v, 0, 0, 0, {f}, g) ensures Still(v, w, g) {
      PassiveApart(v, g);
    }
  }

  lemma LinkOnly(v: Space, k: Key, i: nat, f: nat, flags: nat)
    requires CanLink(v, k, i, f, flags)
    ensures var w := Link(v, k, i, f, flags);
            && OnlyPages(v, w, k.root, if k.level == 1 then Child(k, i).prefix else 0,
                         if k.level == 1 then Child(k, i).prefix + 1 else 0, {f})
            && w.mem[f] == v.mem[f]
  {
    hide FreeInv, Lookup;
    var w, c := Link(v, k, i, f, flags), Child(k, i);
    var lo, hi := if k.level == 1 then c.prefix else 0, if k.level == 1 then c.prefix + 1 else 0;
    LinkInv(v, k, i, f, flags);
    assert KeyOk(v, k) && UseOk(v, v.tab[k]);
    forall r, pg: nat | Live(v, r) && pg < USERPAGES && !InRange(k.root, lo, hi, r, pg)
      ensures Lookup(w.mem, r, pg) == Lookup(v.mem, r, pg)
    {
      LinkLookup(v, k, i, f, flags, r, pg);
    }
    forall g | Bystander(v, k.root, lo, hi, {f}, g) ensures Still(v, w, g) {
      PassiveApart(v, g);
      assert g != v.tab[k];
    }
  }

  lemma UnlinkOnly(v: Space, r: nat, pg: nat)
    requires VmInv(v) && Key(r, 0, pg) in v.tab && pg < USERPAGES
    ensures OnlyPages(v, Unlink(v, r, pg), r, pg, pg + 1, {})
    ensures Live(v, r) ==> Lookup(Unlink(v, r, pg).mem, r, pg) == None
  {
    hide FreeInv, Lookup;
    var w, k := Unlink(v, r, pg), Key(r, 0, pg);
    UnlinkInv(v, r, pg);
    forall r', pg': nat | Live(v, r') && pg' < USERPAGES
      ensures Lookup(w.mem, r', pg') == if r' == r && pg' == pg then None else Lookup(v.mem, r', pg')
    {
      UnlinkLookup(v, r, pg, r', pg');
    }
    assert KeyOk(v, k) && KeyOk(v, Parent(k));
    forall g | Bystander(v, r, pg, pg + 1, {}, g) ensures Still(v, w, g) {
      PassiveApart(v, g);
      assert g in v.use ==> UseOk(v, g);
    }
  }

  // ---- shapes ----

  /** The present user pages of tree `root` are exactly those of [PGSIZE, PGROUNDUP(sz)). */
  ghost predicate Shape(v: Space, root: nat, sz: nat) {
    forall pg: nat {:trigger Lookup(v.mem, root, pg)} | pg < USERPAGES ::
      Lookup(v.mem, root, pg).Some? <==> 1 <= pg < Up(sz)
  }

  /** In addresses: those from the second page on are mapped whose page begins below sz. */
  lemma ShapeMeans(v: Space, root: nat, sz: nat, va: nat)
    requires Shape(v, root, sz) && va < 0x8000_0000_0000
    ensures Lookup(v.mem, root, va / 4096).Some? <==> 4096 <= va && va - va % 4096 < sz
  {
    hide Lookup;
    PageStarts(va, sz);
    assert Lookup(v.mem, root, va / 4096).Some? <==> 1 <= va / 4096 < Up(sz);
  }

  lemma PageStarts(va: nat, sz: nat)
    requires va < 0x8000_0000_0000
    ensures va / 4096 < USERPAGES && (1 <= va / 4096 < Up(sz) <==> 4096 <= va && va - va % 4096 < sz)
  {
    var q := va / 4096;
    assert va - va % 4096 == 4096 * q;
    RoundUp(q, sz);
  }

  lemma RoundUp(q: nat, sz: nat)
    ensures q < Up(sz) <==> 4096 * q < sz
  {
    var u := (sz + 4095) / 4096;
    assert 4096 * u <= sz + 4095 < 4096 * u + 4096;
  }

  /** The frames of pages 1 to n. */
  ghost function FramesTo(v: Space, root: nat, n: nat): set<nat>
    requires forall pg | 1 <= pg <= n :: Key(root, 0, pg) in v.tab
  {
    if n == 0 then {} else FramesTo(v, root, n - 1) + {v.tab[Key(root, 0, n)]}
  }

  lemma {:induction false} FramesCount(v: Space, root: nat, n: nat)
    requires TreeInv(v) && forall pg | 1 <= pg <= n :: Key(root, 0, pg) in v.tab
    ensures |FramesTo(v, root, n)| == n
    ensures forall f | f in FramesTo(v, root, n) ::
              f in v.use && 0 <= f < NFRAMES && v.use[f].level == 0 && v.use[f].prefix <= n
  {
    if n > 0 {
      FramesCount(v, root, n - 1);
      assert KeyOk(v, Key(root, 0, n));
      assert UseOk(v, v.tab[Key(root, 0, n)]);
    }
  }

  lemma {:induction false} SetBound(s: set<nat>, n: nat)
    requires forall x | x in s :: x < n
    ensures |s| <= n
  {
    if n > 0 {
      SetBound(s - {n - 1}, n - 1);
      assert s <= (s - {n - 1}) + {n - 1};
      SetGrow(s, n - 1);
    } else {
      assert s == {};
    }
  }

  lemma SetGrow(s: set<nat>, x: nat)
    ensures |s| <= |s - {x}| + 1
  {
    if x in s {
      assert s == (s - {x}) + {x};
    } else {
      assert s == s - {x};
    }
  }

  /** An address space is no bigger than the memory: every size a process can have is far below 2^32. */
  lemma ShapeBound(v: Space, root: nat, sz: nat)
    requires VmInv(v) && Live(v, root) && Shape(v, root, sz)
    ensures Up(sz) <= NFRAMES + 1 && sz <= (NFRAMES + 1) * PGSIZE
  {
    hide FreeInv, Lookup;
    if Up(sz) > NFRAMES + 1 {
      forall pg | 1 <= pg <= NFRAMES + 1 ensures Key(root, 0, pg) in v.tab {
        LookupIsLeaf(v, root, pg);
      }
      FramesCount(v, root, NFRAMES + 1);
      SetBound(FramesTo(v, root, NFRAMES + 1), NFRAMES);
      assert false;
    }
  }
}
