/** The kernel's operations on user address spaces: kalloc.rs and vm.rs. */
module Vm {
  import opened Common
  import opened Paging
  import opened Trees
  import opened Spaces
  import opened Mapping
  import opened Regions
  import opened Teardown

  // ---- the split of an address ----

  function PMX(va: nat): nat { va / 0x80_0000_0000 % NENTRIES }

  function PDPX(va: nat): nat { va / 0x4000_0000 % NENTRIES }

  function PDX(va: nat): nat { va / 0x20_0000 % NENTRIES }

  function PTX(va: nat): nat { va / 0x1000 % NENTRIES }

  /** Below 2^48 the four indices and the offset determine the address, and PMX is below KSLOT exactly below 2^47. */
  lemma Split(va: nat)
    requires va < 0x1_0000_0000_0000
    ensures va / PGSIZE == ((PMX(va) * NENTRIES + PDPX(va)) * NENTRIES + PDX(va)) * NENTRIES + PTX(va)
    ensures va / PGSIZE / NENTRIES == (PMX(va) * NENTRIES + PDPX(va)) * NENTRIES + PDX(va)
    ensures PTX(va) == va / PGSIZE % NENTRIES
    ensures PMX(va) < KSLOT <==> va / PGSIZE < USERPAGES
  {
    var a, b, c := va / 0x1000, va / 0x20_0000, va / 0x4000_0000;
    assert a / NENTRIES == b && b / NENTRIES == c && c / NENTRIES == va / 0x80_0000_0000;
    assert va / 0x80_0000_0000 < NENTRIES;
  }

  lemma SplitInjective(va: nat, vb: nat)
    requires va < 0x1_0000_0000_0000 && vb < 0x1_0000_0000_0000
    ensures PMX(va) == PMX(vb) && PDPX(va) == PDPX(vb) && PDX(va) == PDX(vb) && PTX(va) == PTX(vb)
            <==> va / PGSIZE == vb / PGSIZE
  {
    Split(va);
    Split(vb);
  }

  datatype MapResult = Mapped | Remap | OutOfMemory

  datatype Walked = Found(table: nat) | Null | Panic

  class Machine {
    var mem: seq<Page>
    var freelist: U64
    var kernel: nat
    const end: nat
    ghost var free: seq<nat>
    ghost var tab: map<Key, nat>
    ghost var use: map<nat, Key>

    ghost function V(): Space
      reads this
    {
      Space(mem, freelist, free, tab, use, kernel, end)
    }

    /** Before kinit1(): no frame is free, and none is in a tree. */
    constructor (ram: seq<Page>, end: nat)
      requires |ram| == NFRAMES && 0 < end
      ensures VmInv(V()) && free == [] && tab == map[] && mem == ram && kernel == 0 && this.end == end
    {
      mem, freelist, kernel, this.end := ram, 0, 0, end;
      free, tab, use := [], map[], map[];
    }

    /** freerange(): the whole frames of [vstart, vend) go on the free list. */
    method Freerange(vstart: nat, vend: nat)
      requires VmInv(V()) && KERNBASE <= vstart && vend <= KERNBASE + NFRAMES * PGSIZE
      requires forall f: nat | WholeFrame(vstart, vend, f) :: Held(V(), f)
      modifies this`mem, this`freelist, this`free
      ensures VmInv(V()) && old(free) <= free
      ensures forall f: nat :: f in free <==> f in old(free) || WholeFrame(vstart, vend, f)
    {
      hide FreeInv, TreeInv;
      var p := (vstart + PGSIZE - 1) / PGSIZE * PGSIZE;
      while p + PGSIZE <= vend
        invariant VmInv(V()) && p % PGSIZE == 0 && vstart <= p && old(free) <= free && unchanged(`kernel)
        invariant forall f: nat ::
          f in free <==> f in old(free) || (WholeFrame(vstart, vend, f) && KERNBASE + f * PGSIZE < p)
      {
        ghost var f := (p - KERNBASE) / PGSIZE;
        assert WholeFrame(vstart, vend, f);
        ReturnedInv(V(), f);
        KernelFrame(V());
        var ok := Kfree(p);
        p := p + PGSIZE;
      }
    }

    /** kalloc(), and zero the frame. */
    method ZeroedFrame() returns (r: Option<nat>)
      requires VmInv(V())
      modifies this`mem, this`freelist, this`free
      ensures VmInv(V()) && (r.None? ==> free == [])
      ensures r.Some? ==> Held(V(), r.value) && r.value in old(free) && r.value < |mem| && mem[r.value] == ZERO
      ensures free <= old(free) && |mem| == |old(mem)|
      ensures forall f: nat | Held(old(V()), f) && f < |mem| :: Held(V(), f) && mem[f] == old(mem)[f]
    {
      hide FreeInv, TreeInv, Taken;
      ghost var v := V();
      ghost var f, b;
      if free != [] {
        f, b := Filled(v, ZERO);
      }
      r := Kalloc();
      if r.Some? {
        mem := mem[r.value := ZERO];
        assert V() == b;
        forall h: nat | Held(v, h) && h < |mem| ensures Held(b, h) && b.mem[h] == v.mem[h] {
          PassiveApart(v, h);
          assert Bystander(v, 0, 0, 0, {f}, h);
          assert Still(v, b, h);
        }
      }
    }

    /** kvmalloc(): the kernel's own root, and the table that slot 256 of every tree will share. */
    method Kvmalloc() returns (ok: bool, root: nat)
      requires VmInv(V()) && tab == map[] && use == map[]
      modifies this`mem, this`freelist, this`free, this`kernel
      ensures !ok ==> free == []
      ensures ok ==> VmInv(V()) && kernel in old(free) && kernel !in free && free <= old(free)
      ensures ok ==> kernel < |mem| && forall i | 0 <= i < NENTRIES :: mem[kernel][i] == DirectMap(i)
      ensures ok ==> ReachesDirectly(mem[kernel])
      ensures ok ==> Held(V(), root) && root in old(free) && root < |mem| && kernel < NFRAMES
                     && mem[root] == RootPage(kernel)
    {
      hide FreeInv, TreeInv, ReachesDirectly, Entry, DirectMap;
      KernelFrame(V());
      var kpml4 := ZeroedFrame();
      if kpml4.None? {
        return false, 0;
      }
      var kpdpt := ZeroedFrame();
      if kpdpt.None? {
        return false, 0;
      }
      SwitchKernel(V(), kpml4.value, kpdpt.value);
      mem := mem[kpml4.value := mem[kpml4.value][PMX(KERNBASE) := Entry(kpdpt.value, PTE_P + PTE_W)]];
      mem := mem[kpdpt.value := mem[kpdpt.value][0 := PTE_PS + PTE_P + PTE_W]];
      mem := mem[kpdpt.value := mem[kpdpt.value][3 := 0xC000_0000 + PTE_PS + PTE_P + PTE_W + PTE_PWT + PTE_PCD]];
      kernel := kpdpt.value;
      KernelPage(mem[kernel]);
      KernelMapped(mem[kernel]);
      return true, kpml4.value;
    }

    /** kalloc(): the head of the free list; with an empty list the kernel panics. */
    method Kalloc() returns (r: Option<nat>)
      requires VmInv(V())
      modifies this`freelist, this`free
      ensures r.None? <==> old(free) == []
      ensures r.None? ==> V() == old(V())
      ensures r.Some? ==> V() == Taken(old(V())) && r.value == old(free)[|old(free)| - 1]
      ensures r.Some? ==> free == old(free)[..|old(free)| - 1]
    {
      if freelist == 0 {
        return None;
      }
      var f := (freelist - KERNBASE) / PGSIZE;
      ghost var n := |free| - 1;
      assert FreeOk(V(), n);
      freelist := mem[f][0];
      free := free[..n];
      return Some(f);
    }

    /** kfree(): fill the frame with junk and put it at the head of the list; a bad address is a panic. */
    method Kfree(va: U64) returns (ok: bool)
      requires |mem| == NFRAMES
      modifies this`mem, this`freelist, this`free
      ensures ok <==> va % PGSIZE == 0 && KERNBASE + end * PGSIZE <= va < KERNBASE + NFRAMES * PGSIZE
      ensures !ok ==> V() == old(V())
      ensures ok ==> V() == Returned(old(V()), (va - KERNBASE) / PGSIZE)
      ensures ok ==> var f := (va - KERNBASE) / PGSIZE;
                     && free == old(free) + [f] && freelist == va && |mem| == NFRAMES && f < NFRAMES
                     && mem == old(mem)[f := mem[f]] && mem[f][0] == old(freelist)
                     && forall i | 0 < i < NENTRIES :: mem[f][i] == 0x0101_0101_0101_0101
    {
      if va % PGSIZE != 0 || va < KERNBASE + end * PGSIZE || va - KERNBASE >= NFRAMES * PGSIZE {
        return false;
      }
      var f := (va - KERNBASE) / PGSIZE;
      mem := mem[f := Junk(freelist)];
      freelist := va;
      free := free + [f];
      return true;
    }

    /** One level of walkpgdir(): follow entry i of table t, or put a new table there. */
    method Descend(t: nat, i: nat, alloc: bool, ghost k: Key) returns (r: Walked)
      requires VmInv(V()) && k in tab && tab[k] == t && 2 <= k.level <= 4 && i < NENTRIES
                 && (k.level == 4 ==> i < KSLOT)
      modifies this`mem, this`freelist, this`free, this`tab, this`use
      ensures Grew(old(V()), V())
      ensures r.Found? ==> Child(k, i) in tab && tab[Child(k, i)] == r.table
      ensures r.Null? <==> !alloc && Child(k, i) !in old(tab)
      ensures r.Panic? ==> alloc && free == []
      ensures !alloc ==> V() == old(V())
    {
      hide FreeInv, OnlyPages, Taken;
      OnlyRefl(V());
      assert KeyOk(V(), k) && UseOk(V(), t) && SlotOk(V(), k, i);
      if Present(mem[t][i]) {
        return Found(FrameOf(mem[t][i]));
      }
      if !alloc {
        return Null;
      }
      ghost var f, u;
      if free != [] {
        f, u := NewTable(V(), k, i);
      }
      var p := Kalloc();
      if p.None? {
        return Panic;
      }
      mem := mem[p.value := ZERO];
      mem := mem[t := mem[t][i := Entry(p.value, PTE_P + PTE_W + PTE_U)]];
      tab := tab[Child(k, i) := p.value];
      use := use[p.value := Child(k, i)];
      assert V() == u;
      return Found(p.value);
    }

    /** walkpgdir(): the page table for va; missing tables are added if `alloc`, and no translation changes. */
    method Walkpgdir(root: nat, va: nat, alloc: bool) returns (r: Walked)
      requires VmInv(V()) && Live(V(), root) && va / PGSIZE < USERPAGES
      modifies this`mem, this`freelist, this`free, this`tab, this`use
      ensures Grew(old(V()), V())
      ensures r.Found? ==> var t := Key(root, 1, va / PGSIZE / NENTRIES); t in tab && tab[t] == r.table
      ensures r.Null? <==> !alloc && Key(root, 1, va / PGSIZE / NENTRIES) !in old(tab)
      ensures r.Panic? ==> alloc && free == []
      ensures !alloc ==> V() == old(V())
      ensures r.Found? ==> forall x: Right :: Allows(mem, root, 1, va / PGSIZE / NENTRIES, x)
    {
      hide VmInv, OnlyPages, Allows;
      Split(va);
      RootKey(V(), root);
      ghost var v0 := V();
      ghost var k4 := Key(root, 4, 0);
      ghost var k3, k1 := Child(k4, PMX(va)), Key(root, 1, va / PGSIZE / NENTRIES);
      ghost var k2 := Child(k3, PDPX(va));
      assert k1 == Child(k2, PDX(va));
      Lineage(v0, k1);
      ParentChild(k4, PMX(va));
      ParentChild(k3, PDPX(va));
      ParentChild(k2, PDX(va));
      r := Descend(root, PMX(va), alloc, k4);
      if !r.Found? { return; }
      ghost var v1 := V();
      r := Descend(r.table, PDPX(va), alloc, k3);
      GrewTrans(v0, v1, V());
      if !r.Found? { return; }
      ghost var v2 := V();
      r := Descend(r.table, PDX(va), alloc, k2);
      GrewTrans(v0, v2, V());
      if r.Found? {
        WayOpen(V(), root, va / PGSIZE);
      }
    }

    /** One turn of mappages()'s loop. */
    method MapPage(root: nat, va: nat, pa: nat, perm: nat) returns (r: MapResult)
      requires VmInv(V()) && Live(V(), root) && va / PGSIZE < USERPAGES && perm < PGSIZE
      requires pa % PGSIZE == 0 && Held(V(), pa / PGSIZE)
      modifies this`mem, this`freelist, this`free, this`tab, this`use
      ensures r.Mapped? ==> MapsRange(old(V()), V(), root, va / PGSIZE, 1, pa / PGSIZE, OrPresent(perm))
      ensures r.Remap? ==> Lookup(old(mem), root, va / PGSIZE).Some?
      ensures r.OutOfMemory? ==> free == []
    {
      hide VmInv, Lookup, Grew, MapsRange, Held;
      ghost var v0 := V();
      ghost var pg := va / PGSIZE;
      Split(va);
      var t := Walkpgdir(root, va, true);
      if t.Panic? {
        return OutOfMemory;
      }
      ghost var v1, f := V(), pa / PGSIZE;
      PteOk(v0, v1, root, pg, f);
      if Present(mem[t.table][PTX(va)]) {
        return Remap;
      }
      GrewMaps(v0, v1, root, pg, f, OrPresent(perm));
      ghost var u := LinkMaps(v1, root, pg, f, OrPresent(perm));
      mem := mem[t.table := mem[t.table][PTX(va) := Entry(pa / PGSIZE, OrPresent(perm))]];
      tab := tab[Key(root, 0, pg) := f];
      use := use[f := Key(root, 0, pg)];
      assert V() == u;
      MapsStep(v0, v1, u, root, pg, 0, f, OrPresent(perm));
      return Mapped;
    }

    /** mappages(): map the pages of [va, va + size) to the frames from pa on; an entry in use is a panic. */
    method Mappages(root: nat, va: nat, size: nat, pa: nat, perm: nat) returns (r: MapResult)
      requires VmInv(V()) && Live(V(), root) && 0 < size && (va + size - 1) / PGSIZE < USERPAGES
      requires perm < PGSIZE && pa % PGSIZE == 0
      requires forall f | f in Frames(pa / PGSIZE, Span(va, size)) :: Held(V(), f)
      modifies this`mem, this`freelist, this`free, this`tab, this`use
      ensures r.Mapped? ==>
        MapsRange(old(V()), V(), root, va / PGSIZE, Span(va, size), pa / PGSIZE, OrPresent(perm))
      ensures r.Mapped? ==> forall pg: nat | va / PGSIZE <= pg <= (va + size - 1) / PGSIZE ::
                HasRights(mem, root, pg, OrPresent(perm))
      ensures r.Remap? ==> exists pg: nat | va / PGSIZE <= pg <= (va + size - 1) / PGSIZE ::
                Lookup(old(mem), root, pg).Some?
      ensures r.OutOfMemory? ==> free == []
    {
      hide VmInv, Lookup, MapsRange, Held, Live, HasRights;
      var a, last, pa' := va - va % PGSIZE, (va + size - 1) - (va + size - 1) % PGSIZE, pa;
      ghost var v0, p0, f0, n: nat := V(), va / PGSIZE, pa / PGSIZE, 0;
      StartMaps(v0, root, p0, f0, OrPresent(perm));
      while true
        invariant a % PGSIZE == 0 && a <= last && a / PGSIZE == p0 + n && pa' % PGSIZE == 0 && pa' / PGSIZE == f0 + n
        invariant MapsRange(v0, V(), root, p0, n, f0, OrPresent(perm))
        decreases last - a
      {
        ghost var v1 := V();
        assert f0 + n in Frames(f0, Span(va, size));
        StillHeld(v0, v1, root, p0, n, f0, OrPresent(perm), f0 + n);
        r := MapPage(root, a, pa', perm);
        if r.Remap? {
          assert Lookup(v0.mem, root, p0 + n).Some?;
        }
        if !r.Mapped? {
          return;
        }
        MapsStep(v0, v1, V(), root, p0, n, f0, OrPresent(perm));
        n := n + 1;
        if a == last {
          MapsRights(v0, V(), root, p0, n, f0, OrPresent(perm));
          return;
        }
        a := a + PGSIZE;
        pa' := pa' + PGSIZE;
      }
    }

    /** A frame off the free list, filled with `page`, at page pg of the tree. */
    method PutPage(root: nat, pg: nat, perm: nat, page: Page) returns (ok: bool)
      requires VmInv(V()) && Live(V(), root) && pg < USERPAGES && perm < PGSIZE && Lookup(mem, root, pg) == None
      modifies this`mem, this`freelist, this`free, this`tab, this`use
      ensures ok ==> Puts(old(V()), V(), root, pg, OrPresent(perm), page)
      ensures !ok ==> free == []
    {
      hide VmInv, Lookup, Taken, MapsRange, Held, Puts;
      ghost var v := V();
      ghost var f, b;
      if free != [] {
        f, b := Filled(v, page);
      }
      var m := Kalloc();
      if m.None? {
        return false;
      }
      mem := mem[m.value := page];
      assert V() == b;
      assert Span(pg * PGSIZE, PGSIZE) == 1 && Frames(f, 1) == {f};
      assert Lookup(b.mem, root, pg) == Lookup(v.mem, root, pg);
      var r := Mappages(root, pg * PGSIZE, PGSIZE, m.value * PGSIZE, perm);
      if !r.Mapped? {
        return false;
      }
      PutsDone(v, b, V(), root, pg, OrPresent(perm), page, f);
      return true;
    }

    /**
      allocuvm(): grow from oldsz to newsz by zeroed pages. A panic means that memory is exhausted, so it comes long
      before the addresses reach the kernel's half.
     */
    method Allocuvm(root: nat, oldsz: nat, newsz: U64) returns (r: Option<nat>)
      requires VmInv(V()) && Live(V(), root) && 0 < oldsz && Shape(V(), root, oldsz)
      modifies this`mem, this`freelist, this`free, this`tab, this`use
      ensures r.None? ==> free == []
      ensures r.Some? ==> r.value == if newsz >= KERNBASE then 0 else if newsz < oldsz then oldsz else newsz
      ensures r.Some? && oldsz <= newsz < KERNBASE ==>
        Grows(old(V()), V(), root, Up(oldsz), Up(newsz)) && Shape(V(), root, newsz)
      ensures newsz >= KERNBASE || newsz < oldsz ==> r.Some? && V() == old(V())
      ensures r.Some? && oldsz <= newsz < KERNBASE ==>
        forall pg: nat, x: Right | Up(oldsz) <= pg < Up(newsz) :: Allows(mem, root, 0, pg, x)
    {
      hide VmInv, Lookup, Grows, Puts, Shape, Allows;
      if newsz >= KERNBASE {
        return Some(0);
      }
      if newsz < oldsz {
        return Some(oldsz);
      }
      ghost var v, lo := V(), Up(oldsz);
      var a := (oldsz + PGSIZE - 1) / PGSIZE * PGSIZE;
      GrowsNone(v, root, lo);
      ShapeUp(v, root, oldsz);
      while a < newsz
        invariant a % PGSIZE == 0 && lo <= a / PGSIZE && (a < newsz + PGSIZE)
        invariant Grows(v, V(), root, lo, a / PGSIZE)
        decreases newsz - a
      {
        ghost var w, pg := V(), a / PGSIZE;
        Fits(v, w, root, lo, pg);
        var ok := PutPage(root, a / PGSIZE, PTE_W + PTE_U, ZERO);
        if !ok {
          return None;
        }
        GrowsStep(v, w, V(), root, lo, pg);
        a := a + PGSIZE;
      }
      assert a / PGSIZE == Up(newsz);
      ShapeGrows(v, V(), root, lo, a / PGSIZE);
      ShapeUp(V(), root, newsz);
      GrowsRights(v, V(), root, lo, a / PGSIZE);
      return Some(newsz);
    }

    /** One turn of deallocuvm()'s loop. The panics of kfree() are out of reach. */
    method DropPage(root: nat, va: nat) returns (ok: bool)
      requires VmInv(V()) && Live(V(), root) && va / PGSIZE < USERPAGES
      modifies this`mem, this`freelist, this`free, this`tab, this`use
      ensures ok && Shrinks(old(V()), V(), root, va / PGSIZE, va / PGSIZE + 1)
    {
      hide VmInv, Lookup, Shrinks, Grew;
      ghost var v, pg := V(), va / PGSIZE;
      Split(va);
      var t := Walkpgdir(root, va, false);
      PteState(v, root, pg);
      if t.Found? && Present(mem[t.table][PTX(va)]) {
        var f := FrameOf(mem[t.table][PTX(va)]);
        ghost var u := ShrinksPage(v, root, pg);
        if f == 0 {
          return false;
        }
        ok := Kfree(KERNBASE + f * PGSIZE);
        mem := mem[t.table := mem[t.table][PTX(va) := 0]];
        tab := Cut(tab, Key(root, 0, pg));
        use := Disused(use, f);
        assert V() == u;
      } else {
        ShrinksAbsent(v, root, pg);
        ok := true;
      }
    }

    /** deallocuvm(): unmap and free exactly the pages of [PGROUNDUP(newsz), oldsz). */
    method Deallocuvm(root: nat, oldsz: nat, newsz: U64) returns (r: nat)
      requires VmInv(V()) && Live(V(), root) && oldsz <= USERPAGES * PGSIZE
      modifies this`mem, this`freelist, this`free, this`tab, this`use
      ensures r == if newsz >= oldsz then oldsz else newsz
      ensures newsz >= oldsz ==> V() == old(V())
      ensures newsz < oldsz ==> Shrinks(old(V()), V(), root, Up(newsz), Up(oldsz))
    {
      hide VmInv, Lookup, Shrinks;
      if newsz >= oldsz {
        return oldsz;
      }
      ghost var v, lo := V(), Up(newsz);
      var a := (newsz + PGSIZE - 1) / PGSIZE * PGSIZE;
      ShrinksNone(v, root, lo);
      while a < oldsz
        invariant a % PGSIZE == 0 && lo <= a / PGSIZE && a < oldsz + PGSIZE
        invariant Shrinks(v, V(), root, lo, a / PGSIZE)
      {
        ghost var w, pg := V(), a / PGSIZE;
        ShrinksLive(v, w, root, lo, pg);
        var ok := DropPage(root, a);
        ShrinksStep(v, w, V(), root, lo, pg);
        a := a + PGSIZE;
      }
      assert a / PGSIZE == Up(oldsz);
      return newsz;
    }

    /** growproc() on a process with tree `root` and size sz. */
    method Growproc(root: nat, sz: nat, n: int) returns (r: Option<int>, sz': nat)
      requires VmInv(V()) && Live(V(), root) && 0 < sz && Shape(V(), root, sz)
      requires -0x8000_0000_0000_0000 <= n < 0x8000_0000_0000_0000
      modifies this`mem, this`freelist, this`free, this`tab, this`use
      ensures r.None? ==> n > 0 && free == []
      ensures r.Some? ==> r.value == if sz + n >= KERNBASE || (n < 0 && sz + n == 0) then -1 else 0
      ensures r.Some? ==> sz' == if sz + n >= KERNBASE || sz + n <= 0 then sz else sz + n
      ensures n > 0 && r == Some(0) ==> Grows(old(V()), V(), root, Up(sz), Up(sz + n))
      ensures n < 0 && sz + n >= 0 ==> Shrinks(old(V()), V(), root, Up(sz + n), Up(sz))
      ensures n == 0 || sz + n < 0 || sz + n >= KERNBASE ==> V() == old(V())
      ensures r.Some? ==> (Shape(V(), root, sz') <==> !(n < 0 && sz + n == 0) || Up(sz) <= 1)
    {
      hide VmInv, Lookup, Grows, Shrinks, Shape;
      ghost var v := V();
      ShapeBound(v, root, sz);
      sz' := sz;
      var s := sz;
      if n > 0 {
        var t := Allocuvm(root, sz, sz + n);
        if t.None? {
          return None, sz;
        }
        s := t.value;
        if s == 0 {
          return Some(-1), sz;
        }
      } else if n < 0 {
        s := Deallocuvm(root, sz, (sz + n) % 0x1_0000_0000_0000_0000);
        if sz + n >= 0 {
          ShapeShrinks(v, V(), root, sz, sz + n);
        }
        if s == 0 {
          ShapeZero(V(), root, sz);
          return Some(-1), sz;
        }
      }
      return Some(0), s;
    }

    /** setupkvm(): a new tree that maps nothing but what all trees share. */
    method Setupkvm() returns (d: Option<nat>)
      requires VmInv(V())
      modifies this`mem, this`freelist, this`free, this`tab, this`use
      ensures d.None? ==> free == []
      ensures d.Some? ==> NewTree(old(V()), V(), d.value)
    {
      hide FreeInv, TreeInv, Lookup, Taken;
      ghost var v := V();
      ghost var f, b, u;
      if free != [] {
        KernelFrame(v);
        f, b := Filled(v, RootPage(kernel));
        u := Planted(v, b, f);
      }
      d := Kalloc();
      if d.None? {
        return;
      }
      KernelFrame(v);
      mem := mem[d.value := ZERO];
      mem := mem[d.value := mem[d.value][KSLOT := Entry(kernel, PTE_P + PTE_W)]];
      tab := tab[Key(d.value, 4, 0) := d.value];
      use := use[d.value := Key(d.value, 4, 0)];
      assert V() == u;
    }

    /** copyuvm(): a new tree with copies of pages 1 to Up(sz); a page that is not there is a panic. */
    method Copyuvm(root: nat, sz: nat) returns (r: Option<nat>)
      requires VmInv(V()) && Live(V(), root) && sz < 0x1_0000_0000
      modifies this`mem, this`freelist, this`free, this`tab, this`use
      ensures r.None? ==> free == [] || exists pg: nat | 1 <= pg < Up(sz) :: Lookup(old(mem), root, pg) == None
      ensures r.Some? ==> Copies(old(V()), V(), root, r.value, if sz == 0 then 1 else Up(sz))
      ensures r.Some? ==> forall pg: nat, x: Right | 1 <= pg < Up(sz) ::
                Allows(mem, r.value, 0, pg, x) <==> Allows(old(mem), root, 0, pg, x)
    {
      hide VmInv, Lookup, Copies, Puts, NewTree, Up, Allows;
      ghost var v := V();
      r := Setupkvm();
      if r.None? {
        return;
      }
      var d := r.value;
      CopiesNone(v, V(), root, d);
      var i := PGSIZE;
      while i < sz
        invariant i % PGSIZE == 0 && PGSIZE <= i < sz + 2 * PGSIZE && (i == PGSIZE || i < sz + PGSIZE)
        invariant Copies(v, V(), root, d, i / PGSIZE)
      {
        ghost var w, pg := V(), i / PGSIZE;
        NextPage(i, sz);
        CopiesLive(v, w, root, d, pg);
        SourcePage(v, w, root, d, pg);
        Split(i);
        PteState(w, root, pg);
        var t := Walkpgdir(root, i, false);
        if t.Null? || !Present(mem[t.table][PTX(i)]) {
          return None;
        }
        var e := mem[t.table][PTX(i)];
        var page := mem[FrameOf(e)];
        var ok := PutPage(d, i / PGSIZE, FlagsOf(e), page);
        if !ok {
          return None;
        }
        PutsSize(w, V(), d, pg, FlagsOf(e), page);
        CopiesStep(v, w, V(), root, d, pg, e);
        i := i + PGSIZE;
      }
      PagesDone(i, sz);
      CopiesRights(v, V(), root, d, i / PGSIZE);
    }

    /** kfree() of a frame of the tree that is being torn down. */
    method FreeFrame(f: nat, ghost v: Space, ghost s: set<nat>)
      requires VmInv(v) && Freeing(v, V(), s) && f in v.use && f !in s
      modifies this`mem, this`freelist, this`free, this`use
      ensures Freeing(v, V(), s + {f})
    {
      hide FreeInv, TreeInv;
      FreeingOne(v, V(), s, f);
      var ok := Kfree(KERNBASE + f * PGSIZE);
      use := Disused(use, f);
    }

    /** freevm()'s nested loops, one level a call: free what the table leads to, and then the table. */
    method FreeTable(t: nat, level: nat, ghost k: Key, ghost v: Space, ghost s: set<nat>)
      requires VmInv(v) && k in v.tab && v.tab[k] == t && k.level == level && 1 <= level <= 4
      requires Freeing(v, V(), s) && s !! FramesUnder(v, k)
      modifies this`mem, this`freelist, this`free, this`use
      ensures Freeing(v, V(), s + FramesUnder(v, k))
      decreases level
    {
      hide VmInv, Freeing, FramesUnder, FramesBelow;
      var n := if level == 4 then KSLOT else NENTRIES;
      TableParts(v, k);
      assert s + FramesBelow(v, k, 0) == s;
      for i := 0 to n
        invariant Freeing(v, V(), s + FramesBelow(v, k, i))
      {
        ghost var c, s1 := Child(k, i), s + FramesBelow(v, k, i);
        ReadEntry(v, V(), k, i, n, s);
        BelowNext(v, k, i);
        if Present(mem[t][i]) {
          var f := FrameOf(mem[t][i]);
          if level == 1 {
            FreeFrame(f, v, s1);
          } else {
            FreeTable(f, level - 1, c, v, s1);
          }
        } else {
          assert s1 + FramesUnder(v, c) == s1;
        }
        assert s + FramesBelow(v, k, i + 1) == s1 + FramesUnder(v, c);
      }
      FreeFrame(t, v, s + FramesBelow(v, k, n));
      assert s + FramesUnder(v, k) == s + FramesBelow(v, k, n) + {t};
    }

    /** freevm(): every frame of the tree goes back to the free list, once, and the kernel's table stays. */
    method Freevm(root: nat)
      requires VmInv(V()) && Live(V(), root)
      modifies this`mem, this`freelist, this`free, this`tab, this`use
      ensures TornDown(old(V()), V(), root)
    {
      hide VmInv, Freeing, FramesUnder;
      ghost var v, k := V(), Key(root, 4, 0);
      RootKey(v, root);
      FreeingNone(v);
      FreeTable(root, 4, k, v, {});
      assert {} + FramesUnder(v, k) == FramesUnder(v, k);
      ghost var w := V();
      FreeingTab(v, w, FramesUnder(v, k));
      tab := map q | q in tab && q.root != root :: tab[q];
      TornDownDone(v, w, V(), root);
    }

    /** clearpteu(): take the user bit from a page; an address without a page table is a panic. */
    method Clearpteu(root: nat, va: nat) returns (ok: bool)
      requires VmInv(V()) && Live(V(), root) && va / PGSIZE < USERPAGES
      modifies this`mem, this`freelist, this`free, this`tab, this`use
      ensures !ok <==> Key(root, 1, va / PGSIZE / NENTRIES) !in old(tab)
      ensures !ok ==> V() == old(V())
      ensures ok ==> OnlyPages(old(V()), V(), root, va / PGSIZE, va / PGSIZE + 1, {}) && Pool(V()) == Pool(old(V()))
      ensures match Lookup(old(mem), root, va / PGSIZE)
              case None => Lookup(mem, root, va / PGSIZE) == None
              case Some(e) => ok && Lookup(mem, root, va / PGSIZE) == Some(NoUser(e))
      ensures !Allows(mem, root, 0, va / PGSIZE, Users)
    {
      hide VmInv, Lookup, Grew, OnlyPages, Allows;
      ghost var v, pg := V(), va / PGSIZE;
      PteState(v, root, pg);
      Split(va);
      var t := Walkpgdir(root, va, false);
      if t.Null? {
        RightsAreLeaf(v, root, pg, Users);
        return false;
      }
      var e := mem[t.table][PTX(va)];
      mem := mem[t.table := mem[t.table][PTX(va) := NoUser(e)]];
      Reflagged(v, V(), root, pg, NoUser(e));
      OnlyLive(v, V(), root, pg);
      RightsAreLeaf(V(), root, pg, Users);
      return true;
    }

    /** uva2ka(): the kernel's address of a user page; null unless it is present and a user page. */
    method Uva2ka(root: nat, va: nat) returns (r: Option<U64>)
      requires VmInv(V()) && Live(V(), root) && va / PGSIZE < USERPAGES
      modifies this`mem, this`freelist, this`free, this`tab, this`use
      ensures V() == old(V())
      ensures r == match Lookup(mem, root, va / PGSIZE)
                   case None => None
                   case Some(e) => if UserBit(e) then Some(KERNBASE + FrameOf(e) * PGSIZE) else None
    {
      hide VmInv, Lookup, Grew;
      PteState(V(), root, va / PGSIZE);
      Split(va);
      var t := Walkpgdir(root, va, false);
      if t.Null? || !Present(mem[t.table][PTX(va)]) || !UserBit(mem[t.table][PTX(va)]) {
        return None;
      }
      return Some(KERNBASE + FrameOf(mem[t.table][PTX(va)]) * PGSIZE);
    }
  }

  lemma WayOpen(v: Space, root: nat, pg: nat)
    requires VmInv(v) && Live(v, root) && pg < USERPAGES && Key(root, 1, pg / NENTRIES) in v.tab
    ensures forall x: Right :: Allows(v.mem, root, 1, pg / NENTRIES, x)
  {
    hide VmInv, Allows;
    UserPage(pg);
    forall x: Right ensures Allows(v.mem, root, 1, pg / NENTRIES, x) {
      TablesOpen(v, Key(root, 1, pg / NENTRIES), x);
    }
  }

  /** The loop of copyuvm() is at a page below sz. */
  lemma NextPage(i: nat, sz: nat)
    requires i % PGSIZE == 0 && PGSIZE <= i < sz
    ensures 1 <= i / PGSIZE < Up(sz) && (i + PGSIZE) % PGSIZE == 0 && (i + PGSIZE) / PGSIZE == i / PGSIZE + 1
  {
  }

  lemma PagesDone(i: nat, sz: nat)
    requires i % PGSIZE == 0 && PGSIZE <= i && sz <= i && (i == PGSIZE || i < sz + PGSIZE)
    ensures i / PGSIZE == (if sz == 0 then 1 else Up(sz)) && Up(sz) <= i / PGSIZE
  {
  }

  const PTE_PWT := 8
  const PTE_PCD := 16
  const PTE_PS := 128

  /** The kernel maps the first GiB of memory, and the fourth for devices, uncached. */
  function DirectMap(i: nat): U64 {
    if i == 0 then PTE_PS + PTE_P + PTE_W
    else if i == 3 then 0xC000_0000 + PTE_PS + PTE_P + PTE_W + PTE_PWT + PTE_PCD
    else 0
  }

  /** The processor's walk from the kernel's table on, whose entries are for pages of 1 GiB: where va leads, if the
      entry is present, huge and writable, and not the user's. */
  function KernelWalk(page: Page, va: nat): Option<nat> {
    var e := page[PDPX(va)];
    if Present(e) && e / PTE_PS % 2 == 1 && WriteBit(e) && !UserBit(e)
    then Some(e / 0x4000_0000 * 0x4000_0000 + va % 0x4000_0000) else None
  }

  /** Of the 512 GiB from KERNBASE on, the first and the fourth lead to the physical address, and nothing else does. */
  ghost predicate ReachesDirectly(page: Page) {
    forall pa: nat | pa < 0x80_0000_0000 :: ReachesAt(page, pa)
  }

  predicate ReachesAt(page: Page, pa: nat) {
    KernelWalk(page, KERNBASE + pa) ==
    if pa < 0x4000_0000 || 0xC000_0000 <= pa < 0x1_0000_0000 then Some(pa) else None
  }

  lemma KernelMapped(page: Page)
    requires forall i | 0 <= i < NENTRIES :: page[i] == DirectMap(i)
    ensures ReachesDirectly(page)
  {
    forall pa: nat | pa < 0x80_0000_0000 ensures ReachesAt(page, pa) {
      GigaOf(pa);
      assert page[PDPX(KERNBASE + pa)] == DirectMap(pa / 0x4000_0000);
    }
  }

  lemma KernelPage(page: Page)
    requires page == ZERO[0 := PTE_PS + PTE_P + PTE_W]
                         [3 := 0xC000_0000 + PTE_PS + PTE_P + PTE_W + PTE_PWT + PTE_PCD]
    ensures forall i | 0 <= i < NENTRIES :: page[i] == DirectMap(i)
  {
  }

  lemma GigaIs(x: nat, q: nat, t: nat)
    requires x == 0x4000_0000 * q + t && t < 0x4000_0000
    ensures x / 0x4000_0000 == q && x % 0x4000_0000 == t
  {
  }

  lemma GigaOf(pa: nat)
    requires pa < 0x80_0000_0000
    ensures PDPX(KERNBASE + pa) == pa / 0x4000_0000 < NENTRIES && (KERNBASE + pa) % 0x4000_0000 == pa % 0x4000_0000
    ensures pa == pa / 0x4000_0000 * 0x4000_0000 + pa % 0x4000_0000
  {
    var q, t := pa / 0x4000_0000, pa % 0x4000_0000;
    assert KERNBASE == 0x4000_0000 * 0x3_FFFE_0000;
    assert KERNBASE + pa == 0x4000_0000 * (0x3_FFFE_0000 + q) + t;
    GigaIs(KERNBASE + pa, 0x3_FFFE_0000 + q, t);
    assert 0x3_FFFE_0000 + q == 512 * 0x1FF_FF00 + q;
  }

  predicate WholeFrame(vstart: nat, vend: nat, f: nat) {
    vstart <= KERNBASE + f * PGSIZE && KERNBASE + f * PGSIZE + PGSIZE <= vend
  }

  /** e & !PTE_U. */
  function NoUser(e: U64): (r: U64)
    ensures FrameOf(r) == FrameOf(e) && (Present(r) <==> Present(e)) && !UserBit(r)
    ensures UserBit(e) ==> r + PTE_U == e
  {
    if UserBit(e) then Octal(e); e - PTE_U else e
  }

  /** An entry with the user bit, taken apart: page number, flags from the bit up, flags below it. */
  lemma Octal(e: nat)
    requires e / PTE_U % 2 == 1
    ensures e >= PTE_U && (e - PTE_U) / PGSIZE == e / PGSIZE && (e - PTE_U) % 2 == e % 2 && (e - PTE_U) / PTE_U % 2 == 0
  {
    var a, c := e / PGSIZE, e % PGSIZE;
    var k, t := c / PTE_U, c % PTE_U;
    assert e == PTE_U * (1024 * a + k) + t;
    QuarterIs(e, 1024 * a + k, t);
    Odd(1024 * a + k, 512 * a, k);
    PageIs(e - PTE_U, a, c - PTE_U);
    QuarterIs(e - PTE_U, 1024 * a + k - 1, t);
    ParityIs(e - PTE_U, e / 2 - 2, e % 2);
  }

  lemma QuarterIs(x: nat, q: nat, t: nat)
    requires x == PTE_U * q + t && t < PTE_U
    ensures x / PTE_U == q
  {
  }

  lemma ParityIs(x: nat, h: nat, p: nat)
    requires x == 2 * h + p && p < 2
    ensures x % 2 == p
  {
  }

  lemma PageIs(x: nat, a: nat, c: nat)
    requires x == PGSIZE * a + c && c < PGSIZE
    ensures x / PGSIZE == a
  {
  }

  lemma Odd(q: nat, h: nat, k: nat)
    requires q == 2 * h + k && q % 2 == 1
    ensures k >= 1 && (q - 1) % 2 == 0
  {
  }

  /** Other flags in an entry, for the same frame: the translation of its page gets them, and nothing else changes. */
  lemma Reflagged(v: Space, w: Space, root: nat, pg: nat, e: U64)
    requires VmInv(v) && Live(v, root) && pg < USERPAGES && Key(root, 1, pg / NENTRIES) in v.tab
    requires var t := v.tab[Key(root, 1, pg / NENTRIES)];
             && t < NFRAMES == |v.mem| && w == v.(mem := v.mem[t := v.mem[t][pg % NENTRIES := e]])
             && (Present(e) <==> Present(v.mem[t][pg % NENTRIES]))
             && FrameOf(e) == FrameOf(v.mem[t][pg % NENTRIES])
    ensures OnlyPages(v, w, root, pg, pg + 1, {})
    ensures Lookup(w.mem, root, pg) == if Lookup(v.mem, root, pg).Some? then Some(e) else None
  {
    hide Lookup;
    var k := Key(root, 1, pg / NENTRIES);
    ReflaggedInv(v, w, k, pg % NENTRIES, e);
    assert KeyOk(v, k);
    forall r, pg': nat | Live(v, r) && pg' < USERPAGES
      ensures Lookup(w.mem, r, pg') ==
                if r == root && pg' == pg && Lookup(v.mem, root, pg).Some? then Some(e) else Lookup(v.mem, r, pg')
    {
      LookupIsLeaf(v, r, pg');
      LookupIsLeaf(w, r, pg');
      var t := Key(r, 1, pg' / NENTRIES);
      assert t in v.tab ==> KeyOk(v, t);
      ChildParent(Key(r, 0, pg'));
      ChildParent(Key(root, 0, pg));
    }
    forall f | Bystander(v, root, pg, pg + 1, {}, f) ensures Still(v, w, f) {
      PassiveApart(v, f);
      assert UseOk(v, v.tab[k]);
    }
  }

  lemma OnlyLive(v: Space, w: Space, root: nat, pg: nat)
    requires OnlyPages(v, w, root, pg, pg + 1, {}) && Live(v, root)
    ensures VmInv(w) && Live(w, root)
  {
  }

  lemma ReflaggedInv(v: Space, w: Space, k: Key, i: nat, e: U64)
    requires VmInv(v) && k in v.tab && k.level == 1 && i < NENTRIES && v.tab[k] < NFRAMES == |v.mem|
    requires w == v.(mem := v.mem[v.tab[k] := v.mem[v.tab[k]][i := e]])
    requires (Present(e) <==> Present(v.mem[v.tab[k]][i])) && FrameOf(e) == FrameOf(v.mem[v.tab[k]][i])
    ensures VmInv(w)
  {
    assert KeyOk(v, k);
    forall q | q in w.tab ensures KeyOk(w, q) { assert KeyOk(v, q); }
    forall f | f in w.use ensures UseOk(w, f) { assert UseOk(v, f); }
    forall q, j | q in w.tab && q.level >= 1 && 0 <= j < NENTRIES ensures SlotOk(w, q, j) {
      assert SlotOk(v, q, j) && KeyOk(v, q);
    }
    forall j | 0 <= j < |w.free| ensures FreeOk(w, j) { assert FreeOk(v, j); }
  }

  /** Two frames that are held become the kernel's tables. */
  lemma SwitchKernel(v: Space, f: nat, g: nat)
    requires VmInv(v) && v.tab == map[] && v.use == map[] && Held(v, f) && Held(v, g)
    ensures forall mem: seq<Page> | |mem| == NFRAMES
              && (forall h | 0 <= h < NFRAMES && h != f && h != g :: mem[h] == v.mem[h]) ::
              VmInv(v.(mem := mem, kernel := g))
  {
    forall mem: seq<Page> | |mem| == NFRAMES && (forall h | 0 <= h < NFRAMES && h != f && h != g :: mem[h] == v.mem[h])
      ensures VmInv(v.(mem := mem, kernel := g))
    {
      var w := v.(mem := mem, kernel := g);
      forall j | 0 <= j < |w.free| ensures FreeOk(w, j) {
        assert FreeOk(v, j);
        assert v.free[j] in v.free;
      }
    }
  }

  // ---- what a fork gets ----

  /**
    The copy of a space of size sz is a space of size sz, page for page with the same flags and contents and no frame
    in common; and a size fits in the 32 bits that copyuvm() takes.
   */
  lemma ForkShape(v: Space, w: Space, root: nat, d: nat, sz: nat, pg: nat)
    requires 0 < sz && Shape(v, root, sz) && Live(v, root) && Copies(v, w, root, d, Up(sz)) && pg < USERPAGES
    ensures sz < 0x1_0000_0000 && Shape(w, d, sz)
    ensures Lookup(w.mem, root, pg) == Lookup(v.mem, root, pg)
    ensures match (Lookup(v.mem, root, pg), Lookup(w.mem, d, pg))
            case (None, None) => true
            case (Some(e), Some(c)) =>
              FlagsOf(c) == FlagsOf(e) && FrameOf(c) != FrameOf(e) && FrameOf(e) < |v.mem| && FrameOf(c) < |w.mem|
              && w.mem[FrameOf(c)] == v.mem[FrameOf(e)] == w.mem[FrameOf(e)]
            case _ => false
  {
    hide FreeInv, Lookup;
    ShapeBound(v, root, sz);
    ShapeUp(w, d, sz);
    assert Lookup(v.mem, root, pg).Some? <==> 1 <= pg < Up(sz);
    assert Lookup(w.mem, d, pg).Some? <==> 1 <= pg < Up(sz);
    if 1 <= pg < Up(sz) {
      assert CopiedPage(v, w, root, d, pg);
      LookupIsLeaf(v, root, pg);
      var k := Key(root, 0, pg);
      assert KeyOk(v, k);
      UsedNotFree(v, v.tab[k]);
      assert Bystander(v, d, 1, Up(sz), {}, v.tab[k]);
      assert Still(v, w, v.tab[k]);
    }
  }

  // ---- whole runs ----

  /** clearpteu() on a page. */
  ghost predicate Reflags(v: Space, w: Space, root: nat, pg: nat) {
    OnlyPages(v, w, root, pg, pg + 1, {}) && Pool(w) == Pool(v)
  }

  /** Stores into memory: by process r into its own pages (its instructions, or copyout() and loaduvm() for it), or by
      the kernel into frames it holds, such as kernel stacks. */
  ghost predicate Stores(v: Space, w: Space, r: nat) {
    && VmInv(v) && |w.mem| == |v.mem| && w == v.(mem := w.mem)
    && forall f | 0 <= f < |v.mem| && w.mem[f] != v.mem[f] :: Held(v, f) || OwnPage(v, r, f)
  }

  ghost predicate OwnPage(v: Space, r: nat, f: nat) {
    f in v.use && v.use[f].level == 0 && v.use[f].root == r
  }

  lemma StoresKeep(v: Space, w: Space, r: nat)
    requires Stores(v, w, r)
    ensures VmInv(w) && Pool(w) == Pool(v) && w.mem[v.kernel] == v.mem[v.kernel]
    ensures forall k | k in v.tab && k.level >= 1 :: v.tab[k] < |v.mem| && w.mem[v.tab[k]] == v.mem[v.tab[k]]
  {
    forall k | k in v.tab
      ensures KeyOk(w, k) && v.tab[k] < |v.mem| && (k.level >= 1 ==> w.mem[v.tab[k]] == v.mem[v.tab[k]])
    {
      assert KeyOk(v, k) && UseOk(v, v.tab[k]);
    }
    forall f | f in v.use ensures UseOk(w, f) { assert UseOk(v, f); }
    forall k, i | k in v.tab && k.level >= 1 && 0 <= i < NENTRIES
      ensures SlotOk(w, k, i) { assert SlotOk(v, k, i) && KeyOk(w, k); }
    forall i | 0 <= i < |v.free| ensures FreeOk(w, i) { assert FreeOk(v, i); }
    KernelApart(v);
  }

  /** kalloc() or kfree() of a frame that is no part of a tree: a kernel stack or the page of a pipe. */
  ghost predicate Borrows(v: Space, w: Space) {
    && VmInv(v)
    && ((v.free != [] && w == Taken(v)) || exists f: nat :: Held(v, f) && f < |v.mem| && w == Returned(v, f))
  }

  /** The frames that somebody took and did not put in a tree. */
  ghost function HeldSet(v: Space): set<nat> {
    set f: nat | v.end <= f < NFRAMES && Held(v, f)
  }

  /** Every frame after the kernel image, but for the kernel's table, is free, in a tree or held, and only one of
      these. */
  lemma PoolAndHeld(v: Space)
    requires VmInv(v)
    ensures Pool(v) !! HeldSet(v)
    ensures forall f: nat :: f in Pool(v) + HeldSet(v) <==> v.end <= f < NFRAMES && f != v.kernel
  {
    forall f | f in v.use ensures v.end <= f < NFRAMES && f != v.kernel { assert UseOk(v, f); }
    forall i | 0 <= i < |v.free| ensures v.end <= v.free[i] < NFRAMES && v.free[i] != v.kernel { assert FreeOk(v, i); }
  }

  lemma BorrowsKeep(v: Space, w: Space)
    requires Borrows(v, w)
    ensures VmInv(w) && w.kernel == v.kernel && w.end == v.end && w.tab == v.tab && w.use == v.use
    ensures |v.mem| == |w.mem| == NFRAMES && forall f | 0 <= f < NFRAMES && !Held(v, f) :: w.mem[f] == v.mem[f]
  {
    if v.free != [] && w == Taken(v) {
      TakenInv(v);
    } else {
      var f: nat :| Held(v, f) && f < |v.mem| && w == Returned(v, f);
      ReturnedInv(v, f);
    }
  }

  /** One operation on tree r, or stores by its process, or the kernel taking or giving back a frame. */
  ghost predicate Step(v: Space, w: Space, r: nat) {
    || (exists lo, hi :: Grows(v, w, r, lo, hi))
    || (exists lo, hi :: Shrinks(v, w, r, lo, hi))
    || (exists pg :: Reflags(v, w, r, pg))
    || NewTree(v, w, r)
    || (exists root, hi :: Copies(v, w, root, r, hi))
    || TornDown(v, w, r)
    || Stores(v, w, r)
    || Borrows(v, w)
  }

  lemma StepKeeps(v: Space, w: Space, r: nat)
    requires Step(v, w, r)
    ensures VmInv(v) && VmInv(w) && w.kernel == v.kernel && w.end == v.end && w.kernel !in w.free
    ensures Borrows(v, w) || Pool(w) == Pool(v)
    ensures |v.mem| == |w.mem| == NFRAMES && w.mem[v.kernel] == v.mem[v.kernel]
  {
    if Stores(v, w, r) {
      StoresKeep(v, w, r);
      KernelApart(w);
      PassiveApart(w, w.kernel);
    } else if Borrows(v, w) {
      BorrowsKeep(v, w);
      KernelApart(w);
      PassiveApart(w, w.kernel);
    } else {
      hide VmInv, Lookup;
      assert Still(v, w, v.kernel) by { KernelApart(v); }
    }
  }

  lemma KernelApart(v: Space)
    requires VmInv(v)
    ensures Passive(v, v.kernel) && v.kernel !in v.use
  {
    assert v.kernel in v.use ==> UseOk(v, v.kernel);
  }

  /** Page pg of tree q translates as before, to a frame that holds what it held. */
  ghost predicate SamePage(v: Space, w: Space, q: nat, pg: nat) {
    && Lookup(w.mem, q, pg) == Lookup(v.mem, q, pg)
    && match Lookup(v.mem, q, pg)
       case None => true
       case Some(e) => FrameOf(e) < |v.mem| == |w.mem| && w.mem[FrameOf(e)] == v.mem[FrameOf(e)]
  }

  /** Tables and the frame of the page are as they were. */
  lemma SparedPage(v: Space, w: Space, q: nat, pg: nat)
    requires VmInv(v) && VmInv(w) && w.tab == v.tab && w.use == v.use && |v.mem| == |w.mem| && Live(v, q)
               && pg < USERPAGES
    requires forall k | k in v.tab && (k.level >= 1 || k == Key(q, 0, pg)) ::
               v.tab[k] < |v.mem| && w.mem[v.tab[k]] == v.mem[v.tab[k]]
    ensures SamePage(v, w, q, pg)
  {
    hide FreeInv, Lookup;
    LookupIsLeaf(v, q, pg);
    LookupIsLeaf(w, q, pg);
    PteState(v, q, pg);
    PteState(w, q, pg);
  }

  lemma StoresSpare(v: Space, w: Space, r: nat, q: nat, pg: nat)
    requires Stores(v, w, r) && q != r && Live(v, q) && pg < USERPAGES
    ensures SamePage(v, w, q, pg)
  {
    hide FreeInv, Lookup;
    StoresKeep(v, w, r);
    var k := Key(q, 0, pg);
    if k in v.tab {
      assert KeyOk(v, k) && UseOk(v, v.tab[k]);
    }
    SparedPage(v, w, q, pg);
  }

  lemma BorrowsSpare(v: Space, w: Space, q: nat, pg: nat)
    requires Borrows(v, w) && Live(v, q) && pg < USERPAGES
    ensures SamePage(v, w, q, pg)
  {
    hide FreeInv, Lookup;
    BorrowsKeep(v, w);
    forall k | k in v.tab ensures v.tab[k] < |v.mem| && w.mem[v.tab[k]] == v.mem[v.tab[k]] {
      assert KeyOk(v, k) && UseOk(v, v.tab[k]);
    }
    SparedPage(v, w, q, pg);
  }

  lemma StepSpares(v: Space, w: Space, r: nat, q: nat, pg: nat)
    requires Step(v, w, r) && q != r && Live(v, q) && pg < USERPAGES
    ensures Live(w, q) && SamePage(v, w, q, pg)
  {
    if Stores(v, w, r) {
      StoresSpare(v, w, r, q, pg);
    } else if Borrows(v, w) {
      BorrowsKeep(v, w);
      BorrowsSpare(v, w, q, pg);
    } else {
      PteState(v, q, pg);
      var k := Key(q, 0, pg);
      if Lookup(v.mem, q, pg).Some? {
        assert KeyOk(v, k);
      }
      hide VmInv, Lookup;
      if k in v.tab && Lookup(v.mem, q, pg).Some? {
        assert Passive(v, v.tab[k]) && v.use[v.tab[k]].root == q;
        assert Still(v, w, v.tab[k]);
      }
    }
  }

  /** The states of a run, and the tree each step works on. */
  ghost predicate Run(s: seq<Space>, rs: seq<nat>) {
    |s| == |rs| + 1 && forall i | 0 <= i < |rs| :: Step(s[i], s[i + 1], rs[i])
  }

  lemma RunFront(s: seq<Space>, rs: seq<nat>)
    requires Run(s, rs) && |rs| > 0
    ensures Run(s[..|rs|], rs[..|rs| - 1]) && Step(s[|rs| - 1], s[|rs|], rs[|rs| - 1])
  {
    hide Step;
  }

  /** Whatever is done to other trees, and whatever other processes store, a process's translations and the contents
      of its pages stay as they are. */
  lemma {:induction false} Isolation(s: seq<Space>, rs: seq<nat>, q: nat, pg: nat)
    requires Run(s, rs) && VmInv(s[0]) && Live(s[0], q) && q !in rs && pg < USERPAGES
    ensures Live(s[|rs|], q) && SamePage(s[0], s[|rs|], q, pg)
    decreases |rs|
  {
    hide Step, Lookup;
    if rs == [] {
      PteState(s[0], q, pg);
    } else {
      RunFront(s, rs);
      Isolation(s[..|rs|], rs[..|rs| - 1], q, pg);
      StepSpares(s[|rs| - 1], s[|rs|], rs[|rs| - 1], q, pg);
    }
  }

  /** No step of the run takes a frame from the trees and the free list or gives one back. */
  ghost predicate Closed(s: seq<Space>) {
    forall i | 0 < i < |s| :: !Borrows(s[i - 1], s[i])
  }

  /**
    Over any run every frame is free, in a tree or held, once; the kernel's table is never freed or changed; without a
    kalloc() or kfree() from outside the free list and the trees have the same frames between them; and when all trees
    are gone again, and the frames held are those that were, every other frame is back on the free list, once.
   */
  lemma {:induction false} Conservation(s: seq<Space>, rs: seq<nat>)
    requires Run(s, rs) && VmInv(s[0])
    ensures var v, w := s[0], s[|rs|];
            && VmInv(w) && w.kernel == v.kernel && w.end == v.end && Pool(w) !! HeldSet(w)
            && Pool(w) + HeldSet(w) == Pool(v) + HeldSet(v) && (Closed(s) ==> Pool(w) == Pool(v))
            && |v.mem| == |w.mem| == NFRAMES && w.mem[v.kernel] == v.mem[v.kernel]
            && ((forall r :: !Live(v, r)) && (forall r :: !Live(w, r)) && HeldSet(w) == HeldSet(v) ==>
                  multiset(w.free) == multiset(v.free))
    decreases |rs|
  {
    hide Step, Borrows;
    var v, w := s[0], s[|rs|];
    if rs != [] {
      RunFront(s, rs);
      Conservation(s[..|rs|], rs[..|rs| - 1]);
      StepKeeps(s[|rs| - 1], w, rs[|rs| - 1]);
      assert Closed(s) ==> Closed(s[..|rs|]) && !Borrows(s[|rs| - 1], w);
    } else {
      KernelFrame(v);
    }
    PoolAndHeld(v);
    PoolAndHeld(w);
    if (forall r :: !Live(v, r)) && (forall r :: !Live(w, r)) && HeldSet(w) == HeldSet(v) {
      AllReturned(v);
      AllReturned(w);
      assert Pool(v) == Pool(v) + HeldSet(v) - HeldSet(v) && Pool(w) == Pool(w) + HeldSet(w) - HeldSet(w);
      SameListed(v.free, w.free);
    }
  }

  lemma SameListed(a: seq<nat>, b: seq<nat>)
    requires Listed(a) == Listed(b)
    requires forall i, j | 0 <= i < j < |a| :: a[i] != a[j]
    requires forall i, j | 0 <= i < j < |b| :: b[i] != b[j]
    ensures multiset(a) == multiset(b)
  {
    Once(a);
    Once(b);
    forall x ensures multiset(a)[x] == multiset(b)[x] {
      assert x in a <==> x in Listed(a);
      assert x in b <==> x in Listed(b);
    }
  }

  lemma {:induction false} Once(a: seq<nat>)
    requires forall i, j | 0 <= i < j < |a| :: a[i] != a[j]
    ensures forall x :: multiset(a)[x] == if x in a then 1 else 0
  {
    if a != [] {
      var b, y := a[..|a| - 1], a[|a| - 1];
      Once(b);
      assert a == b + [y];
    }
  }

  /** The entry for a page, as walkpgdir() finds it. */
  lemma PteState(v: Space, root: nat, pg: nat)
    requires VmInv(v) && Live(v, root) && pg < USERPAGES
    ensures var k := Key(root, 1, pg / NENTRIES);
            if k in v.tab then
              && v.tab[k] < NFRAMES == |v.mem|
              && var e := v.mem[v.tab[k]][pg % NENTRIES];
              if Present(e) then
                && Lookup(v.mem, root, pg) == Some(e) && Key(root, 0, pg) in v.tab
                && v.tab[Key(root, 0, pg)] == FrameOf(e) && 0 < FrameOf(e) < NFRAMES
              else Lookup(v.mem, root, pg) == None
            else Lookup(v.mem, root, pg) == None
  {
    hide FreeInv, Lookup;
    LookupIsLeaf(v, root, pg);
    var k := Key(root, 1, pg / NENTRIES);
    ChildParent(Key(root, 0, pg));
    if k in v.tab {
      assert KeyOk(v, k) && UseOk(v, v.tab[k]) && SlotOk(v, k, pg % NENTRIES);
    }
    if Key(root, 0, pg) in v.tab {
      assert KeyOk(v, Key(root, 0, pg)) && UseOk(v, v.tab[Key(root, 0, pg)]);
    }
  }

  /** While a space grows page by page, the next page is below 2^47 and free. */
  lemma Fits(v: Space, w: Space, root: nat, lo: nat, pg: nat)
    requires Shape(v, root, lo * PGSIZE) && Grows(v, w, root, lo, pg) && 1 <= lo <= pg && Live(v, root)
    ensures VmInv(w) && Live(w, root) && pg < USERPAGES && Lookup(w.mem, root, pg) == None
  {
    hide VmInv, Lookup;
    ShapeGrows(v, w, root, lo, pg);
    ShapeBound(w, root, pg * PGSIZE);
    assert Lookup(w.mem, root, pg).Some? <==> 1 <= pg < Up(pg * PGSIZE);
  }

  lemma ShrinksLive(v: Space, w: Space, root: nat, lo: nat, hi: nat)
    requires Shrinks(v, w, root, lo, hi) && Live(v, root)
    ensures VmInv(w) && Live(w, root)
  {
  }

  lemma CopiesLive(v: Space, w: Space, root: nat, d: nat, hi: nat)
    requires Copies(v, w, root, d, hi) && Live(v, root)
    ensures VmInv(w) && Live(w, root) && Live(w, d)
  {
  }

  lemma PutsSize(v: Space, w: Space, root: nat, pg: nat, flags: nat, page: Page)
    requires Puts(v, w, root, pg, flags, page)
    ensures |w.mem| == |v.mem| == NFRAMES
  {
  }

  lemma KernelFrame(v: Space)
    requires VmInv(v)
    ensures v.kernel < NFRAMES && |v.mem| == NFRAMES
  {
  }

  /** A space with no page has the shape of no size above one page. */
  lemma ShapeZero(v: Space, root: nat, sz: nat)
    requires Shape(v, root, 0)
    ensures Shape(v, root, sz) <==> Up(sz) <= 1
  {
    hide Lookup;
    if Up(sz) > 1 {
      assert Lookup(v.mem, root, 1).Some? <==> 1 <= 1 < Up(0);
    }
  }

  lemma TableParts(v: Space, k: Key)
    requires VmInv(v) && k in v.tab && 1 <= k.level <= 4
    ensures var n := if k.level == 4 then KSLOT else NENTRIES;
            && FramesUnder(v, k) == FramesBelow(v, k, n) + {v.tab[k]} && v.tab[k] !in FramesBelow(v, k, n)
            && (forall i | 0 <= i <= n :: FramesBelow(v, k, i) <= FramesBelow(v, k, n))
    ensures FramesBelow(v, k, 0) == {} && v.tab[k] in v.use
  {
    TableAll(v, k);
    assert KeyOk(v, k);
  }

  /** Entry i of a table whose turn has not come is as it was, and leads where the bookkeeping says. */
  lemma ReadEntry(v: Space, w: Space, k: Key, i: nat, n: nat, s: set<nat>)
    requires VmInv(v) && k in v.tab && 1 <= k.level <= 4 && n == (if k.level == 4 then KSLOT else NENTRIES) && i < n
    requires Freeing(v, w, s + FramesBelow(v, k, i)) && s !! FramesUnder(v, k)
    ensures var c := Child(k, i);
            && v.tab[k] < |w.mem|
            && s + FramesBelow(v, k, i) !! FramesUnder(v, c)
            && (Present(w.mem[v.tab[k]][i]) <==> c in v.tab)
            && (if c in v.tab then
                  && FrameOf(w.mem[v.tab[k]][i]) == v.tab[c] && v.tab[c] in v.use
                  && (k.level == 1 ==> FramesUnder(v, c) == {v.tab[c]})
                else FramesUnder(v, c) == {})
  {
    TableAll(v, k);
    var c := Child(k, i);
    assert KeyOk(v, k) && UseOk(v, v.tab[k]) && SlotOk(v, k, i);
    UsedNotFree(v, v.tab[k]);
    BelowNext(v, k, i);
    assert v.tab[k] in FramesUnder(v, k);
    assert FramesUnder(v, c) <= FramesUnder(v, k) by {
      assert FramesBelow(v, k, i + 1) <= FramesBelow(v, k, n);
    }
    if c in v.tab {
      assert KeyOk(v, c);
      if k.level == 1 {
        PageAlone(v, c);
      }
    } else {
      NothingUnder(v, c);
    }
  }

  lemma FreeingTab(v: Space, w: Space, s: set<nat>)
    requires Freeing(v, w, s)
    ensures w.tab == v.tab
  {
  }
}
