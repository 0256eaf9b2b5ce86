/** Page tables in physical memory: the hardware's walk, who uses which frame, and the elementary changes. */
module Paging {
  import opened Common
  const PGSIZE := 4096
  const KERNBASE := 0xFFFF_8000_0000_0000
  // PHYSTOP, in frames.
  const NFRAMES := 0xE000
  const NENTRIES := 512
  // The pages below 2^47: the half of the address space that PML4 slots 0 to 255 cover.
  const USERPAGES := 0x8_0000_0000
  // The PML4 slot of the kernel's own mappings.
  const KSLOT := 256

  type U64 = x: int | 0 <= x < 0x1_0000_0000_0000_0000

  function Zeros(): (p: seq<U64>) ensures |p| == NENTRIES {
    seq(NENTRIES, _ => 0)
  }

  type Page = p: seq<U64> | |p| == NENTRIES witness Zeros()

  const ZERO: Page := Zeros()

  const PTE_P := 1
  const PTE_W := 2
  const PTE_U := 4

  predicate Present(e: U64) {
    e % 2 == 1
  }

  predicate WriteBit(e: U64) {
    e / PTE_W % 2 == 1
  }

  predicate UserBit(e: U64) {
    e / PTE_U % 2 == 1
  }

  /** What an entry can grant: that the page may be written, that the user may touch it. */
  datatype Right = Writes | Users

  predicate Grants(e: U64, x: Right) {
    match x
    case Writes => WriteBit(e)
    case Users => UserBit(e)
  }

  function FrameOf(e: U64): nat {
    e / PGSIZE
  }

  function FlagsOf(e: U64): nat {
    e % PGSIZE
  }

  /** perm | PTE_P. */
  function OrPresent(perm: nat): nat {
    if perm % 2 == 1 then perm else perm + 1
  }

  /** An entry for frame f: address and flags occupy different bits, so their disjunction is their sum. */
  function Entry(f: nat, flags: nat): (e: U64)
    requires f < NFRAMES && flags < PGSIZE
    ensures FrameOf(e) == f && FlagsOf(e) == flags && (Present(e) <==> flags % 2 == 1)
  {
    f * PGSIZE + flags
  }

  /** The kernel's address of frame f (P2V). */
  function Kva(f: nat): (a: U64)
    requires f < NFRAMES
    ensures a != 0
  {
    KERNBASE + f * PGSIZE
  }

  // ---- the hardware's walk ----

  /** Follow entry i of the table in frame f. */
  function Next(mem: seq<Page>, f: nat, i: nat): Option<nat>
    requires i < NENTRIES
  {
    if f < |mem| && Present(mem[f][i]) then Some(FrameOf(mem[f][i])) else None
  }

  /** The frame reached from `root` (level 4) at `level` on the way to the addresses with this prefix. */
  function Walk(mem: seq<Page>, root: nat, level: nat, prefix: nat): Option<nat>
    decreases 4 - level
  {
    if level >= 4 then Some(root) else
    match Walk(mem, root, level + 1, prefix / NENTRIES)
    case None => None
    case Some(f) => Next(mem, f, prefix % NENTRIES)
  }

  /** The page-table entry that translates page `pg`, if it is present: what the processor uses. */
  function Lookup(mem: seq<Page>, root: nat, pg: nat): Option<U64> {
    match Walk(mem, root, 1, pg / NENTRIES)
    case None => None
    case Some(f) =>
      if f < |mem| && Present(mem[f][pg % NENTRIES]) then Some(mem[f][pg % NENTRIES]) else None
  }

  /** The processor grants a right on a page if all entries of the walk do: the entry for this prefix in the table at
      level + 1, and those above it. */
  predicate Allows(mem: seq<Page>, root: nat, level: nat, prefix: nat, x: Right)
    decreases 4 - level
  {
    level >= 4
    || (Allows(mem, root, level + 1, prefix / NENTRIES, x)
        && match Walk(mem, root, level + 1, prefix / NENTRIES)
           case None => false
           case Some(f) => f < |mem| && Present(mem[f][prefix % NENTRIES]) && Grants(mem[f][prefix % NENTRIES], x))
  }

  // ---- the use of frames ----

  /** A frame in a tree: level 4 is the root, level 0 a page of data; `prefix` are the address bits above it. */
  datatype Key = Key(root: nat, level: nat, prefix: nat)

  function Parent(k: Key): Key {
    Key(k.root, k.level + 1, k.prefix / NENTRIES)
  }

  function Child(k: Key, i: nat): Key
    requires k.level >= 1
  {
    Key(k.root, k.level - 1, k.prefix * NENTRIES + i)
  }

  /** Memory with its bookkeeping. `freelist` is kalloc's head; the rest but `mem` is ghost: who holds what. */
  datatype Space = Space(
    mem: seq<Page>,
    freelist: U64,
    free: seq<nat>,          // kalloc's list, the head last
    tab: map<Key, nat>,      // the frame at each place of each tree
    use: map<nat, Key>,      // and back
    kernel: nat,             // kpdpt, shared by all trees
    end: nat)                // the first frame past the kernel image

  ghost predicate Live(v: Space, r: nat) {
    Key(r, 4, 0) in v.tab
  }

  /** A frame somebody took from kalloc and did not put in a tree. */
  ghost predicate Held(v: Space, f: nat) {
    v.end <= f < NFRAMES && f !in v.free && f !in v.use && f != v.kernel
  }

  ghost predicate KeyOk(v: Space, k: Key) {
    && k in v.tab && k.level <= 4
    && v.tab[k] in v.use && v.use[v.tab[k]] == k
    && (k.level == 4 ==> k.prefix == 0 && v.tab[k] == k.root)
    && (k.level == 3 ==> k.prefix < KSLOT)
    && (k.level < 4 ==> Parent(k) in v.tab)
  }

  ghost predicate UseOk(v: Space, f: nat) {
    && v.end <= f < NFRAMES && f in v.use && f != v.kernel
    && v.use[f] in v.tab && v.tab[v.use[f]] == f
  }

  /** An entry that leaves all rights to the entries below it. */
  predicate Open(e: U64) {
    WriteBit(e) && UserBit(e)
  }

  lemma EntryGrants(f: nat, flags: nat)
    requires f < NFRAMES && flags < PGSIZE
    ensures forall x: Right :: Grants(Entry(f, flags), x) <==> Grants(flags, x)
  {
    HalfOf(f, flags / 2, flags % 2);
    FourthOf(f, flags / 4, flags % 4);
  }

  lemma HalfOf(f: nat, q: nat, t: nat)
    requires t < 2
    ensures (PGSIZE * f + 2 * q + t) / 2 == 2048 * f + q && (2048 * f + q) % 2 == q % 2
  {
    EvenAway(1024 * f, q);
  }

  lemma FourthOf(f: nat, q: nat, t: nat)
    requires t < 4
    ensures (PGSIZE * f + 4 * q + t) / 4 == 1024 * f + q && (1024 * f + q) % 2 == q % 2
  {
    EvenAway(512 * f, q);
  }

  lemma EvenAway(h: nat, q: nat)
    ensures (2 * h + q) % 2 == q % 2
  {
  }

  /** Entry i of the table at k is present exactly if the tree goes on there, and leads to the right frame; an entry
      for a table grants everything. */
  ghost predicate SlotOk(v: Space, k: Key, i: nat) {
    && k in v.tab && v.tab[k] < |v.mem| && i < NENTRIES && k.level >= 1
    && var e := v.mem[v.tab[k]][i];
    if k.level == 4 && i >= KSLOT then
      v.kernel < NFRAMES && e == (if i == KSLOT then Entry(v.kernel, PTE_P + PTE_W) else 0)
    else if Child(k, i) in v.tab then Present(e) && FrameOf(e) == v.tab[Child(k, i)] && (k.level >= 2 ==> Open(e))
    else !Present(e)
  }

  ghost predicate FreeOk(v: Space, i: nat) {
    && i < |v.free| && v.end <= v.free[i] < NFRAMES == |v.mem| && v.free[i] != v.kernel && v.free[i] !in v.use
    && (i > 0 ==> v.free[i - 1] < NFRAMES)
    && v.mem[v.free[i]][0] == (if i == 0 then 0 else Kva(v.free[i - 1]))
  }

  ghost predicate FreeInv(v: Space) {
    && (forall i {:trigger FreeOk(v, i)} | 0 <= i < |v.free| :: FreeOk(v, i))
    && (forall i, j | 0 <= i < j < |v.free| :: v.free[i] != v.free[j])
    && (if v.free == [] then v.freelist == 0
        else v.free[|v.free| - 1] < NFRAMES && v.freelist == Kva(v.free[|v.free| - 1]))
  }

  ghost predicate TreeInv(v: Space) {
    && |v.mem| == NFRAMES && 0 < v.end && v.kernel < NFRAMES
    && (forall k {:trigger KeyOk(v, k)} | k in v.tab :: KeyOk(v, k))
    && (forall f {:trigger UseOk(v, f)} | f in v.use :: UseOk(v, f))
    && (forall k, i {:trigger SlotOk(v, k, i)} | k in v.tab && k.level >= 1 && 0 <= i < NENTRIES :: SlotOk(v, k, i))
  }

  ghost predicate VmInv(v: Space) {
    TreeInv(v) && FreeInv(v)
  }

  /** The frames the trees and the free list have between them. */
  ghost function Pool(v: Space): set<nat> {
    Listed(v.free) + v.use.Keys
  }

  ghost function Listed(free: seq<nat>): set<nat> {
    set f | f in free
  }

  // ---- the walk follows the bookkeeping ----

  /** The prefixes of addresses below 2^47. */
  predicate User(level: nat, prefix: nat)
    decreases 4 - level
  {
    if level >= 4 then prefix == 0
    else if level == 3 then prefix < KSLOT
    else User(level + 1, prefix / NENTRIES)
  }

  lemma UserPage(pg: nat)
    ensures User(0, pg) <==> pg < USERPAGES
    ensures User(1, pg / NENTRIES) <==> pg < USERPAGES
  {
    assert User(3, pg / NENTRIES / NENTRIES / NENTRIES) <==> pg < USERPAGES;
    assert User(2, pg / NENTRIES / NENTRIES) <==> User(3, pg / NENTRIES / NENTRIES / NENTRIES);
  }

  lemma ParentChild(k: Key, i: nat)
    requires k.level >= 1 && i < NENTRIES
    ensures Parent(Child(k, i)) == k && Child(k, i).prefix % NENTRIES == i
  {
  }

  lemma ChildParent(k: Key)
    ensures Child(Parent(k), k.prefix % NENTRIES) == k
  {
  }

  lemma {:induction false} WalkIs(v: Space, k: Key)
    requires VmInv(v) && Live(v, k.root) && k.level <= 4 && User(k.level, k.prefix)
    ensures Walk(v.mem, k.root, k.level, k.prefix) == if k in v.tab then Some(v.tab[k]) else None
    decreases 4 - k.level
  {
    if k.level == 4 {
      assert KeyOk(v, k);
    } else {
      var p := Parent(k);
      WalkIs(v, p);
      ChildParent(k);
      assert k in v.tab ==> KeyOk(v, k);
      if p in v.tab {
        assert SlotOk(v, p, k.prefix % NENTRIES);
        assert KeyOk(v, p);
      }
    }
  }

  /** The translation of a page, by the bookkeeping. */
  ghost function Leaf(v: Space, r: nat, pg: nat): Option<U64> {
    var t := Key(r, 1, pg / NENTRIES);
    if Key(r, 0, pg) in v.tab && t in v.tab && v.tab[t] < |v.mem|
    then Some(v.mem[v.tab[t]][pg % NENTRIES]) else None
  }

  lemma LookupIsLeaf(v: Space, r: nat, pg: nat)
    requires VmInv(v) && Live(v, r) && pg < USERPAGES
    ensures Lookup(v.mem, r, pg) == Leaf(v, r, pg)
    ensures Leaf(v, r, pg).Some? <==> Key(r, 0, pg) in v.tab
    ensures Leaf(v, r, pg).Some? ==> FrameOf(Leaf(v, r, pg).value) == v.tab[Key(r, 0, pg)]
  {
    var t := Key(r, 1, pg / NENTRIES);
    UserPage(pg);
    WalkIs(v, t);
    ChildParent(Key(r, 0, pg));
    if t in v.tab {
      assert KeyOk(v, t) && UseOk(v, v.tab[t]);
      assert SlotOk(v, t, pg % NENTRIES);
    }
    if Key(r, 0, pg) in v.tab {
      assert KeyOk(v, Key(r, 0, pg));
    }
  }

  /** The way to a frame of the tree grants everything down to its page table. */
  lemma {:induction false} TablesOpen(v: Space, k: Key, x: Right)
    requires VmInv(v) && k in v.tab && 1 <= k.level <= 4 && Live(v, k.root) && User(k.level, k.prefix)
    ensures Allows(v.mem, k.root, k.level, k.prefix, x)
    decreases 4 - k.level
  {
    if k.level < 4 {
      var p := Parent(k);
      assert KeyOk(v, k);
      TablesOpen(v, p, x);
      WalkIs(v, p);
      ChildParent(k);
      assert KeyOk(v, p) && SlotOk(v, p, k.prefix % NENTRIES) && UseOk(v, v.tab[p]);
    }
  }

  /** So the rights on a page are exactly those of its own entry. */
  lemma RightsAreLeaf(v: Space, r: nat, pg: nat, x: Right)
    requires VmInv(v) && Live(v, r) && pg < USERPAGES
    ensures Allows(v.mem, r, 0, pg, x) <==>
            match Lookup(v.mem, r, pg) case None => false case Some(e) => Grants(e, x)
  {
    var t := Key(r, 1, pg / NENTRIES);
    UserPage(pg);
    WalkIs(v, t);
    if t in v.tab {
      TablesOpen(v, t, x);
    }
  }

  /** And the user has none in the kernel's half. */
  lemma KernelHidden(v: Space, r: nat, pg: nat)
    requires VmInv(v) && Live(v, r) && USERPAGES <= pg < 2 * USERPAGES
    ensures !Allows(v.mem, r, 0, pg, Users)
  {
    var a, b := pg / NENTRIES, pg / NENTRIES / NENTRIES;
    var c := b / NENTRIES;
    assert KSLOT <= c < NENTRIES && c / NENTRIES == 0 && c % NENTRIES == c;
    var k := Key(r, 4, 0);
    assert KeyOk(v, k) && UseOk(v, v.tab[k]) && SlotOk(v, k, c);
    EntryGrants(v.kernel, PTE_P + PTE_W);
    assert !Grants(PTE_P + PTE_W, Users);
    assert !Allows(v.mem, r, 3, c, Users);
    assert !Allows(v.mem, r, 2, b, Users);
    assert !Allows(v.mem, r, 1, a, Users);
  }

  // ---- kalloc and kfree ----

  const JUNK: U64 := 0x0101_0101_0101_0101

  function Junk(next: U64): Page {
    seq(NENTRIES, i => if i == 0 then next else JUNK)
  }

  /** The trees depend on the contents of their own frames only. */
  lemma TreeKept(v: Space, w: Space)
    requires TreeInv(v) && w == v.(mem := w.mem, freelist := w.freelist, free := w.free) && |w.mem| == NFRAMES
    requires forall f | f in v.use && f < NFRAMES :: w.mem[f] == v.mem[f]
    ensures TreeInv(w)
  {
    forall k | k in w.tab ensures KeyOk(w, k) { assert KeyOk(v, k); }
    forall f | f in w.use ensures UseOk(w, f) { assert UseOk(v, f); }
    forall k, i | k in w.tab && k.level >= 1 && 0 <= i < NENTRIES ensures SlotOk(w, k, i) {
      assert SlotOk(v, k, i) && KeyOk(v, k);
    }
  }

  ghost function Taken(v: Space): Space
    requires VmInv(v) && v.free != []
  {
    var n := |v.free| - 1;
    assert FreeOk(v, n);
    v.(free := v.free[..n], freelist := v.mem[v.free[n]][0])
  }

  lemma TakenInv(v: Space)
    requires VmInv(v) && v.free != []
    ensures var f := v.free[|v.free| - 1]; var w := Taken(v);
            VmInv(w) && Held(w, f) && Pool(w) == Pool(v) - {f} && f in Pool(v)
  {
    hide TreeInv;
    var n, w := |v.free| - 1, Taken(v);
    assert FreeOk(v, n);
    forall i | 0 <= i < |w.free| ensures FreeOk(w, i) {
      assert FreeOk(v, i);
    }
    if n > 0 {
      assert FreeOk(v, n - 1);
    }
    TreeSame(v, w);
    assert v.free == w.free + [v.free[n]];
  }

  lemma TreeSame(v: Space, w: Space)
    requires TreeInv(v) && w == v.(freelist := w.freelist, free := w.free)
    ensures TreeInv(w) && |v.mem| == NFRAMES
  {
    TreeKept(v, w);
  }

  ghost function Returned(v: Space, f: nat): Space
    requires f < |v.mem| == NFRAMES
  {
    v.(mem := v.mem[f := Junk(v.freelist)], free := v.free + [f], freelist := Kva(f))
  }

  lemma ReturnedInv(v: Space, f: nat)
    requires VmInv(v) && Held(v, f)
    ensures var w := Returned(v, f); VmInv(w) && Pool(w) == Pool(v) + {f}
  {
    var w := Returned(v, f);
    forall i | 0 <= i < |w.free| ensures FreeOk(w, i) {
      if i < |v.free| {
        assert FreeOk(v, i);
      } else if i > 0 {
        assert FreeOk(v, i - 1);
      }
    }
    TreeKept(v, w);
  }
}
