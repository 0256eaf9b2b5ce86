/** The K&R allocator of crates/ulib/src/lib.rs: a circular, address-ordered free list threaded through
    16-byte headers, with tail splitting, coalescing on both sides and a roving pointer.

    Addresses are byte addresses; the header at `a` is the pair `next[a]`, `size[a]`. */
module Heap {

  const UNIT := 16          // HEADER_SIZE
  const NULL := 0
  const MIN_UNITS := 4096   // what morecore asks for at least

  function End(size: map<int, int>, b: int): int
    requires b in size
  {
    b + UNIT * size[b]
  }

  /** `free` holds BASE and the free blocks. Following `next` visits them in address order and the last one
      leads back to BASE: the list is circular, sorted, and has no other members. */
  ghost predicate FreeList(base: int, next: map<int, int>, free: set<int>) {
    && base in free && free <= next.Keys
    && (forall x {:trigger Linked(base, next, free, x)} | x in free :: Linked(base, next, free, x))
  }

  ghost predicate Linked(base: int, next: map<int, int>, free: set<int>, x: int) {
    && base <= x && x in next && next[x] in free
    && (next[x] == base || x < next[x])
    && (forall y | y in free :: y <= x || (next[x] != base && next[x] <= y))
  }

  /** `owner` maps every byte of the arena to the one block it lies in: blocks tile the arena. */
  ghost predicate Tiling(size: map<int, int>, blocks: set<int>, owner: map<int, int>) {
    && (forall b | b in blocks :: b in size && size[b] >= 1)
    && (forall a | a in owner :: owner[a] in blocks && Inside(size, owner[a], a))
    && (forall a, b {:trigger Inside(size, b, a)} | b in blocks && Inside(size, b, a) :: a in owner && owner[a] == b)
  }

  ghost predicate Inside(size: map<int, int>, b: int, a: int) {
    b in size && b <= a < End(size, b)
  }

  /** No two free blocks touch: adjacent ones have been merged. */
  ghost predicate Separate(base: int, size: map<int, int>, free: set<int>, blocks: set<int>) {
    && (forall x | x in free && x != base :: x in blocks && x in size)
    && (forall x, y | x in free && x != base && y in free :: End(size, x) != y)
  }

  /** Blocks lie above the BASE header. */
  ghost predicate Bounded(base: int, blocks: set<int>) {
    NULL < base && forall b | b in blocks :: base + UNIT <= b
  }

  /** The headers and three ghosts: BASE and the free blocks, the headers of all blocks
      (live or free), and which block each byte of the arena belongs to. */
  datatype View = View(
    base: int,
    next: map<int, int>,
    size: map<int, int>,
    free: set<int>,
    blocks: set<int>,
    owner: map<int, int>)

  ghost predicate Inv(v: View) {
    && FreeList(v.base, v.next, v.free)
    && Tiling(v.size, v.blocks, v.owner)
    && Separate(v.base, v.size, v.free, v.blocks)
    && Bounded(v.base, v.blocks)
    && v.base in v.size && v.size[v.base] == 0
  }

  ghost function Live(v: View): set<int> {
    v.blocks - v.free
  }

  // ---- The list ----

  /** c is p's successor; p skips it. */
  lemma RemoveFromList(base: int, next: map<int, int>, free: set<int>, p: int, c: int)
    requires FreeList(base, next, free) && p in free && p in next && next[p] == c && c != base
    requires c in next
    ensures FreeList(base, next[p := next[c]], free - {c})
  {
    assert Linked(base, next, free, p) && Linked(base, next, free, c);
    forall x | x in free - {c} ensures Linked(base, next[p := next[c]], free - {c}, x) {
      assert Linked(base, next, free, x);
    }
  }

  /** p and its successor are the neighbours of bp in address order. */
  ghost predicate Spot(base: int, next: map<int, int>, p: int, bp: int) {
    p in next && p < bp && (next[p] == base || bp < next[p])
  }

  lemma InsertIntoList(base: int, next: map<int, int>, free: set<int>, p: int, bp: int)
    requires FreeList(base, next, free) && p in free && Spot(base, next, p, bp)
    ensures FreeList(base, next[bp := next[p]][p := bp], free + {bp})
  {
    assert Linked(base, next, free, p);
    forall x | x in free + {bp} ensures Linked(base, next[bp := next[p]][p := bp], free + {bp}, x) {
      if x != bp {
        assert Linked(base, next, free, x);
      }
    }
  }

  // ---- The tiling ----

  function Cut(owner: map<int, int>, p: int, q: int): map<int, int> {
    map a | a in owner :: if owner[a] == p && q <= a then q else owner[a]
  }

  function Reowned(owner: map<int, int>, from: int, to: int): map<int, int> {
    map a | a in owner :: if owner[a] == from then to else owner[a]
  }

  lemma BlocksApart(size: map<int, int>, blocks: set<int>, owner: map<int, int>, b: int, c: int)
    requires Tiling(size, blocks, owner) && b in blocks && c in blocks && b < c
    ensures End(size, b) <= c
  {
    assert Inside(size, c, c);
    assert !Inside(size, b, c);
  }

  /** Cut `nunits` units off the end of block p, leaving `left`. */
  lemma SplitTiling(size: map<int, int>, blocks: set<int>, owner: map<int, int>, p: int, left: int, nunits: int)
    requires Tiling(size, blocks, owner) && p in blocks && size[p] == left + nunits && 1 <= left && 1 <= nunits
    ensures p + UNIT * left !in blocks
    ensures var q := p + UNIT * left;
            Tiling(size[p := left][q := nunits], blocks + {q}, Cut(owner, p, q))
  {
    var q := p + UNIT * left;
    assert Inside(size, p, q);
    assert Inside(size, q, q) || q !in blocks;
    var size', blocks', owner' := size[p := left][q := nunits], blocks + {q}, Cut(owner, p, q);
    forall a | a in owner' ensures owner'[a] in blocks' && Inside(size', owner'[a], a) {
      assert Inside(size, owner[a], a);
    }
    forall a, b | b in blocks' && Inside(size', b, a) ensures a in owner' && owner'[a] == b {
      assert Inside(size, if b == q then p else b, a);
    }
  }

  /** Join block c to the block b that ends where c begins. */
  lemma MergeTiling(size: map<int, int>, blocks: set<int>, owner: map<int, int>, b: int, c: int)
    requires Tiling(size, blocks, owner) && b in blocks && c in blocks && End(size, b) == c
    ensures Tiling(size[b := size[b] + size[c]], blocks - {c}, Reowned(owner, c, b))
  {
    var size', owner' := size[b := size[b] + size[c]], Reowned(owner, c, b);
    forall a | a in owner' ensures owner'[a] in blocks - {c} && Inside(size', owner'[a], a) {
      assert Inside(size, owner[a], a);
    }
    forall a, x | x in blocks - {c} && Inside(size', x, a) ensures a in owner' && owner'[a] == x {
      assert Inside(size, if x == b && a >= c then c else x, a);
    }
  }

  // ---- free(): bp may swallow the block above it, then is swallowed by p or linked after it ----

  ghost function Absorbed(v: View, p: int, bp: int): View
    requires Inv(v) && bp in v.blocks && p in v.free && v.next[p] in v.free && v.next[p] != v.base
  {
    var c := v.next[p];
    v.(next := v.next[p := v.next[c]],
       size := v.size[bp := v.size[bp] + v.size[c]],
       free := v.free - {c},
       blocks := v.blocks - {c},
       owner := Reowned(v.owner, c, bp))
  }

  lemma AbsorbUpper(v: View, p: int, bp: int)
    requires Inv(v) && bp in Live(v) && p in v.free && Spot(v.base, v.next, p, bp)
    requires v.next[p] != v.base && End(v.size, bp) == v.next[p]
    ensures v.next[p] in v.free && Inv(Absorbed(v, p, bp))
    ensures End(Absorbed(v, p, bp).size, bp) !in v.free
  {
    assert Linked(v.base, v.next, v.free, p);
    var w := Absorbed(v, p, bp);
    assert FreeList(w.base, w.next, w.free) by {
      RemoveFromList(v.base, v.next, v.free, p, v.next[p]);
    }
    assert Tiling(w.size, w.blocks, w.owner) by {
      MergeTiling(v.size, v.blocks, v.owner, bp, v.next[p]);
    }
    assert Separate(w.base, w.size, w.free, w.blocks);
  }

  lemma LinkAfter(v: View, p: int, bp: int)
    requires Inv(v) && bp in Live(v) && p in v.free && Spot(v.base, v.next, p, bp)
    requires End(v.size, p) != bp && End(v.size, bp) != v.next[p]
    ensures Inv(v.(next := v.next[bp := v.next[p]][p := bp], free := v.free + {bp}))
  {
    InsertIntoList(v.base, v.next, v.free, p, bp);
    forall x | x in v.free && x != v.base ensures End(v.size, x) != bp && End(v.size, bp) != x {
      ClearOf(v, p, bp, x);
    }
    assert End(v.size, bp) != v.base;
  }

  lemma ClearOf(v: View, p: int, bp: int, x: int)
    requires Inv(v) && bp in Live(v) && p in v.free && Spot(v.base, v.next, p, bp)
    requires End(v.size, p) != bp && End(v.size, bp) != v.next[p]
    requires x in v.free && x != v.base
    ensures End(v.size, x) != bp && End(v.size, bp) != x
  {
    assert Linked(v.base, v.next, v.free, p);
    if x < p {
      BlocksApart(v.size, v.blocks, v.owner, x, p);
    }
    if v.next[p] != v.base && v.next[p] < x {
      BlocksApart(v.size, v.blocks, v.owner, bp, v.next[p]);
    }
  }

  lemma MergeInto(v: View, p: int, bp: int)
    requires Inv(v) && bp in Live(v) && p in v.free && Spot(v.base, v.next, p, bp)
    requires End(v.size, p) == bp && End(v.size, bp) != v.next[p]
    ensures Inv(v.(size := v.size[p := v.size[p] + v.size[bp]],
                   blocks := v.blocks - {bp},
                   owner := Reowned(v.owner, bp, p)))
  {
    assert Linked(v.base, v.next, v.free, p);
    MergeTiling(v.size, v.blocks, v.owner, p, bp);
    forall x | x in v.free ensures End(v.size, bp) != x {
      if v.next[p] != v.base && v.next[p] < x {
        BlocksApart(v.size, v.blocks, v.owner, bp, v.next[p]);
      }
    }
  }

  /** A stale link in a header that is not on the list does not matter. */
  lemma IgnoreNext(v: View, bp: int, x: int)
    requires Inv(v) && bp !in v.free
    ensures Inv(v.(next := v.next[bp := x]))
  {
    var next' := v.next[bp := x];
    forall y | y in v.free ensures Linked(v.base, next', v.free, y) {
      assert Linked(v.base, v.next, v.free, y);
    }
  }

  ghost predicate Joinable(v: View, p: int, bp: int) {
    Inv(v) && bp in Live(v) && p in v.free && Spot(v.base, v.next, p, bp) && v.next[p] in v.free
  }

  /** The state after the upper neighbour has been dealt with... */
  ghost function Raised(v: View, p: int, bp: int): View
    requires Joinable(v, p, bp)
  {
    if End(v.size, bp) == v.next[p] then Absorbed(v, p, bp) else v
  }

  /** ...and after the lower one. */
  ghost function Joined(v: View, p: int, bp: int): View
    requires Joinable(v, p, bp) && Joinable(Raised(v, p, bp), p, bp)
  {
    var w := Raised(v, p, bp);
    if End(w.size, p) == bp then
      w.(next := w.next[bp := w.next[p]],
         size := w.size[p := w.size[p] + w.size[bp]],
         blocks := w.blocks - {bp},
         owner := Reowned(w.owner, bp, p))
    else
      w.(next := w.next[bp := w.next[p]][p := bp], free := w.free + {bp})
  }

  lemma RaisedJoinable(v: View, p: int, bp: int)
    requires Joinable(v, p, bp)
    ensures Joinable(Raised(v, p, bp), p, bp)
    ensures var w := Raised(v, p, bp);
            && End(w.size, bp) != w.next[p]
            && Live(w) == Live(v)
            && w.owner.Keys == v.owner.Keys
            && w.size[p] == v.size[p]
            && v.size[bp] <= w.size[bp]
            && (forall b | b in Live(v) && b != bp :: w.size[b] == v.size[b])
  {
    if End(v.size, bp) == v.next[p] {
      AbsorbUpper(v, p, bp);
      assert Linked(v.base, v.next, v.free, v.next[p]);
      assert Linked(v.base, v.next, v.free, p);
      var w := Absorbed(v, p, bp);
      assert Linked(w.base, w.next, w.free, p);
    }
  }

  predicate HeadersAt(size: map<int, int>, next: map<int, int>, p: int, bp: int) {
    bp in size && p in size && p in next && next[p] in size && next[p] in next
  }

  /** The headers after the first of free()'s two conditionals. */
  function UpperSize(size: map<int, int>, next: map<int, int>, p: int, bp: int): map<int, int>
    requires HeadersAt(size, next, p, bp)
  {
    if End(size, bp) == next[p] then size[bp := size[bp] + size[next[p]]] else size
  }

  function UpperNext(size: map<int, int>, next: map<int, int>, p: int, bp: int): map<int, int>
    requires HeadersAt(size, next, p, bp)
  {
    next[bp := if End(size, bp) == next[p] then next[next[p]] else next[p]]
  }

  /** `size'` and `next'` are the headers after the second one. */
  predicate LowerHeaders(size: map<int, int>, next: map<int, int>, p: int, bp: int,
                         size': map<int, int>, next': map<int, int>)
    requires HeadersAt(size, next, p, bp)
  {
    var size1, next1 := UpperSize(size, next, p, bp), UpperNext(size, next, p, bp);
    if End(size1, p) == bp then
      size' == size1[p := size1[p] + size1[bp]] && next' == next1[p := next1[bp]]
    else
      size' == size1 && next' == next1[p := bp]
  }

  lemma JoinedHeaders(v: View, p: int, bp: int)
    requires Joinable(v, p, bp) && Joinable(Raised(v, p, bp), p, bp)
    ensures HeadersAt(v.size, v.next, p, bp)
    ensures LowerHeaders(v.size, v.next, p, bp, Joined(v, p, bp).size, Joined(v, p, bp).next)
  {
  }

  /** Freeing a live block by the statements of free(): the invariant survives, the block is live no more,
      every other live block keeps its size, and the arena is the same. */
  lemma FreeBlock(v: View, p: int, bp: int) returns (u: View)
    requires Joinable(v, p, bp)
    ensures HeadersAt(v.size, v.next, p, bp) && LowerHeaders(v.size, v.next, p, bp, u.size, u.next)
    ensures u.base == v.base
    ensures Inv(u) && p in u.free && Live(u) == Live(v) - {bp}
    ensures u.owner.Keys == v.owner.Keys
    ensures forall b | b in Live(u) :: u.size[b] == v.size[b]
    ensures exists x | x in u.free :: u.size[x] >= v.size[bp]
  {
    RaisedJoinable(v, p, bp);
    u := Joined(v, p, bp);
    JoinedLower(Raised(v, p, bp), p, bp, u);
    JoinedHeaders(v, p, bp);
  }

  lemma JoinedLower(w: View, p: int, bp: int, u: View)
    requires Joinable(w, p, bp) && End(w.size, bp) != w.next[p]
    requires u == if End(w.size, p) == bp then
                    w.(next := w.next[bp := w.next[p]],
                       size := w.size[p := w.size[p] + w.size[bp]],
                       blocks := w.blocks - {bp},
                       owner := Reowned(w.owner, bp, p))
                  else
                    w.(next := w.next[bp := w.next[p]][p := bp], free := w.free + {bp})
    ensures Inv(u) && Live(u) == Live(w) - {bp}
    ensures u.owner.Keys == w.owner.Keys
    ensures forall b | b in Live(u) :: u.size[b] == w.size[b]
    ensures exists x | x in u.free :: u.size[x] >= w.size[bp]
  {
    if End(w.size, p) == bp {
      MergeInto(w, p, bp);
      var m := w.(size := u.size, blocks := u.blocks, owner := u.owner);
      IgnoreNext(m, bp, w.next[p]);
      assert u.size[p] >= w.size[bp];
    } else {
      LinkAfter(w, p, bp);
      assert u.size[bp] >= w.size[bp];
    }
  }

  // ---- malloc(): the two ways a block leaves the list ----

  lemma TakeWhole(v: View, prev: int, p: int)
    requires Inv(v) && prev in v.free && v.next[prev] == p && p in v.free && p != v.base
    ensures Inv(v.(next := v.next[prev := v.next[p]], free := v.free - {p}))
  {
    assert Linked(v.base, v.next, v.free, prev);
    RemoveFromList(v.base, v.next, v.free, prev, p);
  }

  lemma TakeTail(v: View, p: int, nunits: int)
    requires Inv(v) && p in v.free && p != v.base && 1 <= nunits < v.size[p]
    ensures var q := p + UNIT * (v.size[p] - nunits);
            && q !in v.blocks
            && Inv(v.(size := v.size[p := v.size[p] - nunits][q := nunits],
                      blocks := v.blocks + {q},
                      owner := Cut(v.owner, p, q)))
  {
    var q := p + UNIT * (v.size[p] - nunits);
    SplitTiling(v.size, v.blocks, v.owner, p, v.size[p] - nunits, nunits);
  }

  /** Allocating `nunits` units by the success branch of malloc(): p whole, or its tail. */
  lemma TakeBlock(v: View, prev: int, p: int, nunits: int) returns (u: View, q: int)
    requires Inv(v) && prev in v.free && v.next[prev] == p && p in v.free && 1 <= nunits <= v.size[p]
    ensures v.size[p] == nunits ==> q == p && u.next == v.next[prev := v.next[p]] && u.size == v.size
    ensures v.size[p] > nunits ==>
              && q == p + UNIT * (v.size[p] - nunits) && u.next == v.next
              && u.size == v.size[p := v.size[p] - nunits][q := nunits]
    ensures u.base == v.base && u.free == if v.size[p] == nunits then v.free - {p} else v.free
    ensures Inv(u) && prev in u.free && q !in Live(v) && Live(u) == Live(v) + {q}
    ensures u.owner.Keys == v.owner.Keys
    ensures forall b | b in Live(v) :: u.size[b] == v.size[b]
  {
    assert p != v.base && prev != p by {
      assert Linked(v.base, v.next, v.free, prev) && Linked(v.base, v.next, v.free, v.base);
    }
    if v.size[p] == nunits {
      TakeWhole(v, prev, p);
      q, u := p, v.(next := v.next[prev := v.next[p]], free := v.free - {p});
    } else {
      TakeTail(v, p, nunits);
      q := p + UNIT * (v.size[p] - nunits);
      u := v.(size := v.size[p := v.size[p] - nunits][q := nunits],
              blocks := v.blocks + {q}, owner := Cut(v.owner, p, q));
    }
  }

  // ---- morecore(): a new extent above the break ----

  const TWO31 := 0x8000_0000
  const MAX_UNITS := 0x800_0000   // 2^27 units are 2^31 bytes

  /** `x as i32` */
  function AsI32(x: int): int {
    var m := x % (2 * TWO31);
    if m < TWO31 then m else m - 2 * TWO31
  }

  function Request(nunits: int): int {
    if nunits < MIN_UNITS then MIN_UNITS else nunits
  }

  /** morecore passes its byte count to sbrk as an i32. */
  lemma RequestBacked(nunits: nat)
    ensures if nunits < MAX_UNITS then AsI32(UNIT * Request(nunits)) == UNIT * Request(nunits)
            else AsI32(UNIT * Request(nunits)) < UNIT * Request(nunits)
  {
  }

  ghost predicate Within(lo: int, hi: int, a: int) {
    lo <= a < hi
  }

  ghost function Extent(lo: int, hi: int): set<int> {
    set a | lo <= a < hi && Within(lo, hi, a)
  }

  ghost function Constant(s: set<int>, p: int): map<int, int> {
    map a | a in s :: p
  }

  ghost function Extended(v: View, p: int, units: int): View {
    v.(size := v.size[p := units],
       blocks := v.blocks + {p},
       owner := v.owner + Constant(Extent(p, p + UNIT * units), p))
  }

  lemma ExtendedInv(v: View, p: int, units: int)
    requires Inv(v) && v.base + UNIT <= p && (forall a | a in v.owner :: a < p) && units >= 1
    ensures Inv(Extended(v, p, units)) && Live(Extended(v, p, units)) == Live(v) + {p}
    ensures p !in v.blocks
  {
    var w := Extended(v, p, units);
    forall b | b in v.blocks ensures b < p && End(v.size, b) <= p {
      assert Inside(v.size, b, b) && Inside(v.size, b, End(v.size, b) - 1);
    }
    forall a | a in w.owner ensures w.owner[a] in w.blocks && Inside(w.size, w.owner[a], a) {
      assert a in v.owner ==> Inside(v.size, v.owner[a], a);
    }
    forall a, b | b in w.blocks && Inside(w.size, b, a) ensures a in w.owner && w.owner[a] == b {
      assert b != p ==> Inside(v.size, b, a);
    }
    assert p !in v.free && v.base < p;
  }

  lemma BackedUpTo(before: set<int>, after: set<int>, p: int, bytes: int, brk: int)
    requires after == before + Extent(p, p + bytes) && bytes >= 1 && forall a | a in before :: a < p
    ensures (forall a | a in after :: a < brk) <==> p + bytes <= brk
  {
    assert p + bytes - 1 in Extent(p, p + bytes);
  }

  // ---- Walking the list from the roving pointer ----

  /** x has not been passed by a walk that is at p and stops after `stop`. */
  ghost predicate Ahead(stop: int, p: int, x: int) {
    if p <= stop then p <= x <= stop else x >= p || x <= stop
  }

  /** A walk that starts behind `stop` has the whole list ahead of it. */
  lemma AllAhead(v: View, stop: int, x: int)
    requires Inv(v) && stop in v.free && x in v.free
    ensures Ahead(stop, v.next[stop], x)
  {
    assert Linked(v.base, v.next, v.free, stop);
    assert v.base <= x by { assert Linked(v.base, v.next, v.free, x); }
  }

  /** Each step passes exactly the block it leaves. */
  lemma StepAhead(v: View, stop: int, p: int, x: int)
    requires Inv(v) && stop in v.free && p in v.free && x in v.free && p != stop
    requires Ahead(stop, p, x) && x != p
    ensures v.next[p] in v.free && Ahead(stop, v.next[p], x)
  {
    assert Linked(v.base, v.next, v.free, p);
    assert Linked(v.base, v.next, v.free, stop) && Linked(v.base, v.next, v.free, x);
  }

  ghost function From(free: set<int>, p: int): set<int> {
    set y | y in free && y >= p
  }

  lemma FromShrinks(free: set<int>, p: int, q: int)
    requires p in free && p < q
    ensures From(free, q) < From(free, p)
  {
    assert p in From(free, p) && p !in From(free, q);
  }

  /** What sbrk answers, should it be called: failure, or success at `gap` bytes above the break that this
      allocator knows of (other callers of sbrk may have moved it). */
  datatype Reply = Refused | Granted(gap: nat)

  class Allocator {
    const base: int                 // address of the static BASE header
    var freep: int                  // FREEP
    var next: map<int, int>
    var size: map<int, int>
    var brk: int                    // where sbrk will next hand out memory
    ghost var free: set<int>
    ghost var blocks: set<int>
    ghost var owner: map<int, int>
    ghost var sbrks: nat            // how often sbrk was called

    ghost function V(): View
      reads this
    {
      View(base, next, size, free, blocks, owner)
    }

    /** The list and the tiling are in order. */
    ghost predicate Sound()
      reads this
    {
      if freep == NULL then NULL < base && free == {base} && blocks == {} && owner == map[]
      else Inv(V()) && freep in free
    }

    /** And every byte of every block is memory that sbrk has really handed out. */
    ghost predicate Valid()
      reads this
    {
      Sound() && base + UNIT <= brk && forall a | a in owner :: a < brk
    }

    constructor (base: int, brk: int)
      requires NULL < base && base + UNIT <= brk
      ensures Valid() && freep == NULL && Live(V()) == {} && owner == map[]
    {
      this.base, this.brk, freep := base, brk, NULL;
      next, size := map[], map[];
      free, blocks, owner, sbrks := {base}, {}, map[], 0;
    }

    /** The search loop of free(). */
    method FindSpot(bp: int) returns (p: int)
      requires freep != NULL && Sound() && bp in Live(V())
      ensures p in free && Spot(base, next, p, bp)
    {
      p := freep;
      ghost var wrapped := false;
      while !(bp > p && bp < next[p])
        invariant p in free && (wrapped ==> p < bp)
        decreases !wrapped, From(free, p)
      {
        assert Linked(base, next, free, p);
        if p >= next[p] && (bp > p || bp < next[p]) {
          break;
        }
        if next[p] == base {
          wrapped := true;
        } else {
          FromShrinks(free, p, next[p]);
        }
        p := next[p];
      }
      assert Linked(base, next, free, p);
    }

    /** The header updates of free(): coalesce upwards, then downwards. Whatever was merged, the list and the tiling
        stay in order, bp is live no more, and no other live block is touched. */
    method Coalesce(bp: int, p: int)
      requires Joinable(V(), p, bp)
      modifies this`next, this`size, this`free, this`blocks, this`owner
      ensures Inv(V()) && p in free && Live(V()) == old(Live(V())) - {bp}
      ensures owner.Keys == old(owner.Keys)
      ensures forall b | b in Live(V()) :: size[b] == old(size[b])
      ensures exists x | x in free :: size[x] >= old(size[bp])
    {
      hide Inv, Live, Joined, Raised;
      ghost var u := FreeBlock(V(), p, bp);
      if bp + UNIT * size[bp] == next[p] {
        var c := next[p];
        size := size[bp := size[bp] + size[c]];
        next := next[bp := next[c]];
      } else {
        next := next[bp := next[p]];
      }
      if p + UNIT * size[p] == bp {
        size := size[p := size[p] + size[bp]];
        next := next[p := next[bp]];
      } else {
        next := next[p := bp];
      }
      free, blocks, owner := u.free, u.blocks, u.owner;
      assert V() == u;
    }

    /** free() */
    method Free(ptr: int)
      requires Sound()
      requires ptr == NULL || ptr - UNIT in Live(V())
      modifies this`freep, this`next, this`size, this`free, this`blocks, this`owner
      ensures Sound() && (ptr != NULL ==> freep != NULL)
      ensures old(Valid()) ==> Valid()
      ensures ptr == NULL ==> V() == old(V()) && freep == old(freep)
      ensures ptr != NULL ==>
                && Live(V()) == old(Live(V())) - {ptr - UNIT}
                && owner.Keys == old(owner.Keys)
                && (forall b | b in Live(V()) :: size[b] == old(size[b]))
                && (exists x | x in free :: size[x] >= old(size[ptr - UNIT]))
                && Spot(base, old(next), freep, ptr - UNIT)
    {
      if ptr == NULL {
        return;
      }
      var bp := ptr - UNIT;
      var p := FindSpot(bp);
      assert Linked(base, next, free, p);
      Coalesce(bp, p);
      assert forall a | a in owner :: a in old(owner);
      freep := p;
    }

    /** morecore(). It lists as many units as it wanted, but its byte count is cut to an i32 on the way to sbrk: the
        heap is backed by real memory afterwards exactly when sbrk refused or the request is below 2^27 units. */
    method Morecore(nunits: int, reply: Reply) returns (p: int)
      requires freep != NULL && Valid() && 1 <= nunits
      modifies this
      ensures freep != NULL && Sound() && (Valid() <==> reply.Refused? || nunits < MAX_UNITS)
      ensures sbrks == old(sbrks) + 1
      ensures Live(V()) == old(Live(V())) && forall b | b in Live(V()) :: size[b] == old(size[b])
      ensures reply.Refused? ==> p == NULL && V() == old(V()) && freep == old(freep)
      ensures reply.Granted? ==>
                && p == freep
                && owner.Keys == old(owner.Keys)
                                 + Extent(old(brk) + reply.gap, old(brk) + reply.gap + UNIT * Request(nunits))
                && brk == old(brk) + reply.gap + AsI32(UNIT * if nunits < 4096 then 4096 else nunits)
                && (exists x | x in free :: size[x] >= nunits)
    {
      hide Inv, Live, AsI32, Extent;
      var units := Request(nunits);
      sbrks := sbrks + 1;
      RequestBacked(nunits);
      if reply.Refused? {
        return NULL;
      }
      var hp := brk + reply.gap;
      brk := hp + AsI32(UNIT * units);
      ListExtent(hp, units);
      BackedUpTo(old(owner.Keys), owner.Keys, hp, UNIT * units, brk);
      p := freep;
    }

    /** The rest of morecore(): a header for the new extent, which free() puts on the list. */
    method ListExtent(hp: int, units: int)
      requires freep != NULL && Sound() && units >= 1
      requires base + UNIT <= hp && forall a | a in owner :: a < hp
      modifies this`freep, this`next, this`size, this`free, this`blocks, this`owner
      ensures freep != NULL && Sound()
      ensures Live(V()) == old(Live(V())) && forall b | b in Live(V()) :: size[b] == old(size[b])
      ensures owner.Keys == old(owner.Keys) + Extent(hp, hp + UNIT * units)
      ensures exists x | x in free :: size[x] >= units
    {
      hide FreeList, Separate, Inside;
      ghost var v := V();
      ExtendedInv(v, hp, units);
      size := size[hp := units];
      blocks := blocks + {hp};
      owner := Extended(v, hp, units).owner;
      assert V() == Extended(v, hp, units);
      assert owner.Keys == v.owner.Keys + Extent(hp, hp + UNIT * units);
      Free(hp + UNIT);
    }

    /** The success branch of malloc(): p leaves the list whole, or gives up its tail. */
    method Take(prevp: int, p: int, nunits: int) returns (ptr: int)
      requires freep != NULL && Sound()
      requires prevp in free && next[prevp] == p && p in free
      requires 1 <= nunits <= size[p]
      modifies this`freep, this`next, this`size, this`free, this`blocks, this`owner
      ensures freep != NULL && Sound() && ptr != NULL
      ensures var b := ptr - UNIT;
              b !in old(Live(V())) && Live(V()) == old(Live(V())) + {b} && size[b] == nunits
      ensures forall b | b in old(Live(V())) :: size[b] == old(size[b])
      ensures owner.Keys == old(owner.Keys)
      ensures freep == prevp && ptr - UNIT == p + UNIT * (old(size[p]) - nunits)
      ensures if old(size[p]) == nunits then free == old(free) - {p} && next == old(next)[prevp := old(next)[p]]
              else free == old(free) && next == old(next) && size[p] == old(size[p]) - nunits
    {
      ghost var v := V();
      ghost var u, taken := TakeBlock(v, prevp, p, nunits);
      var q := p;
      if size[p] == nunits {
        next := next[prevp := next[p]];
      } else {
        size := size[p := size[p] - nunits];
        q := p + UNIT * size[p];
        size := size[q := nunits];
      }
      free, blocks, owner := u.free, u.blocks, u.owner;
      assert V() == u && q == taken;
      freep := prevp;
      ptr := q + UNIT;
    }

    /** The first call of malloc() sets up a list of BASE alone. */
    method Start()
      requires Sound()
      modifies this`freep, this`next, this`size
      ensures freep != NULL && Sound() && Live(V()) == old(Live(V()))
      ensures old(freep) != NULL ==> V() == old(V()) && freep == old(freep)
      ensures old(freep) == NULL ==> free == {base} && size[base] == 0 && Live(V()) == {}
    {
      if freep == NULL {
        next, size, freep := next[base := base], size[base := 0], base;
        assert Linked(base, next, free, base);
      }
    }

    /** malloc()'s loop between two looks at FREEP: one turn around the list from the block after it, up to the
        first fit or back to FREEP itself. It finds a fit whenever there is one. */
    method Walk(nunits: int) returns (found: bool, prevp: int, p: int)
      requires freep != NULL && Sound()
      ensures found <==> exists x | x in free :: size[x] >= nunits
      ensures found ==> prevp in free && p in free && next[prevp] == p && size[p] >= nunits
      ensures found ==> forall x | x in free && size[x] >= nunits :: Ahead(freep, p, x)
    {
      prevp := freep;
      p := next[prevp];
      assert Linked(base, next, free, freep);
      forall x | x in free ensures Ahead(freep, p, x) { AllAhead(V(), freep, x); }
      while size[p] < nunits
        invariant prevp in free && p in free && next[prevp] == p
        invariant forall x | x in free && size[x] >= nunits :: Ahead(freep, p, x)
        decreases p > freep, From(free, p)
      {
        if p == freep {
          return false, prevp, p;
        }
        forall x | x in free && size[x] >= nunits ensures Ahead(freep, next[p], x) { StepAhead(V(), freep, p, x); }
        assert Linked(base, next, free, p) && Linked(base, next, free, freep);
        if next[p] != base {
          FromShrinks(free, p, next[p]);
        }
        prevp := p;
        p := next[p];
      }
      found := true;
    }

    /** malloc(). The new block is big enough, is nobody else's, and no other live block is touched; sbrk is
        called at most once, exactly when no free block would do. The heap stays backed by real memory exactly when
        sbrk was not called, or refused, or the request is below 2^27 units. */
    method Malloc(nbytes: nat, reply: Reply) returns (ptr: int)
      requires Valid()
      modifies this
      ensures Sound()
      ensures Valid() <==> sbrks == old(sbrks) || reply.Refused? || NUnits(nbytes) < MAX_UNITS
      ensures sbrks == old(sbrks) || sbrks == old(sbrks) + 1
      ensures sbrks == old(sbrks) <==> old(freep != NULL && exists x | x in free :: size[x] >= NUnits(nbytes))
      ensures sbrks == old(sbrks) ==> owner.Keys == old(owner.Keys)
      ensures old(owner.Keys) <= owner.Keys
      ensures ptr == NULL ==> reply.Refused? && sbrks == old(sbrks) + 1 && Live(V()) == old(Live(V()))
      ensures ptr != NULL ==>
                var b := ptr - UNIT;
                && b !in old(Live(V())) && Live(V()) == old(Live(V())) + {b}
                && size[b] == NUnits(nbytes) && nbytes <= 16 * (size[b] - 1) < nbytes + 16
      ensures forall b | b in old(Live(V())) :: size[b] == old(size[b])
    {
      hide Inv, Live;
      var nunits := NUnits(nbytes);
      Start();
      var found, prevp, p := Walk(nunits);
      if !found {
        var m := Morecore(nunits, reply);
        if m == NULL {
          return NULL;
        }
        found, prevp, p := Walk(nunits);
      }
      ptr := Take(prevp, p, nunits);
    }
  }

  /** A first request of 2 GiB that sbrk grants: malloc() returns a block that the process does not have. */
  method Request2GiB() returns (heap: Allocator, ptr: int)
    ensures fresh(heap) && heap.Sound() && !heap.Valid()
    ensures ptr != NULL && ptr - UNIT in Live(heap.V()) && heap.size[ptr - UNIT] == MAX_UNITS + 1
  {
    heap := new Allocator(UNIT, 2 * UNIT);
    ptr := heap.Malloc(TWO31, Granted(0));
  }

  function NUnits(nbytes: nat): nat {
    (nbytes + UNIT - 1) / UNIT + 1
  }
}
