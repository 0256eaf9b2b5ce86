/** The circular doubly linked list of the buffer cache (crates/fs/src/bio.rs), most recently released first.

    Each buffer carries a ghost key, and a link leads to the member with the next smaller key. `next` is such
    a list for the release times, `prev` for their negatives. HEAD closes both circles. */
module Lru {
  import opened Common

  const HEAD := NBUF   // bc.head, one past the buffers of bc.buf

  /** y comes after x. */
  predicate Follows(key: map<nat, int>, x: nat, y: nat)
    requires y in key && (x == HEAD || x in key)
  {
    x == HEAD || key[y] < key[x]
  }

  ghost predicate LinkOk(nodes: set<nat>, link: seq<nat>, key: map<nat, int>, x: nat)
    requires Keyed(nodes, link, key) && (x == HEAD || x in nodes)
  {
    var s := link[x];
    && (s == HEAD || (s in nodes && Follows(key, x, s)))
    && (forall y | y in nodes && Follows(key, x, y) :: s != HEAD && key[y] <= key[s])
  }

  predicate Keyed(nodes: set<nat>, link: seq<nat>, key: map<nat, int>) {
    && |link| == NBUF + 1
    && (forall x | x in nodes :: x < NBUF && x in key)
    && (forall x, y | x in nodes && y in nodes && x != y :: key[x] != key[y])
  }

  /** The circle from HEAD through `nodes` by decreasing key and back. */
  ghost predicate Circle(nodes: set<nat>, link: seq<nat>, key: map<nat, int>) {
    && Keyed(nodes, link, key)
    && (forall x {:trigger LinkOk(nodes, link, key, x)} | x == HEAD || x in nodes :: LinkOk(nodes, link, key, x))
  }

  lemma RemoveLink(nodes: set<nat>, link: seq<nat>, key: map<nat, int>, pred: nat, b: nat)
    requires Circle(nodes, link, key) && (pred == HEAD || pred in nodes) && b in nodes && link[pred] == b
    ensures pred != b && Circle(nodes - {b}, link[pred := link[b]], key)
  {
    assert LinkOk(nodes, link, key, pred) && LinkOk(nodes, link, key, b);
    var link' := link[pred := link[b]];
    forall x | x == HEAD || x in nodes - {b} ensures LinkOk(nodes - {b}, link', key, x) {
      assert LinkOk(nodes, link, key, x);
    }
  }

  lemma InsertFirst(nodes: set<nat>, link: seq<nat>, key: map<nat, int>, b: nat, k: int)
    requires Circle(nodes, link, key) && b < NBUF && b !in nodes
    requires forall y | y in nodes :: key[y] < k
    ensures Circle(nodes + {b}, link[b := link[HEAD]][HEAD := b], key[b := k])
  {
    var link', key' := link[b := link[HEAD]][HEAD := b], key[b := k];
    assert LinkOk(nodes, link, key, HEAD);
    forall x | x == HEAD || x in nodes + {b} ensures LinkOk(nodes + {b}, link', key', x) {
      if x != b {
        assert LinkOk(nodes, link, key, x);
      }
    }
  }

  lemma InsertLast(nodes: set<nat>, link: seq<nat>, key: map<nat, int>, b: nat, k: int, last: nat)
    requires Circle(nodes, link, key) && b < NBUF && b !in nodes
    requires forall y | y in nodes :: k < key[y]
    requires (last == HEAD || last in nodes) && link[last] == HEAD
    ensures Circle(nodes + {b}, link[b := HEAD][last := b], key[b := k])
  {
    var link', key' := link[b := HEAD][last := b], key[b := k];
    forall x | x == HEAD || x in nodes + {b} ensures LinkOk(nodes + {b}, link', key', x) {
      InsertLastAt(nodes, link, key, b, k, last, x);
    }
  }

  lemma InsertLastAt(nodes: set<nat>, link: seq<nat>, key: map<nat, int>, b: nat, k: int, last: nat, x: nat)
    requires Circle(nodes, link, key) && b < NBUF && b !in nodes
    requires forall y | y in nodes :: k < key[y]
    requires (last == HEAD || last in nodes) && link[last] == HEAD && (x == HEAD || x in nodes + {b})
    ensures LinkOk(nodes + {b}, link[b := HEAD][last := b], key[b := k], x)
  {
    assert LinkOk(nodes, link, key, last);
    if x != b {
      assert LinkOk(nodes, link, key, x);
    }
  }

  function Neg(key: map<nat, int>): map<nat, int> {
    map x | x in key :: -key[x]
  }

  ghost predicate DoublyLinked(nodes: set<nat>, next: seq<nat>, prev: seq<nat>, stamp: map<nat, int>) {
    Circle(nodes, next, stamp) && Circle(nodes, prev, Neg(stamp))
  }

  lemma Inverse(nodes: set<nat>, next: seq<nat>, prev: seq<nat>, stamp: map<nat, int>, x: nat)
    requires DoublyLinked(nodes, next, prev, stamp) && (x == HEAD || x in nodes)
    ensures next[x] == HEAD || next[x] in nodes
    ensures prev[x] == HEAD || prev[x] in nodes
    ensures prev[next[x]] == x && next[prev[x]] == x
  {
    InverseOneWay(nodes, next, prev, stamp, Neg(stamp), x);
    InverseOneWay(nodes, prev, next, Neg(stamp), stamp, x);
  }

  lemma InverseOneWay(nodes: set<nat>, next: seq<nat>, prev: seq<nat>, stamp: map<nat, int>, neg: map<nat, int>, x: nat)
    requires Circle(nodes, next, stamp) && Circle(nodes, prev, neg) && (x == HEAD || x in nodes)
    requires forall y | y in nodes :: neg[y] == -stamp[y]
    ensures next[x] == HEAD || next[x] in nodes
    ensures prev[next[x]] == x
  {
    assert LinkOk(nodes, next, stamp, x);
    assert LinkOk(nodes, prev, neg, next[x]);
  }

  /** Link b in right behind HEAD, as bio's init() and release_buf() do. */
  lemma PushFront(nodes: set<nat>, next: seq<nat>, prev: seq<nat>, stamp: map<nat, int>, b: nat, k: int)
    requires DoublyLinked(nodes, next, prev, stamp) && b < NBUF && b !in nodes
    requires forall y | y in nodes :: stamp[y] < k
    ensures next[HEAD] <= HEAD
    ensures DoublyLinked(nodes + {b}, next[b := next[HEAD]][HEAD := b], prev[b := HEAD][next[HEAD] := b], stamp[b := k])
  {
    Inverse(nodes, next, prev, stamp, HEAD);
    InsertFirst(nodes, next, stamp, b, k);
    InsertLast(nodes, prev, Neg(stamp), b, -k, next[HEAD]);
    assert Neg(stamp[b := k]) == Neg(stamp)[b := -k];
  }

  lemma Unlink(nodes: set<nat>, next: seq<nat>, prev: seq<nat>, stamp: map<nat, int>, b: nat)
    requires DoublyLinked(nodes, next, prev, stamp) && b in nodes
    ensures prev[b] <= HEAD && next[b] <= HEAD && prev[b] != b && next[b] != b
    ensures DoublyLinked(nodes - {b}, next[prev[b] := next[b]], prev[next[b] := prev[b]], stamp)
  {
    Inverse(nodes, next, prev, stamp, b);
    RemoveLink(nodes, next, stamp, prev[b], b);
    RemoveLink(nodes, prev, Neg(stamp), next[b], b);
  }

  // ---- Walking the list ----

  /** The members a forward walk standing at x has yet to see, x included. */
  ghost function Remaining(nodes: set<nat>, key: map<nat, int>, x: nat): set<nat>
    requires x == HEAD || x in key
    requires forall y | y in nodes :: y in key
  {
    if x == HEAD then {} else set y | y in nodes && key[y] <= key[x]
  }

  lemma WalkStep(nodes: set<nat>, link: seq<nat>, key: map<nat, int>, x: nat)
    requires Circle(nodes, link, key) && x in nodes
    ensures link[x] == HEAD || link[x] in nodes
    ensures Remaining(nodes, key, link[x]) == Remaining(nodes, key, x) - {x}
  {
    assert LinkOk(nodes, link, key, x);
  }

  lemma WalkStart(nodes: set<nat>, link: seq<nat>, key: map<nat, int>)
    requires Circle(nodes, link, key)
    ensures link[HEAD] == HEAD || link[HEAD] in nodes
    ensures Remaining(nodes, key, link[HEAD]) == nodes
  {
    assert LinkOk(nodes, link, key, HEAD);
  }
}
