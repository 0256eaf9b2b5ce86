/** Pipes (crates/fs/src/pipe.rs): the ring buffer, and readers and writers in any interleaving of the stretches that
    each of them runs between two sleeps, with the pipe's lock held. */
module Pipes {
  import opened Common
  import opened Blocks

  const PIPESIZE := 512

  // ---- Interleavings ----

  /** A byte with the process that wrote it. */
  datatype Item = Item(writer: nat, byte: Byte)

  datatype Queue = Queue(inserted: seq<Item>, taken: nat, readopen: bool, writeopen: bool)

  datatype Task =
    | Idle
    | Reading(n: nat)
    | Writing(bytes: seq<Byte>, i: nat, start: nat)    // i bytes are in; `start` is |inserted| when the call began

  datatype Proc = Proc(task: Task, asleep: bool, killed: bool)

  datatype State = State(q: Queue, procs: map<nat, Proc>, output: seq<Byte>)

  datatype Action =
    | BeginRead(pid: nat, n: nat)
    | BeginWrite(pid: nat, bytes: seq<Byte>)
    | Continue(pid: nat)
    | Kill(pid: nat)
    | Close(writable: bool)

  /** Calls need an open end, and an end closes only when nobody is in a call on it: a call's descriptor is open. */
  ghost predicate Enabled(s: State, a: Action) {
    match a
    case BeginRead(pid, n) => pid in s.procs && s.procs[pid].task.Idle? && s.q.readopen
    case BeginWrite(pid, bytes) => pid in s.procs && s.procs[pid].task.Idle? && s.q.writeopen
    case Continue(pid) => pid in s.procs && !s.procs[pid].task.Idle? && !s.procs[pid].asleep
    case Kill(pid) => pid in s.procs
    case Close(true) => s.q.writeopen && forall p | p in s.procs :: !s.procs[p].task.Writing?
    case Close(false) => s.q.readopen && forall p | p in s.procs :: !s.procs[p].task.Reading?
  }

  function Tag(pid: nat, bytes: seq<Byte>): (r: seq<Item>)
    ensures |r| == |bytes|
  {
    if bytes == [] then [] else Tag(pid, bytes[..|bytes| - 1]) + [Item(pid, bytes[|bytes| - 1])]
  }

  function Plain(items: seq<Item>): (r: seq<Byte>)
    ensures |r| == |items|
  {
    if items == [] then [] else Plain(items[..|items| - 1]) + [items[|items| - 1].byte]
  }

  /** The bytes of one writer. */
  function Of(items: seq<Item>, pid: nat): seq<Byte> {
    if items == [] then [] else
    var last := items[|items| - 1];
    Of(items[..|items| - 1], pid) + if last.writer == pid then [last.byte] else []
  }

  /** wakeup() on the channel of the readers or of the writers. */
  function Wake(procs: map<nat, Proc>, readers: bool): map<nat, Proc> {
    map p | p in procs :: if OnChannel(procs[p].task, readers) then procs[p].(asleep := false) else procs[p]
  }

  lemma WakeIs(procs: map<nat, Proc>, readers: bool)
    ensures Wake(procs, readers).Keys == procs.Keys
    ensures forall p | p in procs ::
              Wake(procs, readers)[p] == if (if readers then procs[p].task.Reading? else procs[p].task.Writing?)
                                         then procs[p].(asleep := false) else procs[p]
  {
  }

  predicate OnChannel(t: Task, readers: bool) {
    if readers then t.Reading? else t.Writing?
  }

  function Room(q: Queue): int {
    PIPESIZE - (|q.inserted| - q.taken)
  }

  function Stretch(q: Queue, t: Task): nat
    requires t.Writing? && t.i <= |t.bytes| && Room(q) >= 0
  {
    Min(Room(q), |t.bytes| - t.i)
  }

  function WriteStep(s: State, pid: nat): State
    requires pid in s.procs && s.procs[pid].task.Writing? && s.procs[pid].task.i <= |s.procs[pid].task.bytes|
               && Room(s.q) >= 0
  {
    var p := s.procs[pid];
    var t := p.task;
    var k := Stretch(s.q, t);
    var q := s.q.(inserted := s.q.inserted + Tag(pid, t.bytes[t.i..t.i + k]));
    if t.i + k == |t.bytes| then s.(q := q, procs := Wake(s.procs, true)[pid := p.(task := Idle)])
    else if !q.readopen || p.killed then s.(q := q, procs := s.procs[pid := p.(task := Idle)])
    else s.(q := q, procs := Wake(s.procs, true)[pid := p.(task := t.(i := t.i + k), asleep := true)])
  }

  function ReadStep(s: State, pid: nat): State
    requires pid in s.procs && s.procs[pid].task.Reading? && s.q.taken <= |s.q.inserted|
  {
    var p := s.procs[pid];
    if s.q.taken == |s.q.inserted| && s.q.writeopen then
      if p.killed then s.(procs := s.procs[pid := p.(task := Idle)])
      else s.(procs := s.procs[pid := p.(asleep := true)])
    else
      var to := s.q.taken + Min(p.task.n, |s.q.inserted| - s.q.taken);
      State(s.q.(taken := to), Wake(s.procs, false)[pid := p.(task := Idle)],
            s.output + Plain(s.q.inserted[s.q.taken..to]))
  }

  function Next(s: State, a: Action): State
    requires Shape(s) && Enabled(s, a)
  {
    match a
    case BeginRead(pid, n) => s.(procs := s.procs[pid := s.procs[pid].(task := Reading(n))])
    case BeginWrite(pid, bytes) => s.(procs := s.procs[pid := s.procs[pid].(task := Writing(bytes, 0, |s.q.inserted|))])
    case Continue(pid) => if s.procs[pid].task.Writing? then WriteStep(s, pid) else ReadStep(s, pid)
    case Kill(pid) => s.(procs := s.procs[pid := s.procs[pid].(killed := true, asleep := false)])
    case Close(true) => s.(q := s.q.(writeopen := false), procs := Wake(s.procs, true))
    case Close(false) => s.(q := s.q.(readopen := false), procs := Wake(s.procs, false))
  }

  ghost predicate Shape(s: State) {
    && s.q.taken <= |s.q.inserted| <= s.q.taken + PIPESIZE
    && (forall p | p in s.procs && s.procs[p].task.Writing? :: s.procs[p].task.i <= |s.procs[p].task.bytes|)
  }

  /** The bytes that a writer's call put in so far are those it claims, in order. */
  ghost predicate InOrder(s: State, pid: nat)
    requires pid in s.procs && s.procs[pid].task.Writing?
  {
    var t := s.procs[pid].task;
    t.i <= |t.bytes| && t.start <= |s.q.inserted| && Of(s.q.inserted[t.start..], pid) == t.bytes[..t.i]
  }

  ghost predicate Inv(s: State) {
    && Shape(s)
    && s.output == Plain(s.q.inserted[..s.q.taken])
    && (forall p {:trigger InOrder(s, p)} | p in s.procs && s.procs[p].task.Writing? :: InOrder(s, p))
    && (forall p | p in s.procs && s.procs[p].task.Idle? :: !s.procs[p].asleep)
    && (!s.q.readopen ==> forall p | p in s.procs :: !s.procs[p].task.Reading?)
    && (!s.q.writeopen ==> forall p | p in s.procs :: !s.procs[p].task.Writing?)
  }

  lemma OfLast(items: seq<Item>, x: Item, pid: nat)
    ensures Of(items + [x], pid) == Of(items, pid) + if x.writer == pid then [x.byte] else []
  {
    assert (items + [x])[..|items|] == items;
  }

  lemma {:induction false} OfTag(items: seq<Item>, w: nat, bytes: seq<Byte>, pid: nat)
    ensures Of(items + Tag(w, bytes), pid) == Of(items, pid) + if w == pid then bytes else []
  {
    hide Of;
    if bytes == [] {
      assert items + Tag(w, bytes) == items;
    } else {
      var b, x := bytes[..|bytes| - 1], Item(w, bytes[|bytes| - 1]);
      OfTag(items, w, b, pid);
      OfLast(items + Tag(w, b), x, pid);
      TagLast(items, w, bytes);
      assert bytes == b + [x.byte];
    }
  }

  lemma TagLast(items: seq<Item>, w: nat, bytes: seq<Byte>)
    requires bytes != []
    ensures var n := |bytes| - 1;
            items + Tag(w, bytes) == items + Tag(w, bytes[..n]) + [Item(w, bytes[n])]
  {
  }

  lemma {:induction false} PlainAppend(a: seq<Item>, b: seq<Item>)
    ensures Plain(a + b) == Plain(a) + Plain(b)
  {
    if b == [] {
      assert a + b == a;
    } else {
      assert (a + b)[..|a + b| - 1] == a + b[..|b| - 1];
      PlainAppend(a, b[..|b| - 1]);
    }
  }

  lemma OrderKept(s: State, s': State, w: nat, bytes: seq<Byte>, pid: nat)
    requires pid in s.procs && s.procs[pid].task.Writing? && InOrder(s, pid)
    requires s'.q.inserted == s.q.inserted + Tag(w, bytes)
    requires pid in s'.procs && s'.procs[pid].task.Writing?
    requires var t, t' := s.procs[pid].task, s'.procs[pid].task;
             && t'.bytes == t.bytes && t'.start == t.start && t.i <= t'.i <= |t.bytes|
             && (if w == pid then bytes == t.bytes[t.i..t'.i] else t'.i == t.i)
    ensures InOrder(s', pid)
  {
    var t, t' := s.procs[pid].task, s'.procs[pid].task;
    assert s'.q.inserted[t.start..] == s.q.inserted[t.start..] + Tag(w, bytes);
    OfTag(s.q.inserted[t.start..], w, bytes, pid);
    assert t.bytes[..t'.i] == t.bytes[..t.i] + t.bytes[t.i..t'.i];
  }

  lemma WriteOrder(s: State, pid: nat, p: nat)
    requires Inv(s) && Enabled(s, Continue(pid)) && s.procs[pid].task.Writing?
    requires p in WriteStep(s, pid).procs && WriteStep(s, pid).procs[p].task.Writing?
    ensures InOrder(WriteStep(s, pid), p)
  {
    hide Of, Plain, Tag;
    assert InOrder(s, p) && InOrder(s, pid);
    var t := s.procs[pid].task;
    OrderKept(s, WriteStep(s, pid), pid, t.bytes[t.i..t.i + Stretch(s.q, t)], p);
  }

  /** A write that returns its length has put in exactly its bytes, in order, since it began. */
  lemma WriteReturns(s: State, pid: nat)
    requires Inv(s) && Enabled(s, Continue(pid)) && s.procs[pid].task.Writing?
    requires var t := s.procs[pid].task; t.i + Stretch(s.q, t) == |t.bytes|
    ensures var t := s.procs[pid].task; var all := WriteStep(s, pid).q.inserted;
            t.start <= |all| && Of(all[t.start..], pid) == t.bytes
  {
    hide Of, Plain, Tag;
    assert InOrder(s, pid);
    var t := s.procs[pid].task;
    var bytes := t.bytes[t.i..t.i + Stretch(s.q, t)];
    assert WriteStep(s, pid).q.inserted[t.start..] == s.q.inserted[t.start..] + Tag(pid, bytes);
    OfTag(s.q.inserted[t.start..], pid, bytes, pid);
    assert t.bytes[..t.i] + bytes == t.bytes;
  }

  lemma WriteKeeps(s: State, pid: nat)
    requires Inv(s) && Enabled(s, Continue(pid)) && s.procs[pid].task.Writing?
    ensures Inv(WriteStep(s, pid))
  {
    hide Of, Plain, Tag, InOrder;
    var s' := WriteStep(s, pid);
    forall p | p in s'.procs && s'.procs[p].task.Writing? ensures InOrder(s', p) {
      WriteOrder(s, pid, p);
    }
    assert s'.q.inserted[..s.q.taken] == s.q.inserted[..s.q.taken];
  }

  lemma ReadKeeps(s: State, pid: nat)
    requires Inv(s) && Enabled(s, Continue(pid)) && s.procs[pid].task.Reading?
    ensures Inv(ReadStep(s, pid))
  {
    hide Of, Plain, Tag;
    var s' := ReadStep(s, pid);
    forall p | p in s'.procs && s'.procs[p].task.Writing? ensures InOrder(s', p) {
      assert InOrder(s, p);
    }
    var a, b := s.q.inserted[..s.q.taken], s.q.inserted[s.q.taken..s'.q.taken];
    PlainAppend(a, b);
    assert s'.q.inserted[..s'.q.taken] == a + b;
  }

  lemma StepKeepsInv(s: State, a: Action)
    requires Inv(s) && Enabled(s, a)
    ensures Inv(Next(s, a))
  {
    var s' := Next(s, a);
    if a.Continue? {
      if s.procs[a.pid].task.Writing? {
        WriteKeeps(s, a.pid);
      } else {
        ReadKeeps(s, a.pid);
      }
    } else {
      forall p | p in s'.procs && s'.procs[p].task.Writing? ensures InOrder(s', p) {
        if a.BeginWrite? && p == a.pid {
          assert s.q.inserted[|s.q.inserted|..] == [];
        } else {
          assert InOrder(s, p);
        }
      }
    }
  }

  // ---- The ring, and the code that runs on it between two sleeps ----

  datatype WriteEnd = Wrote | WouldBlock | Failed

  datatype ReadEnd = Got(bytes: seq<Byte>) | MustWait | Killed

  class Ring {
    var data: seq<Byte>
    var nread: U32
    var nwrite: U32
    var readopen: bool
    var writeopen: bool
    var procs: map<nat, Proc>         // the processes that use the pipe, and the calls they are in
    ghost var inserted: seq<Item>     // every byte ever put in
    ghost var taken: nat              // how many of them were taken out
    ghost var output: seq<Byte>       // what the readers got

    ghost function S(): State
      reads this
    {
      State(Queue(inserted, taken, readopen, writeopen), procs, output)
    }

    /** The counters are the totals modulo 2^32, and the ring holds the bytes between them. */
    ghost predicate Valid()
      reads this
    {
      && |data| == PIPESIZE && taken <= |inserted| <= taken + PIPESIZE
      && nread == taken % TWO32 && nwrite == |inserted| % TWO32
      && (forall k {:trigger inserted[k]} | taken <= k < |inserted| :: data[k % PIPESIZE] == inserted[k].byte)
    }

    /** pipealloc(): an empty ring with both ends open. */
    constructor (pids: set<nat>)
      ensures Valid() && Inv(S()) && SleepOk(S()) && procs.Keys == pids
      ensures S().q == Queue([], 0, true, true) && output == []
    {
      data := seq(PIPESIZE, _ => 0);
      nread, nwrite, readopen, writeopen := 0, 0, true, true;
      procs := map p | p in pids :: Proc(Idle, false, false);
      inserted, taken, output := [], 0, [];
    }

    predicate IsFull()
      reads this
    {
      nwrite == (nread + PIPESIZE) % TWO32
    }

    predicate IsEmpty()
      reads this
    {
      nread == nwrite
    }

    /** The tests on the wrapped counters are the tests on the totals. */
    lemma Tests()
      requires Valid()
      ensures IsFull() <==> |inserted| == taken + PIPESIZE
      ensures IsEmpty() <==> |inserted| == taken
    {
      var n := |inserted| - taken;
      WrapSum(taken, n);
      WrapSum(taken, PIPESIZE);
      WrapEqual(taken, n, PIPESIZE);
      WrapEqual(taken, n, 0);
    }

    /** pipewrite(), from where its process is up to its next sleep or its return. */
    method Write(pid: nat) returns (r: WriteEnd)
      requires Valid() && Shape(S()) && Enabled(S(), Continue(pid)) && procs[pid].task.Writing?
      modifies this`data, this`nwrite, this`inserted, this`procs
      ensures Valid() && S() == WriteStep(old(S()), pid)
      ensures match r
              case Wrote =>
                && procs[pid].task.Idle?
                && old(procs[pid].task.i + Stretch(S().q, procs[pid].task) == |procs[pid].task.bytes|)
              case Failed => procs[pid].task.Idle? && (!readopen || procs[pid].killed) && |inserted| == taken + PIPESIZE
              case WouldBlock => procs[pid].asleep && readopen && !procs[pid].killed && |inserted| == taken + PIPESIZE
      ensures var t, room := old(procs[pid].task), 512 - (|old(inserted)| - taken);
              var k := if room < |t.bytes| - t.i then room else |t.bytes| - t.i;
              && inserted == old(inserted) + Tag(pid, t.bytes[t.i..t.i + k]) && (r == Wrote <==> t.i + k == |t.bytes|)
              && (r == WouldBlock ==> procs[pid].task == t.(i := t.i + k))
      ensures procs.Keys == old(procs).Keys && forall p | p in procs && p != pid ::
                procs[p] == if r != Failed && old(procs)[p].task.Reading? then old(procs)[p].(asleep := false)
                            else old(procs)[p]
    {
      hide Wake, Tag;
      var p := procs[pid];
      WakeIs(procs, true);
      var i := Insert(pid, p.task.bytes, p.task.i);
      Tests();
      if i == |p.task.bytes| {
        procs := Wake(procs, true)[pid := p.(task := Idle)];
        return Wrote;
      } else if !readopen || p.killed {
        procs := procs[pid := p.(task := Idle)];
        return Failed;
      }
      procs := Wake(procs, true)[pid := p.(task := p.task.(i := i), asleep := true)];
      return WouldBlock;
    }

    /** The loop of pipewrite(), from byte lo on: as many bytes as there is room for. */
    method Insert(ghost pid: nat, bytes: seq<Byte>, lo: nat) returns (i: nat)
      requires Valid() && lo <= |bytes|
      modifies this`data, this`nwrite, this`inserted
      ensures Valid() && i == lo + Min(old(PIPESIZE - (|inserted| - taken)), |bytes| - lo)
      ensures inserted == old(inserted) + Tag(pid, bytes[lo..i])
    {
      i := lo;
      Tests();
      while i < |bytes| && !IsFull()
        invariant lo <= i <= |bytes| && Valid() && inserted == old(inserted) + Tag(pid, bytes[lo..i])
        invariant IsFull() <==> |inserted| == taken + PIPESIZE
      {
        TagNext(pid, bytes, lo, i);
        Put(pid, bytes[i]);
        i := i + 1;
        Tests();
      }
    }

    /** data[write_pos()] = b; nwrite += 1. */
    method Put(ghost pid: nat, b: Byte)
      requires Valid() && |inserted| < taken + PIPESIZE
      modifies this`data, this`nwrite, this`inserted
      ensures Valid() && inserted == old(inserted) + [Item(pid, b)]
    {
      Wrap(|inserted|);
      Distinct(taken, |inserted|);
      data := data[nwrite % PIPESIZE := b];
      nwrite := (nwrite + 1) % TWO32;
      inserted := inserted + [Item(pid, b)];
    }

    /** data[read_pos()]; nread += 1. */
    method Get() returns (b: Byte)
      requires Valid() && taken < |inserted|
      modifies this`nread, this`taken
      ensures Valid() && taken == old(taken) + 1 && b == inserted[old(taken)].byte
    {
      Wrap(taken);
      b := data[nread % PIPESIZE];
      nread := (nread + 1) % TWO32;
      taken := taken + 1;
    }

    /** piperead(), from where its process is up to its next sleep or its return. */
    method Read(pid: nat) returns (r: ReadEnd)
      requires Valid() && Shape(S()) && Enabled(S(), Continue(pid)) && procs[pid].task.Reading?
      modifies this`nread, this`taken, this`procs, this`output
      ensures Valid() && S() == ReadStep(old(S()), pid)
      ensures match r
              case Got(bytes) =>
                var n, left := old(procs[pid].task.n), |inserted| - old(taken);
                && procs[pid].task.Idle? && output == old(output) + bytes && (left > 0 || !writeopen)
                && |bytes| == (if n < left then n else left) && taken == old(taken) + |bytes|
                && bytes == Plain(inserted[old(taken)..taken])
              case Killed => procs[pid].task.Idle? && procs[pid].killed && |inserted| == taken && writeopen
              case MustWait => procs[pid].asleep && !procs[pid].killed && |inserted| == taken && writeopen
      ensures !r.Got? ==> taken == old(taken)
      ensures procs.Keys == old(procs).Keys && forall p | p in procs && p != pid ::
                procs[p] == if r.Got? && old(procs)[p].task.Writing? then old(procs)[p].(asleep := false)
                            else old(procs)[p]
    {
      hide Wake, Plain;
      var p := procs[pid];
      WakeIs(procs, false);
      Tests();
      if IsEmpty() && writeopen {
        if p.killed {
          procs := procs[pid := p.(task := Idle)];
          return Killed;
        }
        procs := procs[pid := p.(asleep := true)];
        return MustWait;
      }
      var bytes := Remove(p.task.n);
      output := output + bytes;
      procs := Wake(procs, false)[pid := p.(task := Idle)];
      return Got(bytes);
    }

    /** The loop of piperead(): up to n bytes. */
    method Remove(n: nat) returns (bytes: seq<Byte>)
      requires Valid()
      modifies this`nread, this`taken
      ensures Valid() && taken == old(taken) + Min(n, |inserted| - old(taken))
      ensures bytes == Plain(inserted[old(taken)..taken])
    {
      bytes := [];
      var count := 0;
      Tests();
      while count < n && !IsEmpty()
        invariant count <= n && Valid() && taken == old(taken) + count && bytes == Plain(inserted[old(taken)..taken])
        invariant IsEmpty() <==> |inserted| == taken
        decreases n - count
      {
        PlainNext(inserted, old(taken), taken);
        var b := Get();
        bytes := bytes + [b];
        count := count + 1;
        Tests();
      }
    }

    /** pipeclose(): whether both ends are closed now, so that the page is freed. No call is left on it then. */
    method Pipeclose(writable: bool) returns (dead: bool)
      requires Valid() && Shape(S()) && Enabled(S(), Close(writable))
      modifies this`readopen, this`writeopen, this`procs
      ensures Valid() && S() == Next(old(S()), Close(writable))
      ensures dead <==> !readopen && !writeopen
      ensures if writable then !writeopen && readopen == old(readopen) else !readopen && writeopen == old(writeopen)
      ensures procs.Keys == old(procs).Keys && forall p | p in procs ::
                procs[p] == if (if writable then old(procs)[p].task.Reading? else old(procs)[p].task.Writing?)
                            then old(procs)[p].(asleep := false) else old(procs)[p]
      ensures dead && old(Inv(S())) ==> forall p | p in procs :: procs[p].task.Idle?
    {
      if writable {
        writeopen := false;
        procs := Wake(procs, true);
      } else {
        readopen := false;
        procs := Wake(procs, false);
      }
      dead := !readopen && !writeopen;
    }
  }

  lemma TagNext(pid: nat, bytes: seq<Byte>, lo: nat, i: nat)
    requires lo <= i < |bytes|
    ensures Tag(pid, bytes[lo..i + 1]) == Tag(pid, bytes[lo..i]) + [Item(pid, bytes[i])]
  {
    assert bytes[lo..i + 1][..i - lo] == bytes[lo..i];
  }

  lemma PlainNext(items: seq<Item>, lo: nat, i: nat)
    requires lo <= i < |items|
    ensures Plain(items[lo..i + 1]) == Plain(items[lo..i]) + [items[i].byte]
  {
    assert items[lo..i + 1][..i - lo] == items[lo..i];
  }

  /** The ring's size divides 2^32, so wrapping the counters moves no position. */
  lemma Wrap(n: nat)
    ensures n % TWO32 % PIPESIZE == n % PIPESIZE && (n % TWO32 + 1) % TWO32 == (n + 1) % TWO32
  {
    var q, r := n / TWO32, n % TWO32;
    var m, t := r / PIPESIZE, r % PIPESIZE;
    assert n == PIPESIZE * (0x80_0000 * q + m) + t;
    Slot(0x80_0000 * q + m, t);
    if r + 1 < TWO32 {
      Lap(q, r + 1);
    } else {
      Lap(q + 1, 0);
    }
  }

  lemma Slot(k: nat, t: nat)
    requires t < PIPESIZE
    ensures (PIPESIZE * k + t) % PIPESIZE == t
  {
  }

  lemma Lap(q: nat, r: nat)
    requires r < TWO32
    ensures (TWO32 * q + r) % TWO32 == r
  {
  }

  lemma WrapSum(t: nat, n: nat)
    ensures (t + n) % TWO32 == (t % TWO32 + n) % TWO32
  {
    assert t == t / TWO32 * TWO32 + t % TWO32;
  }

  /** Two totals less than 2^32 apart agree modulo 2^32 only if they are the same. */
  lemma WrapEqual(t: nat, m: nat, n: nat)
    requires m < TWO32 && n < TWO32
    ensures (t + m) % TWO32 == (t + n) % TWO32 <==> m == n
  {
    if (t + m) % TWO32 == (t + n) % TWO32 {
      var a, b := (t + m) / TWO32, (t + n) / TWO32;
      assert t + m == a * TWO32 + (t + m) % TWO32 && t + n == b * TWO32 + (t + n) % TWO32;
      assert m - n == (a - b) * TWO32;
    }
  }

  lemma Distinct(lo: nat, n: nat)
    requires lo <= n < lo + PIPESIZE
    ensures forall k | lo <= k < n :: k % PIPESIZE != n % PIPESIZE
  {
  }

  // ---- No lost wakeups, except one ----

  /** A sleeping reader: nothing to read, and somebody may write. A sleeping writer: no room, and somebody may read. */
  ghost predicate SleepOk(s: State) {
    forall p | p in s.procs && s.procs[p].asleep ::
      if s.procs[p].task.Reading? then |s.q.inserted| == s.q.taken && s.q.writeopen
      else |s.q.inserted| == s.q.taken + PIPESIZE && s.q.readopen
  }

  /** A killed writer fills the pipe and returns without waking the reader that sleeps on it. */
  ghost predicate Forgets(s: State, a: Action)
    requires Inv(s) && Enabled(s, a)
  {
    && a.Continue? && s.procs[a.pid].task.Writing? && s.procs[a.pid].killed
    && 0 < Room(s.q) < |s.procs[a.pid].task.bytes| - s.procs[a.pid].task.i
    && exists p :: p in s.procs && s.procs[p].asleep && s.procs[p].task.Reading?
  }

  /** Each step keeps the sleepers justified, exactly unless it is that one. */
  lemma SleepExact(s: State, a: Action)
    requires Inv(s) && Enabled(s, a) && SleepOk(s)
    ensures SleepOk(Next(s, a)) <==> !Forgets(s, a)
  {
    var s' := Next(s, a);
    if Forgets(s, a) {
      var p :| p in s.procs && s.procs[p].asleep && s.procs[p].task.Reading?;
      assert s'.procs[p] == s.procs[p];
    }
  }

  ghost predicate Run(s: State, acts: seq<Action>)
    requires Inv(s)
    decreases |acts|
  {
    acts == [] || (Enabled(s, acts[0]) && (StepKeepsInv(s, acts[0]); Run(Next(s, acts[0]), acts[1..])))
  }

  ghost function After(s: State, acts: seq<Action>): State
    requires Inv(s) && Run(s, acts)
    decreases |acts|
  {
    if acts == [] then s else
      StepKeepsInv(s, acts[0]);
      After(Next(s, acts[0]), acts[1..])
  }

  ghost predicate Mindful(s: State, acts: seq<Action>)
    requires Inv(s) && Run(s, acts)
    decreases |acts|
  {
    acts == [] || (!Forgets(s, acts[0]) && (StepKeepsInv(s, acts[0]); Mindful(Next(s, acts[0]), acts[1..])))
  }

  /** In every run: what was read is a prefix of what was written, each writer's bytes are in order, at most PIPESIZE
      bytes are between; and readers and writers never sleep together unless a killed writer forgot to wake. */
  lemma {:induction false} PipeRun(s: State, acts: seq<Action>)
    requires Inv(s) && Run(s, acts)
    ensures Inv(After(s, acts)) && After(s, acts).output <= Plain(After(s, acts).q.inserted)
    ensures SleepOk(s) && Mindful(s, acts) ==> SleepOk(After(s, acts)) && NotBoth(After(s, acts))
    decreases |acts|
  {
    if acts == [] {
      var a, b := s.q.inserted[..s.q.taken], s.q.inserted[s.q.taken..];
      assert a + b == s.q.inserted;
      PlainAppend(a, b);
    } else {
      StepKeepsInv(s, acts[0]);
      if SleepOk(s) {
        SleepExact(s, acts[0]);
      }
      PipeRun(Next(s, acts[0]), acts[1..]);
    }
  }

  /** A read of at least one byte comes back without any exactly if the pipe is empty, and its write end is closed or
      the reader has been killed. */
  lemma ReadsNothing(s: State, pid: nat)
    requires Inv(s) && Enabled(s, Continue(pid)) && s.procs[pid].task.Reading? && s.procs[pid].task.n > 0
    ensures var s' := Next(s, Continue(pid));
            s'.procs[pid].task.Idle? && s'.output == s.output <==>
            |s.q.inserted| == s.q.taken && (!s.q.writeopen || s.procs[pid].killed)
  {
    hide Wake, Plain, InOrder;
  }

  /** With the write end closed and the pipe empty, nothing more comes. */
  lemma {:induction false} StaysDry(s: State, acts: seq<Action>)
    requires Inv(s) && Run(s, acts) && !s.q.writeopen && s.q.taken == |s.q.inserted|
    ensures After(s, acts).q.inserted == s.q.inserted && After(s, acts).output == s.output
    decreases |acts|
  {
    hide Plain, InOrder, Wake;
    if acts != [] {
      StepKeepsInv(s, acts[0]);
      DryStep(s, acts[0]);
      StaysDry(Next(s, acts[0]), acts[1..]);
    }
  }

  lemma DryStep(s: State, a: Action)
    requires Inv(s) && Enabled(s, a) && !s.q.writeopen && s.q.taken == |s.q.inserted|
    ensures var s' := Next(s, a);
            !s'.q.writeopen && s'.q.inserted == s.q.inserted && s'.q.taken == s.q.taken && s'.output == s.output
  {
  }

  /** End of file, in every run: a reader that asks for at least one byte, has not been killed and gets none has seen
      the end. All that was ever written has been read then, and nothing is ever written again. */
  lemma EndOfFile(s0: State, acts: seq<Action>, pid: nat, later: seq<Action>)
    requires Inv(s0) && Run(s0, acts) && Inv(After(s0, acts))
    requires var s := After(s0, acts);
             && Enabled(s, Continue(pid)) && s.procs[pid].task.Reading? && s.procs[pid].task.n > 0
             && !s.procs[pid].killed
             && var s' := Next(s, Continue(pid));
                && s'.procs[pid].task.Idle? && s'.output == s.output
                && Inv(s') && Run(s', later)
    ensures var s, e := After(s0, acts), After(Next(After(s0, acts), Continue(pid)), later);
            e.output == s.output == Plain(e.q.inserted) && e.q.inserted == s.q.inserted
  {
    hide Plain, InOrder, Wake;
    var s := After(s0, acts);
    ReadsNothing(s, pid);
    assert s.q.inserted[..s.q.taken] == s.q.inserted;
    DryStep(s, Continue(pid));
    StaysDry(Next(s, Continue(pid)), later);
  }

  ghost predicate NotBoth(s: State) {
    forall p, r | p in s.procs && r in s.procs && s.procs[p].asleep && s.procs[r].asleep ::
      s.procs[p].task.Reading? <==> s.procs[r].task.Reading?
  }

  lemma RunCons(s: State, a: Action, acts: seq<Action>)
    requires Inv(s) && Enabled(s, a) && Inv(Next(s, a)) && Run(Next(s, a), acts)
    ensures Run(s, [a] + acts) && After(s, [a] + acts) == After(Next(s, a), acts)
  {
    assert ([a] + acts)[1..] == acts;
  }

  /** A killed writer on an empty pipe where process 1 sleeps. */
  lemma WriterFills(s: State, bytes: seq<Byte>) returns (acts: seq<Action>)
    requires |bytes| > PIPESIZE && Inv(s) && s.q == Queue([], 0, true, true)
    requires s.procs == map[1 := Proc(Reading(1), true, false), 2 := Proc(Idle, false, false)]
    ensures acts == [BeginWrite(2, bytes), Kill(2), Continue(2)] && Run(s, acts)
    ensures var e := After(s, acts);
            1 in e.procs && e.procs[1] == s.procs[1] && e.q.taken == 0 && |e.q.inserted| == PIPESIZE
  {
    hide Of, Plain, Tag, InOrder;
    acts := [BeginWrite(2, bytes), Kill(2), Continue(2)];
    var s1 := Next(s, acts[0]);
    StepKeepsInv(s, acts[0]);
    var s2 := Next(s1, acts[1]);
    StepKeepsInv(s1, acts[1]);
    StepKeepsInv(s2, acts[2]);
    var none: seq<Action> := [];
    RunCons(s2, Continue(2), none);
    RunCons(s1, Kill(2), [Continue(2)] + none);
    RunCons(s, BeginWrite(2, bytes), [Kill(2)] + ([Continue(2)] + none));
    assert acts == [BeginWrite(2, bytes)] + ([Kill(2)] + ([Continue(2)] + none));
  }

  /** The exception is real: a reader sleeps on an empty pipe, and a killed writer leaves it full. */
  lemma SleepsOnFull(bytes: seq<Byte>) returns (s: State, acts: seq<Action>)
    requires |bytes| > PIPESIZE
    ensures Inv(s) && SleepOk(s) && Run(s, acts)
    ensures var e := After(s, acts);
            1 in e.procs && e.procs[1].asleep && e.procs[1].task == Reading(1) && |e.q.inserted| == e.q.taken + PIPESIZE
  {
    hide Of, Plain, Tag;
    s := State(Queue([], 0, true, true), map[1 := Proc(Idle, false, false), 2 := Proc(Idle, false, false)], []);
    acts := [BeginRead(1, 1), Continue(1), BeginWrite(2, bytes), Kill(2), Continue(2)];
    var s1 := Next(s, acts[0]);
    StepKeepsInv(s, acts[0]);
    var s2 := Next(s1, acts[1]);
    StepKeepsInv(s1, acts[1]);
    var rest := WriterFills(s2, bytes);
    assert acts == [BeginRead(1, 1)] + ([Continue(1)] + rest);
    RunCons(s1, Continue(1), rest);
    RunCons(s, BeginRead(1, 1), [Continue(1)] + rest);
  }
}
