/** Open files (crates/fs/src/file.rs), the descriptor slots that name them (crates/syscall/src/sysfile.rs), and the
    pipe pages behind them. */
module Descriptors {
  import opened Common

  const NFILE := 100
  const NOFILE := 16

  datatype FType = NoType | PipeEnd(id: nat) | InodeFile(ip: nat)

  /** `gen` numbers the allocations of file structures. */
  datatype File = File(ftype: FType, refs: int, readable: bool, writable: bool, gen: nat)

  /** A pipe, and the files that are its two ends. */
  datatype Ends = Ends(readopen: bool, writeopen: bool, rf: nat, wf: nat)

  type Slot = (nat, nat)      // process, descriptor

  /** `slot` has the descriptors that are not null; `live` the file of each allocation in use. `cleaned` are the
      allocations whose cleanup ran, `freed` the pipes whose page was freed, `puts` the inodes given to iput(). */
  datatype State = State(file: seq<File>, slot: map<Slot, nat>, pipes: map<nat, Ends>, nextgen: nat,
                         live: map<nat, nat>, cleaned: seq<nat>, freed: seq<nat>, puts: seq<nat>)

  // ---- The invariant ----

  ghost function Names(slot: map<Slot, nat>, f: nat): set<Slot> {
    set k | k in slot && slot[k] == f
  }

  /** Each count is the number of slots that name the file, but for references in hand (e) and owed (d). */
  ghost predicate Counted(s: State, e: multiset<nat>, d: multiset<nat>, f: nat)
    requires f < |s.file|
  {
    s.file[f].refs + d[f] == |Names(s.slot, f)| + e[f] && s.file[f].refs >= 0
  }

  ghost predicate Balanced(s: State, e: multiset<nat>, d: multiset<nat>) {
    && |s.file| == NFILE && (forall k | k in s.slot :: s.slot[k] < NFILE && k.1 < NOFILE)
    && (forall f {:trigger Counted(s, e, d, f)} | 0 <= f < NFILE :: Counted(s, e, d, f))
  }

  ghost predicate FileOk(s: State, f: nat)
    requires f < |s.file|
  {
    var x := s.file[f];
    if x.refs <= 0 then x.ftype == NoType else
    && x.gen in s.live && s.live[x.gen] == f
    && match x.ftype
       case PipeEnd(id) => id in s.pipes && (if x.writable then s.pipes[id].writeopen && s.pipes[id].wf == f
                                             else s.pipes[id].readopen && s.pipes[id].rf == f)
       case _ => true
  }

  /** An open end has its file, and the page is freed exactly when both ends are closed. */
  ghost predicate PipeOk(s: State, id: nat)
    requires id in s.pipes
  {
    var p := s.pipes[id];
    && (p.readopen ==>
          p.rf < |s.file| && s.file[p.rf].refs > 0 && s.file[p.rf].ftype == PipeEnd(id) && !s.file[p.rf].writable)
    && (p.writeopen ==>
          p.wf < |s.file| && s.file[p.wf].refs > 0 && s.file[p.wf].ftype == PipeEnd(id) && s.file[p.wf].writable)
    && (id in s.freed <==> !p.readopen && !p.writeopen)
  }

  ghost predicate GenOk(s: State, g: nat)
    requires g in s.live
  {
    g < s.nextgen && g !in s.cleaned && s.live[g] < |s.file| && s.file[s.live[g]].refs > 0 && s.file[s.live[g]].gen == g
  }

  ghost predicate Kinds(s: State) {
    && |s.file| == NFILE
    && (forall f {:trigger FileOk(s, f)} | 0 <= f < NFILE :: FileOk(s, f))
    && (forall id {:trigger PipeOk(s, id)} | id in s.pipes :: PipeOk(s, id))
    && (forall g {:trigger GenOk(s, g)} | g in s.live :: GenOk(s, g))
    && (forall g: nat | g < s.nextgen :: g in s.live || g in s.cleaned)
    && (forall g | g in s.cleaned :: g < s.nextgen) && (forall id | id in s.freed :: id in s.pipes)
    && NoRepeats(s.cleaned) && NoRepeats(s.freed)
  }

  /** Between system calls. */
  ghost predicate Inv(s: State) {
    Balanced(s, multiset{}, multiset{}) && Kinds(s)
  }

  // ---- Changes of slots ----

  lemma NamesAdd(slot: map<Slot, nat>, k: Slot, f: nat, g: nat)
    requires k !in slot
    ensures |Names(slot[k := f], g)| == |Names(slot, g)| + if f == g then 1 else 0
  {
    assert Names(slot[k := f], g) == if f == g then Names(slot, g) + {k} else Names(slot, g);
  }

  lemma NamesRemove(slot: map<Slot, nat>, k: Slot, g: nat)
    requires k in slot
    ensures |Names(slot - {k}, g)| == |Names(slot, g)| - if slot[k] == g then 1 else 0
  {
    assert Names(slot - {k}, g) == if slot[k] == g then Names(slot, g) - {k} else Names(slot, g);
  }

  lemma SlotSet(s: State, k: Slot, f: nat, e: multiset<nat>, d: multiset<nat>)
    requires Balanced(s, e + multiset{f}, d) && k !in s.slot && k.1 < NOFILE && f < NFILE
    ensures Balanced(s.(slot := s.slot[k := f]), e, d)
  {
    var t := s.(slot := s.slot[k := f]);
    forall g | 0 <= g < NFILE ensures Counted(t, e, d, g) {
      assert Counted(s, e + multiset{f}, d, g);
      NamesAdd(s.slot, k, f, g);
    }
  }

  lemma SlotClear(s: State, k: Slot, e: multiset<nat>, d: multiset<nat>)
    requires Balanced(s, e, d) && k in s.slot
    ensures Balanced(s.(slot := s.slot - {k}), e + multiset{s.slot[k]}, d)
  {
    var t := s.(slot := s.slot - {k});
    forall g | 0 <= g < NFILE ensures Counted(t, e + multiset{s.slot[k]}, d, g) {
      assert Counted(s, e, d, g);
      NamesRemove(s.slot, k, g);
    }
  }

  /** A reference in hand and one owed cancel. */
  lemma Cancel(s: State, f: nat, e: multiset<nat>, d: multiset<nat>)
    ensures Balanced(s, e + multiset{f}, d + multiset{f}) <==> Balanced(s, e, d)
  {
    if |s.file| == NFILE {
      forall g | 0 <= g < NFILE ensures Counted(s, e + multiset{f}, d + multiset{f}, g) <==> Counted(s, e, d, g) {}
      if Balanced(s, e, d) {
        forall g | 0 <= g < NFILE
          ensures Counted(s, e + multiset{f}, d + multiset{f}, g) { assert Counted(s, e, d, g); }
      }
      if Balanced(s, e + multiset{f}, d + multiset{f}) {
        forall g | 0 <= g < NFILE
          ensures Counted(s, e, d, g) { assert Counted(s, e + multiset{f}, d + multiset{f}, g); }
      }
    }
  }

  lemma KindsSlot(s: State, slot: map<Slot, nat>)
    requires Kinds(s)
    ensures Kinds(s.(slot := slot))
  {
    var t := s.(slot := slot);
    forall f | 0 <= f < NFILE ensures FileOk(t, f) { assert FileOk(s, f); }
    forall id | id in t.pipes ensures PipeOk(t, id) { assert PipeOk(s, id); }
    forall g | g in t.live ensures GenOk(t, g) { assert GenOk(s, g); }
  }

  // ---- Changes of files ----

  /** filealloc() on free structure f. */
  ghost function Allocated(s: State, f: nat): State
    requires f < |s.file|
  {
    s.(file := s.file[f := s.file[f].(refs := 1, gen := s.nextgen)],
       nextgen := s.nextgen + 1, live := s.live[s.nextgen := f])
  }

  lemma AllocKeeps(s: State, f: nat, e: multiset<nat>, d: multiset<nat>)
    requires Balanced(s, e, d) && Kinds(s) && f < NFILE && s.file[f].refs == 0
    ensures Balanced(Allocated(s, f), e + multiset{f}, d) && Kinds(Allocated(s, f))
  {
    var t := Allocated(s, f);
    forall g | 0 <= g < NFILE ensures Counted(t, e + multiset{f}, d, g) { assert Counted(s, e, d, g); }
    assert FileOk(s, f);
    forall g | 0 <= g < NFILE ensures FileOk(t, g) {
      assert FileOk(s, g);
      assert s.file[g].refs > 0 ==> GenOk(s, s.file[g].gen);
    }
    forall id | id in t.pipes ensures PipeOk(t, id) { assert PipeOk(s, id); }
    forall g | g in t.live ensures GenOk(t, g) { if g != s.nextgen { assert GenOk(s, g); } }
  }

  ghost function Dupped(s: State, f: nat): State
    requires f < |s.file|
  {
    s.(file := s.file[f := s.file[f].(refs := s.file[f].refs + 1)])
  }

  /** A count that changes and stays positive. */
  lemma RefKinds(s: State, f: nat, n: int)
    requires Kinds(s) && f < NFILE && s.file[f].refs > 0 && n > 0
    ensures Kinds(s.(file := s.file[f := s.file[f].(refs := n)]))
  {
    var t := s.(file := s.file[f := s.file[f].(refs := n)]);
    forall g | 0 <= g < NFILE ensures FileOk(t, g) { assert FileOk(s, g); }
    forall id | id in t.pipes ensures PipeOk(t, id) { assert PipeOk(s, id); }
    forall g | g in t.live ensures GenOk(t, g) { assert GenOk(s, g); }
  }

  lemma DupKeeps(s: State, f: nat, e: multiset<nat>, d: multiset<nat>)
    requires Balanced(s, e, d) && Kinds(s) && f < NFILE && s.file[f].refs > 0
    ensures Balanced(Dupped(s, f), e + multiset{f}, d) && Kinds(Dupped(s, f))
  {
    var t := Dupped(s, f);
    forall g | 0 <= g < NFILE ensures Counted(t, e + multiset{f}, d, g) { assert Counted(s, e, d, g); }
    RefKinds(s, f, s.file[f].refs + 1);
  }

  /** pipeclose(). */
  function Shut(p: Ends, writable: bool): Ends {
    if writable then p.(writeopen := false) else p.(readopen := false)
  }

  ghost function PipeShut(s: State, id: nat, writable: bool): State
    requires id in s.pipes
  {
    var p := Shut(s.pipes[id], writable);
    s.(pipes := s.pipes[id := p], freed := if !p.readopen && !p.writeopen then s.freed + [id] else s.freed)
  }

  /** fileclose(): the last reference clears the structure and runs the cleanup. */
  ghost function Dropped(s: State, f: nat): State
    requires f < |s.file| && (s.file[f].refs <= 1 && s.file[f].ftype.PipeEnd? ==> s.file[f].ftype.id in s.pipes)
  {
    var x := s.file[f];
    if x.refs > 1 then s.(file := s.file[f := x.(refs := x.refs - 1)]) else
    var t := s.(file := s.file[f := x.(refs := 0, ftype := NoType)],
                live := s.live - {x.gen}, cleaned := s.cleaned + [x.gen]);
    match x.ftype
    case PipeEnd(id) => PipeShut(t, id, x.writable)
    case InodeFile(ip) => t.(puts := t.puts + [ip])
    case NoType => t
  }

  lemma DropLast(s: State, f: nat)
    requires Kinds(s) && f < NFILE && s.file[f].refs == 1
    ensures FileOk(s, f) && Kinds(Dropped(s, f))
  {
    assert FileOk(s, f);
    if s.file[f].ftype.PipeEnd? {
      DropEnd(s, f);
    } else {
      DropPlain(s, f);
    }
  }

  /** The last reference to a file that is no end of a pipe. */
  lemma DropPlain(s: State, f: nat)
    requires Kinds(s) && f < NFILE && s.file[f].refs == 1 && !s.file[f].ftype.PipeEnd?
    ensures Kinds(Dropped(s, f))
  {
    var x, t := s.file[f], Dropped(s, f);
    assert FileOk(s, f) && GenOk(s, x.gen);
    assert t == s.(file := t.file, live := t.live, cleaned := t.cleaned, puts := t.puts);
    assert t.file == s.file[f := x.(refs := 0, ftype := NoType)] && t.live == s.live - {x.gen}
           && t.cleaned == s.cleaned + [x.gen];
    hide Dropped;
    forall g | 0 <= g < NFILE ensures FileOk(t, g) { assert FileOk(s, g); }
    forall id | id in t.pipes ensures PipeOk(t, id) { assert PipeOk(s, id); }
    forall g | g in t.live ensures GenOk(t, g) { assert GenOk(s, g); }
  }

  /** The last reference to an end of a pipe. */
  lemma DropEnd(s: State, f: nat)
    requires Kinds(s) && f < NFILE && s.file[f].refs == 1 && s.file[f].ftype.PipeEnd? && s.file[f].ftype.id in s.pipes
    ensures Kinds(Dropped(s, f))
  {
    var x, t := s.file[f], Dropped(s, f);
    assert FileOk(s, f) && GenOk(s, x.gen) && PipeOk(s, x.ftype.id);
    forall g | 0 <= g < NFILE ensures FileOk(t, g) { assert FileOk(s, g); }
    forall id | id in t.pipes ensures PipeOk(t, id) { assert PipeOk(s, id); }
    forall g | g in t.live ensures GenOk(t, g) { assert GenOk(s, g); }
  }

  lemma DropKeeps(s: State, f: nat, e: multiset<nat>, d: multiset<nat>)
    requires Balanced(s, e + multiset{f}, d) && Kinds(s) && f < NFILE && s.file[f].refs > 0
    ensures FileOk(s, f) && Balanced(Dropped(s, f), e, d) && Kinds(Dropped(s, f))
  {
    assert FileOk(s, f);
    if s.file[f].refs == 1 {
      DropLast(s, f);
    } else {
      RefKinds(s, f, s.file[f].refs - 1);
    }
    var t := Dropped(s, f);
    forall g | 0 <= g < NFILE ensures Counted(t, e, d, g) { assert Counted(s, e + multiset{f}, d, g); }
  }

  /** The two ends of a new pipe. */
  ghost function Piped(s: State, id: nat, rf: nat, wf: nat): State
    requires rf < |s.file| && wf < |s.file|
  {
    s.(file := s.file[rf := s.file[rf].(ftype := PipeEnd(id), readable := true, writable := false)]
                     [wf := s.file[wf].(ftype := PipeEnd(id), readable := false, writable := true)],
       pipes := s.pipes[id := Ends(true, true, rf, wf)])
  }

  lemma PipeKeeps(s: State, id: nat, rf: nat, wf: nat, e: multiset<nat>, d: multiset<nat>)
    requires Balanced(s, e, d) && Kinds(s) && rf < NFILE && wf < NFILE && rf != wf && id !in s.pipes
    requires s.file[rf].refs > 0 && s.file[rf].ftype == NoType && s.file[wf].refs > 0 && s.file[wf].ftype == NoType
    ensures Balanced(Piped(s, id, rf, wf), e, d) && Kinds(Piped(s, id, rf, wf))
  {
    var t := Piped(s, id, rf, wf);
    forall g | 0 <= g < NFILE ensures Counted(t, e, d, g) { assert Counted(s, e, d, g); }
    assert FileOk(s, rf) && FileOk(s, wf);
    forall g | 0 <= g < NFILE ensures FileOk(t, g) { assert FileOk(s, g); }
    forall i | i in t.pipes ensures PipeOk(t, i) { if i != id { assert PipeOk(s, i); } }
    forall g | g in t.live ensures GenOk(t, g) { assert GenOk(s, g); }
  }

  // ---- The code ----

  class FileTable {
    var file: seq<File>
    var slot: map<Slot, nat>
    var pipes: map<nat, Ends>
    var nextpipe: nat
    var nextgen: nat
    ghost var live: map<nat, nat>
    ghost var cleaned: seq<nat>
    ghost var freed: seq<nat>
    ghost var puts: seq<nat>

    ghost function S(): State
      reads this
    {
      State(file, slot, pipes, nextgen, live, cleaned, freed, puts)
    }

    /** Pipe pages are numbered as they are taken. */
    ghost predicate Fresh()
      reads this
    {
      forall id | id in pipes :: id < nextpipe
    }

    /** The empty table. */
    constructor ()
      ensures Inv(S()) && Fresh() && slot == map[]
    {
      file := seq(NFILE, _ => File(NoType, 0, false, false, 0));
      slot, pipes, nextpipe := map[], map[], 0;
      nextgen, live, cleaned, freed, puts := 0, map[], [], [], [];
      new;
      forall f | 0 <= f < NFILE ensures Counted(S(), multiset{}, multiset{}, f) && FileOk(S(), f) {
        assert Names(slot, f) == {};
      }
    }

    /** filealloc(): the first free structure. */
    method Filealloc(ghost e: multiset<nat>) returns (r: Option<nat>)
      requires Balanced(S(), e, multiset{}) && Kinds(S())
      modifies this`file, this`nextgen, this`live
      ensures |file| == |old(file)| == 100
      ensures r.None? ==> S() == old(S()) && forall f | 0 <= f < NFILE :: file[f].refs > 0
      ensures r.Some? ==> r.value < NFILE && old(file)[r.value].refs == 0 && S() == Allocated(old(S()), r.value)
      ensures r.Some? ==> forall f | 0 <= f < r.value :: file[f].refs > 0
      ensures r.Some? ==> Balanced(S(), e + multiset{r.value}, multiset{}) && Kinds(S())
      ensures r.Some? ==> file[r.value].ftype == NoType && file[r.value].refs == 1
      ensures r.Some? ==> file == old(file)[r.value := file[r.value]] && pipes == old(pipes) && puts == old(puts)
    {
      var i := 0;
      while i < |file|
        invariant 0 <= i <= |file| && S() == old(S()) && forall f | 0 <= f < i :: file[f].refs > 0
      {
        assert Counted(S(), e, multiset{}, i);
        if file[i].refs == 0 {
          AllocKeeps(S(), i, e, multiset{});
          assert FileOk(S(), i);
          file := file[i := file[i].(refs := 1, gen := nextgen)];
          live := live[nextgen := i];
          nextgen := nextgen + 1;
          return Some(i);
        }
        i := i + 1;
      }
      return None;
    }

    /** filedup(); false stands for its panic. */
    method Filedup(f: nat) returns (ok: bool)
      requires f < |file|
      modifies this`file
      ensures ok <==> old(file)[f].refs >= 1
      ensures S() == if ok then Dupped(old(S()), f) else old(S())
      ensures ok ==> file == old(file)[f := old(file)[f].(refs := old(file)[f].refs + 1)]
    {
      if file[f].refs < 1 {
        return false;
      }
      file := file[f := file[f].(refs := file[f].refs + 1)];
      return true;
    }

    /** pipeclose(): the end is closed, and with the second one the page is freed. */
    method ShutEnd(id: nat, writable: bool)
      requires id in pipes
      modifies this`pipes, this`freed
      ensures S() == PipeShut(old(S()), id, writable)
      ensures var p := old(pipes)[id];
              if writable then
                && pipes == old(pipes)[id := p.(writeopen := false)]
                && freed == (if p.readopen then old(freed) else old(freed) + [id])
              else
                && pipes == old(pipes)[id := p.(readopen := false)]
                && freed == (if p.writeopen then old(freed) else old(freed) + [id])
    {
      if writable {
        pipes := pipes[id := pipes[id].(writeopen := false)];
      } else {
        pipes := pipes[id := pipes[id].(readopen := false)];
      }
      if !pipes[id].readopen && !pipes[id].writeopen {
        freed := freed + [id];
      }
    }

    /** fileclose(), with pipeclose(); false stands for its panic. */
    method Fileclose(f: nat) returns (ok: bool)
      requires f < |file| && (file[f].refs == 1 && file[f].ftype.PipeEnd? ==> file[f].ftype.id in pipes)
      modifies this`file, this`pipes, this`live, this`cleaned, this`freed, this`puts
      ensures ok <==> old(file)[f].refs >= 1
      ensures ok ==> S() == Dropped(old(S()), f)
      ensures !ok ==> S() == old(S())
      ensures ok ==> file == old(file)[f := file[f]] && file[f].refs == old(file)[f].refs - 1
      ensures ok && file[f].refs > 0 ==> file[f].ftype == old(file)[f].ftype && pipes == old(pipes) && puts == old(puts)
      ensures ok && file[f].refs == 0 ==>
                && file[f].ftype == NoType
                && match old(file)[f].ftype
                   case NoType => pipes == old(pipes) && freed == old(freed) && puts == old(puts)
                   case InodeFile(ip) => pipes == old(pipes) && freed == old(freed) && puts == old(puts) + [ip]
                   case PipeEnd(id) =>
                     var p := old(pipes)[id];
                     && puts == old(puts)
                     && (if old(file)[f].writable then
                           && pipes == old(pipes)[id := p.(writeopen := false)]
                           && freed == (if p.readopen then old(freed) else old(freed) + [id])
                         else
                           && pipes == old(pipes)[id := p.(readopen := false)]
                           && freed == (if p.writeopen then old(freed) else old(freed) + [id]))
    {
      if file[f].refs < 1 {
        return false;
      }
      var x := file[f];
      file := file[f := x.(refs := x.refs - 1)];
      if file[f].refs > 0 {
        return true;
      }
      file := file[f := file[f].(ftype := NoType)];
      live, cleaned := live - {x.gen}, cleaned + [x.gen];
      if x.ftype.PipeEnd? {
        ShutEnd(x.ftype.id, x.writable);
      } else if x.ftype.InodeFile? {
        puts := puts + [x.ftype.ip];
      }
      return true;
    }

    /** fdalloc(): the first free descriptor of process p. */
    method Fdalloc(p: nat, f: nat) returns (fd: int)
      modifies this`slot
      ensures fd == -1 ==> slot == old(slot) && forall n: nat | n < 16 :: (p, n) in slot
      ensures fd != -1 ==> 0 <= fd < 16 && (p, fd) !in old(slot) && (forall m: nat | m < fd :: (p, m) in old(slot))
      ensures fd != -1 ==> slot == old(slot)[(p, fd) := f]
    {
      for n := 0 to NOFILE
        invariant slot == old(slot) && forall m: nat | m < n :: (p, m) in slot
      {
        if (p, n) !in slot {
          slot := slot[(p, n) := f];
          return n;
        }
      }
      return -1;
    }

    /** sys_dup(). */
    method Dup(p: nat, fd: nat) returns (r: int)
      requires Inv(S())
      modifies this`file, this`slot
      ensures Inv(S())
      ensures r == -1 ==> slot == old(slot)
      ensures r != -1 ==> (p, fd) in old(slot) && 0 <= r < NOFILE && (p, r) !in old(slot)
      ensures r != -1 ==> forall m: nat | m < r :: (p, m) in old(slot)
      ensures r != -1 ==> slot == old(slot)[(p, r) := old(slot)[(p, fd)]]
      ensures (p, fd) in old(slot) && (exists n: nat | n < NOFILE :: (p, n) !in old(slot)) ==> r != -1
    {
      if (p, fd) !in slot {
        return -1;
      }
      var f := slot[(p, fd)];
      ghost var s, none := S(), multiset{};
      NamedHasRef(s, (p, fd), none, none);
      r := Fdalloc(p, f);
      if r < 0 {
        return -1;
      }
      DupKeeps(s, f, none, none);
      SlotSet(Dupped(s, f), (p, r as nat), f, none, none);
      KindsSlot(Dupped(s, f), slot);
      var ok := Filedup(f);
      assert S() == Dupped(s, f).(slot := s.slot[(p, r as nat) := f]);
    }

    /** sys_close(). */
    method Close(p: nat, fd: nat) returns (r: int)
      requires Inv(S())
      modifies this`file, this`slot, this`pipes, this`live, this`cleaned, this`freed, this`puts
      ensures Inv(S()) && slot == old(slot) - {(p, fd)} && old(cleaned) <= cleaned
      ensures r == if (p, fd) in old(slot) then 0 else -1
      ensures r == 0 ==> var x := old(file)[old(slot)[(p, fd)]];
                         puts == if x.refs == 1 && x.ftype.InodeFile? then old(puts) + [x.ftype.ip] else old(puts)
    {
      if (p, fd) !in slot {
        assert slot - {(p, fd)} == slot;
        return -1;
      }
      ghost var s, none := S(), multiset{};
      var f := slot[(p, fd)];
      NamedHasRef(s, (p, fd), none, none);
      SlotClear(s, (p, fd), none, none);
      slot := slot - {(p, fd)};
      KindsSlot(s, slot);
      DropKeeps(S(), f, none, none);
      var ok := Fileclose(f);
      return 0;
    }

    /** pipealloc(): two file structures and a page, or nothing. */
    method Pipealloc() returns (r: Option<(nat, nat)>)
      requires Inv(S()) && Fresh()
      modifies this
      ensures slot == old(slot) && Fresh()
      ensures r.None? ==> Inv(S()) && pipes == old(pipes) && ShortOfFiles(old(file))
      ensures r.Some? ==> var (rf, wf) := r.value; IsPipe(S(), rf, wf) && Balanced(S(), multiset{rf, wf}, multiset{})
    {
      hide Balanced, Kinds, Dropped;
      ghost var none := multiset{};
      var f0 := Filealloc(none);
      if f0.None? {
        return None;
      }
      assert none + multiset{f0.value} == multiset{f0.value};
      var f1 := Filealloc(multiset{f0.value});
      if f1.None? {
        OneShort(old(file), file, f0.value);
        DropKeeps(S(), f0.value, none, none);
        var ok := Fileclose(f0.value);
        return None;
      }
      var rf, wf := f0.value, f1.value;
      assert multiset{rf} + multiset{wf} == multiset{rf, wf};
      FreshPipe(S(), nextpipe);
      PipeKeeps(S(), nextpipe, rf, wf, multiset{rf, wf}, none);
      pipes := pipes[nextpipe := Ends(true, true, rf, wf)];
      file := file[rf := file[rf].(ftype := PipeEnd(nextpipe), readable := true, writable := false)];
      file := file[wf := file[wf].(ftype := PipeEnd(nextpipe), readable := false, writable := true)];
      nextpipe := nextpipe + 1;
      return Some((rf, wf));
    }

    /** fileclose() of both ends of a pipe that got no descriptors. */
    method Abandon(rf: nat, wf: nat)
      requires IsPipe(S(), rf, wf) && Balanced(S(), multiset{rf, wf}, multiset{}) && Fresh()
      modifies this`file, this`pipes, this`live, this`cleaned, this`freed, this`puts
      ensures Inv(S()) && Fresh()
    {
      hide Balanced, Kinds;
      ghost var none := multiset{};
      assert multiset{rf, wf} == multiset{wf} + multiset{rf};
      DropKeeps(S(), rf, multiset{wf}, none);
      var ok := Fileclose(rf);
      assert multiset{wf} == none + multiset{wf};
      DropKeeps(S(), wf, none, none);
      ok := Fileclose(wf);
    }

    /** sys_pipe(): two descriptors of process p, or nothing. */
    method Pipe(p: nat) returns (r: Option<(nat, nat)>)
      requires Inv(S()) && Fresh()
      modifies this
      ensures Inv(S()) && Fresh()
      ensures r.None? ==> slot == old(slot) && (ShortOfFiles(old(file)) || ShortOfSlots(old(slot), p))
      ensures r.Some? ==> var (fd0, fd1) := r.value;
        && fd0 != fd1 && (p, fd0) !in old(slot) && (p, fd1) !in old(slot) && (p, fd0) in slot && (p, fd1) in slot
        && slot == old(slot)[(p, fd0) := slot[(p, fd0)]][(p, fd1) := slot[(p, fd1)]]
        && IsPipe(S(), slot[(p, fd0)], slot[(p, fd1)])
    {
      hide Balanced, Kinds;
      var a := Pipealloc();
      if a.None? {
        return None;
      }
      var (rf, wf) := a.value;
      ghost var s, none := S(), multiset{};
      var fd0 := Fdalloc(p, rf);
      if fd0 < 0 {
        Abandon(rf, wf);
        return None;
      }
      assert multiset{rf, wf} == multiset{wf} + multiset{rf};
      SlotSet(s, (p, fd0 as nat), rf, multiset{wf}, none);
      KindsSlot(s, slot);
      ghost var t := S();
      var fd1 := Fdalloc(p, wf);
      if fd1 < 0 {
        slot := slot - {(p, fd0 as nat)};
        SlotBack(s, (p, fd0 as nat), rf);
        Abandon(rf, wf);
        return None;
      }
      assert multiset{wf} == none + multiset{wf};
      SlotSet(t, (p, fd1 as nat), wf, none, none);
      KindsSlot(t, slot);
      return Some((fd0, fd1));
    }

    /** fork()'s loop: the child's descriptors are those of the parent. */
    method Fork(p: nat, np: nat)
      requires Inv(S()) && p != np && forall n: nat :: (np, n) !in slot
      modifies this`file, this`slot
      ensures Inv(S())
      ensures forall k :: k in slot <==> k in old(slot) || (k.0 == np && (p, k.1) in old(slot))
      ensures forall k | k in slot :: slot[k] == if k.0 == np then old(slot)[(p, k.1)] else old(slot)[k]
    {
      hide Balanced, Kinds;
      ghost var none := multiset{};
      for n := 0 to NOFILE
        invariant Inv(S())
        invariant forall k :: k in slot <==> k in old(slot) || (k.0 == np && k.1 < n && (p, k.1) in old(slot))
        invariant forall k | k in slot :: slot[k] == if k.0 == np then old(slot)[(p, k.1)] else old(slot)[k]
      {
        if (p, n) in slot {
          ghost var s := S();
          var f := slot[(p, n)];
          NamedHasRef(s, (p, n), none, none);
          DupKeeps(s, f, none, none);
          SlotSet(Dupped(s, f), (np, n as nat), f, none, none);
          KindsSlot(Dupped(s, f), slot[(np, n as nat) := f]);
          var ok := Filedup(f);
          slot := slot[(np, n) := f];
        }
      }
      SlotBound(old(S()));
    }

    /** exit()'s loop: every descriptor of the process is closed. */
    method Exit(p: nat)
      requires Inv(S())
      modifies this`file, this`slot, this`pipes, this`live, this`cleaned, this`freed, this`puts
      ensures Inv(S()) && old(cleaned) <= cleaned && old(freed) <= freed
      ensures forall k :: k in slot <==> k in old(slot) && k.0 != p
      ensures forall k | k in slot :: slot[k] == old(slot)[k]
    {
      hide Balanced, Kinds;
      for n := 0 to NOFILE
        invariant Inv(S()) && old(cleaned) <= cleaned && old(freed) <= freed
        invariant forall k :: k in slot <==> k in old(slot) && !(k.0 == p && k.1 < n)
        invariant forall k | k in slot :: slot[k] == old(slot)[k]
      {
        if (p, n) in slot {
          CloseSlot(p, n);
        }
      }
      SlotBound(old(S()));
    }

    /** One turn of it: fileclose() first, and then the descriptor is cleared. */
    method CloseSlot(p: nat, n: nat)
      requires Inv(S()) && (p, n) in slot
      modifies this`file, this`slot, this`pipes, this`live, this`cleaned, this`freed, this`puts
      ensures Inv(S()) && old(cleaned) <= cleaned && old(freed) <= freed && slot == old(slot) - {(p, n)}
    {
      hide Balanced, Kinds;
      ghost var none, s := multiset{}, S();
      var f := slot[(p, n)];
      NamedHasRef(s, (p, n), none, none);
      Cancel(s, f, none, none);
      DropKeeps(s, f, none, none + multiset{f});
      var ok := Fileclose(f);
      SlotClear(S(), (p, n), none, none + multiset{f});
      Cancel(S().(slot := slot - {(p, n)}), f, none, none);
      KindsSlot(S(), slot - {(p, n)});
      slot := slot - {(p, n)};
    }
  }

  ghost predicate ShortOfFiles(file: seq<File>) {
    forall f, g | 0 <= f < g < |file| :: file[f].refs > 0 || file[g].refs > 0
  }

  /** With one structure taken there is no other. */
  lemma OneShort(file: seq<File>, file': seq<File>, f: nat)
    requires f < |file| == |file'| && file' == file[f := file'[f]] && forall g | 0 <= g < |file'| :: file'[g].refs > 0
    ensures ShortOfFiles(file)
  {
    forall g, h | 0 <= g < h < |file| ensures file[g].refs > 0 || file[h].refs > 0 {
      assert file'[g].refs > 0 && file'[h].refs > 0;
    }
  }

  ghost predicate ShortOfSlots(slot: map<Slot, nat>, p: nat) {
    forall m: nat, n: nat | m < n < NOFILE :: (p, m) in slot || (p, n) in slot
  }

  /** rf and wf are the two ends of one pipe, both open. */
  ghost predicate IsPipe(s: State, rf: nat, wf: nat) {
    && Kinds(s) && |s.file| == NFILE && rf < NFILE && wf < NFILE && rf != wf
    && s.file[rf].refs > 0 && s.file[wf].refs > 0
    && s.file[rf].ftype.PipeEnd? && s.file[wf].ftype == s.file[rf].ftype
    && s.file[rf].readable && !s.file[rf].writable && s.file[wf].writable && !s.file[wf].readable
    && s.file[rf].ftype.id in s.pipes && s.pipes[s.file[rf].ftype.id] == Ends(true, true, rf, wf)
  }

  lemma FreshPipe(s: State, id: nat)
    requires Kinds(s) && forall i | i in s.pipes :: i < id
    ensures id !in s.pipes && |s.file| == NFILE
  {
  }

  lemma SlotBack(s: State, k: Slot, f: nat)
    requires k !in s.slot
    ensures s.slot[k := f] - {k} == s.slot
  {
  }

  lemma SlotBound(s: State)
    requires Inv(s)
    ensures forall k | k in s.slot :: k.1 < NOFILE
  {
  }

  /** When no slot is open, every file structure ever taken was cleaned up once, and every pipe page freed once. */
  lemma AllClosed(s: State)
    requires Inv(s) && s.slot == map[]
    ensures forall g: nat | g < s.nextgen :: g in s.cleaned
    ensures forall id | id in s.pipes :: id in s.freed
    ensures NoRepeats(s.cleaned) && NoRepeats(s.freed)
  {
    forall f | 0 <= f < NFILE ensures s.file[f].refs == 0 {
      assert Counted(s, multiset{}, multiset{}, f);
      assert Names(s.slot, f) == {};
    }
    forall g: nat | g < s.nextgen ensures g in s.cleaned {
      assert g in s.live ==> GenOk(s, g);
    }
    forall id | id in s.pipes ensures id in s.freed {
      assert PipeOk(s, id);
    }
  }

  /** A pipe page is freed only after both ends are closed, and an open descriptor never reaches a freed page. */
  lemma OpenPipe(s: State, k: Slot)
    requires Inv(s) && k in s.slot
    ensures s.slot[k] < NFILE && s.file[s.slot[k]].refs > 0
    ensures s.file[s.slot[k]].ftype.PipeEnd? ==>
              s.file[s.slot[k]].ftype.id in s.pipes && s.file[s.slot[k]].ftype.id !in s.freed
  {
    NamedHasRef(s, k, multiset{}, multiset{});
    var f := s.slot[k];
    assert FileOk(s, f);
    if s.file[f].ftype.PipeEnd? {
      assert PipeOk(s, s.file[f].ftype.id);
    }
  }

  /** A file that a slot names has a reference, so neither panic is within reach. */
  lemma NamedHasRef(s: State, k: Slot, e: multiset<nat>, d: multiset<nat>)
    requires Balanced(s, e, d) && k in s.slot && d[s.slot[k]] == 0
    ensures s.slot[k] < NFILE == |s.file| && s.file[s.slot[k]].refs > 0
  {
    var f := s.slot[k];
    assert Counted(s, e, d, f);
    assert k in Names(s.slot, f);
    assert |Names(s.slot, f)| > 0;
  }
}
