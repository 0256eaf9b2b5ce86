/** The life of processes (crates/proc/src/proc.rs), as steps over the process table. A step is what a process does
    under ptable.lock, or what fork() does to a slot that is still its own. */
module Processes {
  import opened Common

  const NPROC := 64

  datatype PState = UNUSED | EMBRYO | SLEEPING | RUNNABLE | RUNNING | ZOMBIE

  datatype Chan = NoChan | OnProc(slot: nat) | Other(id: nat)

  /** Where in the kernel a process is: nowhere in particular, in fork() with slot np, or in wait(). */
  datatype Pc = User | Forking(np: nat) | Waiting

  /** One slot. `kstack` and `pgdir` number the allocations, 0 for none; `filler` is the process that fills an
      embryo. */
  datatype Proc = Proc(state: PState, pid: nat, parent: Option<nat>, chan: Chan, killed: bool, kstack: nat, pgdir: nat,
                       pc: Pc, filler: nat)

  /** The table, with the pids that wait() returned and the allocations it freed. */
  datatype Table = Table(procs: seq<Proc>, init: nat, nextpid: nat, nextalloc: nat, reaped: seq<nat>, freed: seq<nat>)

  // ---- The invariant ----

  predicate Alive(p: Proc) {
    p.state != UNUSED && p.state != ZOMBIE
  }

  ghost predicate ParentOk(t: Table, i: nat)
    requires i < |t.procs|
  {
    var p := t.procs[i];
    match p.parent
    case None => p.state == UNUSED || p.state == EMBRYO || i == t.init
    case Some(q) => q < |t.procs| && q != i && Alive(t.procs[q]) && p.state != UNUSED && i != t.init
  }

  ghost predicate SlotOk(t: Table, i: nat)
    requires i < |t.procs|
  {
    var p := t.procs[i];
    && (if p.state == UNUSED then p.pid == 0 && p.kstack == 0 && p.pgdir == 0 && p.pc == User
        else 0 < p.pid < t.nextpid)
    && (p.state == EMBRYO ==> p.filler < |t.procs| && t.procs[p.filler].pc == Forking(i) && p.pc == User
                              && (if p.kstack == 0 then p.parent == None else p.parent == Some(p.filler)))
    && (p.state != UNUSED && p.state != EMBRYO ==> p.kstack != 0 && p.pgdir != 0)
    && (p.kstack == 0 <==> p.pgdir == 0) && p.kstack < t.nextalloc && p.pgdir < t.nextalloc
    && (p.kstack != 0 ==> p.kstack != p.pgdir)
    && (p.pc.Forking? ==> (p.state == RUNNING || p.state == RUNNABLE) && p.pc.np < |t.procs|
                          && t.procs[p.pc.np].state == EMBRYO && t.procs[p.pc.np].filler == i)
  }

  /** A process that sleeps on a process sleeps on itself, in wait(), is not killed and has no zombie to collect. */
  ghost predicate SleepOk(t: Table, i: nat)
    requires i < |t.procs|
  {
    var p := t.procs[i];
    && (p.state == SLEEPING && p.pc == Waiting ==> p.chan == OnProc(i) && !p.killed && !ZombieChild(t, i))
    && (p.state == SLEEPING && p.chan.OnProc? ==> p.chan == OnProc(i) && p.pc == Waiting)
  }

  ghost predicate ZombieChild(t: Table, i: nat) {
    exists c | 0 <= c < |t.procs| :: t.procs[c].parent == Some(i) && t.procs[c].state == ZOMBIE
  }

  /** No two slots share a pid, a stack or a page table, and none holds what was already reaped or freed. */
  ghost predicate Apart(t: Table, i: nat, j: nat)
    requires i < |t.procs| && j < |t.procs|
  {
    var p, q := t.procs[i], t.procs[j];
    && (p.pid == q.pid ==> p.pid == 0)
    && (p.kstack != 0 ==> p.kstack != q.kstack && p.kstack != q.pgdir && p.pgdir != q.kstack && p.pgdir != q.pgdir)
  }

  ghost predicate Gone(t: Table, i: nat)
    requires i < |t.procs|
  {
    var p := t.procs[i];
    && (p.pid != 0 ==> p.pid !in t.reaped)
    && (p.kstack != 0 ==> p.kstack !in t.freed && p.pgdir !in t.freed)
  }

  ghost predicate Inv(t: Table) {
    && |t.procs| == NPROC && t.init < NPROC && Alive(t.procs[t.init]) && t.procs[t.init].state != EMBRYO
    && 0 < t.nextpid && 0 < t.nextalloc
    && (forall i {:trigger ParentOk(t, i)} | 0 <= i < NPROC :: ParentOk(t, i))
    && (forall i {:trigger SlotOk(t, i)} | 0 <= i < NPROC :: SlotOk(t, i))
    && (forall i {:trigger SleepOk(t, i)} | 0 <= i < NPROC :: SleepOk(t, i))
    && Resources(t)
  }

  ghost predicate Resources(t: Table) {
    && (forall i, j {:trigger Apart(t, i, j)} | 0 <= i < j < |t.procs| :: Apart(t, i, j))
    && (forall i {:trigger Gone(t, i)} | 0 <= i < |t.procs| :: Gone(t, i))
    && NoRepeats(t.reaped) && NoRepeats(t.freed)
    && (forall x | x in t.reaped :: 0 < x < t.nextpid) && (forall x | x in t.freed :: 0 < x < t.nextalloc)
  }

  // ---- The steps, slot by slot ----

  function WokenSlot(p: Proc, c: Chan): Proc {
    if p.state == SLEEPING && p.chan == c then p.(state := RUNNABLE) else p
  }

  /** wakeup1() and wakeup(). */
  ghost predicate Woken(t: Table, u: Table, c: Chan) {
    && u == t.(procs := u.procs) && |u.procs| == |t.procs|
    && forall i {:trigger u.procs[i]} | 0 <= i < |t.procs| :: u.procs[i] == WokenSlot(t.procs[i], c)
  }

  /** The scheduler picks slot i, or it yields. */
  ghost predicate Scheduled(t: Table, u: Table, i: nat) {
    && i < |t.procs|
    && if t.procs[i].state == RUNNABLE then
         u == t.(procs := t.procs[i := t.procs[i].(state := RUNNING, chan := NoChan)])
       else t.procs[i].state == RUNNING && u == t.(procs := t.procs[i := t.procs[i].(state := RUNNABLE)])
  }

  /** sleep() on something that is not a process. */
  ghost predicate Slept(t: Table, u: Table, i: nat, id: nat) {
    && i < |t.procs| && t.procs[i].state == RUNNING && t.procs[i].pc == User
    && u == t.(procs := t.procs[i := t.procs[i].(state := SLEEPING, chan := Other(id))])
  }

  /** exit()'s effect on slot i. */
  ghost function ExitSlot(t: Table, me: nat, i: nat): Proc
    requires me < |t.procs| && i < |t.procs| && t.procs[me].parent.Some?
  {
    var p := WokenSlot(t.procs[i], OnProc(t.procs[me].parent.value));
    var q := if p.parent == Some(me) then p.(parent := Some(t.init)) else p;
    var r := if ZombieChild(t, me) then WokenSlot(q, OnProc(t.init)) else q;
    if i == me then r.(state := ZOMBIE) else r
  }

  ghost predicate Exited(t: Table, u: Table, me: nat) {
    && me < |t.procs| && me != t.init && t.procs[me].state == RUNNING && t.procs[me].pc == User
    && t.procs[me].parent.Some?
    && u == t.(procs := u.procs) && |u.procs| == |t.procs|
    && forall i {:trigger u.procs[i]} | 0 <= i < |t.procs| :: u.procs[i] == ExitSlot(t, me, i)
  }

  /** What exit() of process me does to slot j: children go to init, me becomes a zombie, and who sleeps on the parent
      is woken, and who sleeps on init if a child was a zombie already; nothing else changes. */
  ghost predicate AfterExit(p: Proc, q: Proc, me: nat, init: nat, parent: nat, zombie: bool, j: nat) {
    q == p.(parent := if p.parent == Some(me) then Some(init) else p.parent,
            state := if j == me then ZOMBIE
                     else if p.state == SLEEPING && (p.chan == OnProc(parent) || (p.chan == OnProc(init) && zombie))
                     then RUNNABLE else p.state)
  }

  lemma ExitMeans(t: Table, u: Table, me: nat)
    requires Exited(t, u, me)
    ensures forall j | 0 <= j < |t.procs| ::
              AfterExit(t.procs[j], u.procs[j], me, t.init, t.procs[me].parent.value, ZombieChild(t, me), j)
  {
    hide ZombieChild;
    forall j | 0 <= j < |t.procs|
      ensures AfterExit(t.procs[j], u.procs[j], me, t.init, t.procs[me].parent.value, ZombieChild(t, me), j)
    {
      assert u.procs[j] == ExitSlot(t, me, j);
    }
  }

  /** The slot that wait() leaves behind. */
  function Cleared(p: Proc): Proc {
    p.(state := UNUSED, pid := 0, parent := None, killed := false, kstack := 0, pgdir := 0, pc := User)
  }

  /** wait() finds zombie c. */
  ghost predicate Reaps(t: Table, u: Table, me: nat, c: nat) {
    && me < |t.procs| && c < |t.procs| && me != c && t.procs[me].state == RUNNING && !t.procs[me].pc.Forking?
    && t.procs[c].parent == Some(me) && t.procs[c].state == ZOMBIE
    && u == t.(procs := t.procs[c := Cleared(t.procs[c])][me := t.procs[me].(pc := User, chan := NoChan)],
               reaped := t.reaped + [t.procs[c].pid], freed := t.freed + [t.procs[c].kstack, t.procs[c].pgdir])
  }

  ghost predicate HasChild(t: Table, me: nat) {
    exists c | 0 <= c < |t.procs| :: t.procs[c].parent == Some(me)
  }

  /** wait() finds no zombie: it fails without children or when killed, and sleeps otherwise. */
  ghost predicate WaitsOrFails(t: Table, u: Table, me: nat) {
    && me < |t.procs| && t.procs[me].state == RUNNING && !t.procs[me].pc.Forking? && !ZombieChild(t, me)
    && u == t.(procs := t.procs[me :=
         if !HasChild(t, me) || t.procs[me].killed then t.procs[me].(pc := User, chan := NoChan)
         else t.procs[me].(state := SLEEPING, chan := OnProc(me), pc := Waiting)])
  }

  /** fork(), first part: allocproc() takes slot np. */
  ghost predicate Embryo(t: Table, u: Table, me: nat, np: nat) {
    && me < |t.procs| && np < |t.procs| && t.procs[me].state == RUNNING && t.procs[me].pc == User
    && t.procs[np].state == UNUSED
    && u == t.(procs := t.procs[np := t.procs[np].(state := EMBRYO, pid := t.nextpid, chan := NoChan, filler := me)]
                               [me := t.procs[me].(pc := Forking(np))],
               nextpid := t.nextpid + 1)
  }

  /** Second part: the slot gets a stack, a copy of the address space, and its parent. */
  ghost predicate Furnished(t: Table, u: Table, me: nat) {
    && me < |t.procs| && t.procs[me].state == RUNNING && t.procs[me].pc.Forking?
    && var np := t.procs[me].pc.np;
    && np < |t.procs| && t.procs[np].parent == None && t.procs[np].kstack == 0
    && u == t.(procs := t.procs[np := t.procs[np].(kstack := t.nextalloc, pgdir := t.nextalloc + 1,
                                                   parent := Some(me))],
               nextalloc := t.nextalloc + 2)
  }

  /** Last part: the child can run. */
  ghost predicate Born(t: Table, u: Table, me: nat) {
    && me < |t.procs| && t.procs[me].state == RUNNING && t.procs[me].pc.Forking?
    && var np := t.procs[me].pc.np;
    && np < |t.procs| && np != me && t.procs[np].parent == Some(me)
    && u == t.(procs := t.procs[np := t.procs[np].(state := RUNNABLE)][me := t.procs[me].(pc := User)])
  }

  /** kill()'s effect on the slot it finds. */
  function KilledSlot(p: Proc): Proc {
    p.(killed := true, state := if p.state == SLEEPING then RUNNABLE else p.state)
  }

  /** The first slot from k on with that pid, NPROC if there is none. */
  function FirstPid(procs: seq<Proc>, pid: int, k: nat): (i: nat)
    requires k <= |procs|
    ensures k <= i <= |procs| && (i < |procs| ==> procs[i].pid == pid)
    ensures forall j | k <= j < i :: procs[j].pid != pid
    decreases |procs| - k
  {
    if k == |procs| || procs[k].pid == pid then k else FirstPid(procs, pid, k + 1)
  }

  /** kill(). */
  ghost function Killed(t: Table, pid: int): Table {
    var i := FirstPid(t.procs, pid, 0);
    if i < |t.procs| then t.(procs := t.procs[i := KilledSlot(t.procs[i])]) else t
  }

  // ---- Each step keeps the invariant ----

  /** Resources are a matter of pids, stacks and page tables. */
  lemma ResourcesKept(t: Table, u: Table)
    requires Resources(t) && |u.procs| == |t.procs| && u.reaped == t.reaped && u.freed == t.freed
    requires u.nextpid >= t.nextpid && u.nextalloc >= t.nextalloc
    requires forall i | 0 <= i < |t.procs| ::
               u.procs[i].pid == t.procs[i].pid && u.procs[i].kstack == t.procs[i].kstack
                 && u.procs[i].pgdir == t.procs[i].pgdir
    ensures Resources(u)
  {
    forall i, j | 0 <= i < j < |u.procs| ensures Apart(u, i, j) { assert Apart(t, i, j); }
    forall i | 0 <= i < |u.procs| ensures Gone(u, i) { assert Gone(t, i); }
  }

  /** A change of scheduling state in one slot. */
  lemma LightKeeps(t: Table, u: Table, i: nat, p: Proc)
    requires Inv(t) && i < NPROC && u == t.(procs := t.procs[i := p])
    requires var q := t.procs[i];
             && p == q.(state := p.state, chan := p.chan, killed := p.killed, pc := p.pc)
             && Alive(q) && q.state != EMBRYO && Alive(p) && p.state != EMBRYO
             && (p.pc == q.pc || (!p.pc.Forking? && !q.pc.Forking?)) && (p.pc.Forking? ==> p.state != SLEEPING)
             && (p.state == SLEEPING && p.pc == Waiting ==> p.chan == OnProc(i) && !p.killed && !ZombieChild(t, i))
             && (p.state == SLEEPING && p.chan.OnProc? ==> p.chan == OnProc(i) && p.pc == Waiting)
    ensures Inv(u)
  {
    assert SlotOk(t, i);
    forall j | 0 <= j < NPROC ensures ParentOk(u, j) { assert ParentOk(t, j); }
    forall j | 0 <= j < NPROC ensures SlotOk(u, j) { assert SlotOk(t, j); }
    forall j | 0 <= j < NPROC ensures SleepOk(u, j) {
      assert SleepOk(t, j);
      ZombiesSame(t, u, j);
    }
    ResourcesKept(t, u);
  }

  lemma ScheduledKeeps(t: Table, u: Table, i: nat)
    requires Inv(t) && Scheduled(t, u, i)
    ensures Inv(u)
  {
    LightKeeps(t, u, i, u.procs[i]);
  }

  lemma SleptKeeps(t: Table, u: Table, i: nat, id: nat)
    requires Inv(t) && Slept(t, u, i, id)
    ensures Inv(u)
  {
    LightKeeps(t, u, i, u.procs[i]);
  }

  lemma WaitsKeeps(t: Table, u: Table, me: nat)
    requires Inv(t) && WaitsOrFails(t, u, me)
    ensures Inv(u)
  {
    LightKeeps(t, u, me, u.procs[me]);
  }

  lemma ZombiesSame(t: Table, u: Table, j: nat)
    requires |u.procs| == |t.procs|
    requires forall c | 0 <= c < |t.procs| && u.procs[c].state == ZOMBIE ::
               t.procs[c].state == ZOMBIE && t.procs[c].parent == u.procs[c].parent
    ensures ZombieChild(u, j) ==> ZombieChild(t, j)
  {
  }

  lemma WokenKeeps(t: Table, u: Table, c: Chan)
    requires Inv(t) && Woken(t, u, c)
    ensures Inv(u)
  {
    forall j | 0 <= j < NPROC ensures ParentOk(u, j) { assert ParentOk(t, j); }
    forall j | 0 <= j < NPROC ensures SlotOk(u, j) { assert SlotOk(t, j); }
    forall j | 0 <= j < NPROC ensures SleepOk(u, j) {
      assert SleepOk(t, j);
      ZombiesSame(t, u, j);
    }
    ResourcesKept(t, u);
  }

  /** What exit() leaves of a slot, in short. */
  lemma ExitShort(t: Table, u: Table, me: nat, j: nat)
    requires Inv(t) && Exited(t, u, me) && j < NPROC
    ensures |u.procs| == NPROC && u == t.(procs := u.procs)
    ensures var p, q := t.procs[j], u.procs[j];
            && q == p.(state := q.state, parent := q.parent)
            && q.parent == (if p.parent == Some(me) then Some(t.init) else p.parent)
            && q.state ==
              (if j == me then ZOMBIE else if p.state == SLEEPING && q.state == RUNNABLE then RUNNABLE else p.state)
  {
    hide ZombieChild;
    assert u.procs[j] == ExitSlot(t, me, j);
  }

  lemma ExitParents(t: Table, u: Table, me: nat, j: nat)
    requires Inv(t) && Exited(t, u, me) && j < NPROC
    ensures ParentOk(u, j)
  {
    hide ZombieChild, ExitSlot;
    assert ParentOk(t, j) && SlotOk(t, j);
    ExitShort(t, u, me, j);
    ExitShort(t, u, me, t.init);
    if t.procs[j].parent.Some? {
      ExitShort(t, u, me, t.procs[j].parent.value);
    }
  }

  lemma ExitSlots(t: Table, u: Table, me: nat, j: nat)
    requires Inv(t) && Exited(t, u, me) && j < NPROC
    ensures SlotOk(u, j)
  {
    hide ZombieChild, ExitSlot;
    assert SlotOk(t, j) && SlotOk(t, me);
    ExitShort(t, u, me, j);
    if t.procs[j].state == EMBRYO {
      ExitShort(t, u, me, t.procs[j].filler);
    }
    if t.procs[j].pc.Forking? {
      ExitShort(t, u, me, t.procs[j].pc.np);
      assert SlotOk(t, t.procs[j].pc.np);
    }
  }

  lemma ExitSleeps(t: Table, u: Table, me: nat, j: nat)
    requires Inv(t) && Exited(t, u, me) && j < NPROC
    ensures SleepOk(u, j)
  {
    assert SleepOk(t, j) && u.procs[j] == ExitSlot(t, me, j);
    if u.procs[j].state == SLEEPING && u.procs[j].pc == Waiting {
      forall c | 0 <= c < NPROC ensures !(u.procs[c].parent == Some(j) && u.procs[c].state == ZOMBIE) {
        assert u.procs[c] == ExitSlot(t, me, c);
        assert ParentOk(t, c);
      }
    }
  }

  lemma ExitKeeps(t: Table, u: Table, me: nat)
    requires Inv(t) && Exited(t, u, me)
    ensures Inv(u)
  {
    forall j | 0 <= j < NPROC ensures ParentOk(u, j) && SlotOk(u, j) && SleepOk(u, j) {
      ExitParents(t, u, me, j);
      ExitSlots(t, u, me, j);
      ExitSleeps(t, u, me, j);
    }
    forall j | 0 <= j < NPROC ensures u.procs[j] == ExitSlot(t, me, j) {}
    ResourcesKept(t, u);
  }

  lemma ReapsKeeps(t: Table, u: Table, me: nat, c: nat)
    requires Inv(t) && Reaps(t, u, me, c)
    ensures Inv(u)
  {
    assert SlotOk(t, me) && SlotOk(t, c) && ParentOk(t, c);
    forall j | 0 <= j < NPROC ensures ParentOk(u, j) { assert ParentOk(t, j); }
    forall j | 0 <= j < NPROC ensures SlotOk(u, j) {
      assert SlotOk(t, j);
      assert t.procs[j].state == EMBRYO ==> SlotOk(t, t.procs[j].filler);
    }
    forall j | 0 <= j < NPROC ensures SleepOk(u, j) {
      assert SleepOk(t, j);
      ZombiesSame(t, u, j);
    }
    ReapsResources(t, u, me, c);
  }

  lemma ReapsResources(t: Table, u: Table, me: nat, c: nat)
    requires Inv(t) && Reaps(t, u, me, c)
    ensures Resources(u)
  {
    assert SlotOk(t, c) && Gone(t, c);
    forall i, j | 0 <= i < j < |u.procs| ensures Apart(u, i, j) {
      assert Apart(t, i, j) && SlotOk(t, i) && SlotOk(t, j);
    }
    forall i | 0 <= i < |u.procs| ensures Gone(u, i) {
      assert Gone(t, i);
      assert i < c ==> Apart(t, i, c);
      assert c < i ==> Apart(t, c, i);
    }
  }

  lemma EmbryoKeeps(t: Table, u: Table, me: nat, np: nat)
    requires Inv(t) && Embryo(t, u, me, np)
    ensures Inv(u)
  {
    assert SlotOk(t, me) && SlotOk(t, np) && ParentOk(t, np);
    forall j | 0 <= j < NPROC ensures ParentOk(u, j) { assert ParentOk(t, j); }
    forall j | 0 <= j < NPROC ensures SlotOk(u, j) { assert SlotOk(t, j); }
    forall j | 0 <= j < NPROC ensures SleepOk(u, j) {
      assert SleepOk(t, j);
      ZombiesSame(t, u, j);
    }
    forall i, j | 0 <= i < j < |u.procs| ensures Apart(u, i, j) {
      assert Apart(t, i, j) && SlotOk(t, i) && SlotOk(t, j);
    }
    forall i | 0 <= i < |u.procs| ensures Gone(u, i) { assert Gone(t, i); }
  }

  lemma FurnishedKeeps(t: Table, u: Table, me: nat)
    requires Inv(t) && Furnished(t, u, me)
    ensures Inv(u)
  {
    var np := t.procs[me].pc.np;
    assert SlotOk(t, me) && SlotOk(t, np) && ParentOk(t, np);
    forall j | 0 <= j < NPROC ensures ParentOk(u, j) { assert ParentOk(t, j); }
    forall j | 0 <= j < NPROC ensures SlotOk(u, j) { assert SlotOk(t, j); }
    forall j | 0 <= j < NPROC ensures SleepOk(u, j) {
      assert SleepOk(t, j);
      ZombiesSame(t, u, j);
    }
    forall i, j | 0 <= i < j < |u.procs| ensures Apart(u, i, j) {
      assert Apart(t, i, j) && SlotOk(t, i) && SlotOk(t, j);
    }
    forall i | 0 <= i < |u.procs| ensures Gone(u, i) { assert Gone(t, i); }
  }

  lemma BornKeeps(t: Table, u: Table, me: nat)
    requires Inv(t) && Born(t, u, me)
    ensures Inv(u)
  {
    var np := t.procs[me].pc.np;
    assert SlotOk(t, me) && SlotOk(t, np) && ParentOk(t, np);
    forall j | 0 <= j < NPROC ensures ParentOk(u, j) { assert ParentOk(t, j); }
    forall j | 0 <= j < NPROC ensures SlotOk(u, j) { assert SlotOk(t, j); }
    forall j | 0 <= j < NPROC ensures SleepOk(u, j) {
      assert SleepOk(t, j) && SleepOk(t, np);
      ZombiesSame(t, u, j);
    }
    ResourcesKept(t, u);
  }

  lemma KillKeeps(t: Table, u: Table, i: nat)
    requires Inv(t) && i < NPROC && u == t.(procs := t.procs[i := KilledSlot(t.procs[i])])
    ensures Inv(u)
  {
    assert SlotOk(t, i);
    forall j | 0 <= j < NPROC ensures ParentOk(u, j) { assert ParentOk(t, j); }
    forall j | 0 <= j < NPROC ensures SlotOk(u, j) { assert SlotOk(t, j); }
    forall j | 0 <= j < NPROC ensures SleepOk(u, j) {
      assert SleepOk(t, j);
      ZombiesSame(t, u, j);
    }
    ResourcesKept(t, u);
  }

  lemma KilledKeeps(t: Table, pid: int)
    requires Inv(t)
    ensures Inv(Killed(t, pid)) && Killed(t, pid).reaped == t.reaped && Killed(t, pid).freed == t.freed
  {
    var i := FirstPid(t.procs, pid, 0);
    if i < NPROC {
      KillKeeps(t, Killed(t, pid), i);
    }
  }

  // ---- Whole runs ----

  ghost predicate Step(t: Table, u: Table) {
    || (exists c :: Woken(t, u, c))
    || (exists i :: Scheduled(t, u, i))
    || (exists i, id :: Slept(t, u, i, id))
    || (exists i :: Exited(t, u, i))
    || (exists i, c :: Reaps(t, u, i, c))
    || (exists i :: WaitsOrFails(t, u, i))
    || (exists i, np :: Embryo(t, u, i, np))
    || (exists i :: Furnished(t, u, i))
    || (exists i :: Born(t, u, i))
    || (exists pid: int :: u == Killed(t, pid))
  }

  lemma StepKeeps(t: Table, u: Table)
    requires Inv(t) && Step(t, u)
    ensures Inv(u) && t.reaped <= u.reaped && t.freed <= u.freed
  {
    hide Inv;
    if c :| Woken(t, u, c) { WokenKeeps(t, u, c); }
    else if i :| Scheduled(t, u, i) { ScheduledKeeps(t, u, i); }
    else if i, id :| Slept(t, u, i, id) { SleptKeeps(t, u, i, id); }
    else if i :| Exited(t, u, i) { ExitKeeps(t, u, i); }
    else if i, c :| Reaps(t, u, i, c) { ReapsKeeps(t, u, i, c); }
    else if i :| WaitsOrFails(t, u, i) { WaitsKeeps(t, u, i); }
    else if i, np :| Embryo(t, u, i, np) { EmbryoKeeps(t, u, i, np); }
    else if i :| Furnished(t, u, i) { FurnishedKeeps(t, u, i); }
    else if i :| Born(t, u, i) { BornKeeps(t, u, i); }
    else {
      var pid: int :| u == Killed(t, pid);
      KilledKeeps(t, pid);
    }
  }

  ghost predicate Run(s: seq<Table>) {
    |s| > 0 && forall i | 0 < i < |s| :: Step(s[i - 1], s[i])
  }

  lemma {:induction false} RunKeeps(s: seq<Table>)
    requires Run(s) && Inv(s[0])
    ensures Inv(s[|s| - 1]) && s[0].reaped <= s[|s| - 1].reaped && s[0].freed <= s[|s| - 1].freed
  {
    hide Inv, Step;
    if |s| > 1 {
      var t := s[..|s| - 1];
      RunKeeps(t);
      assert Step(s[|s| - 2], s[|s| - 1]);
      StepKeeps(t[|t| - 1], s[|s| - 1]);
    }
  }

  /**
    In every run from a table with init alone: a process that ran has a parent that is alive, unless it is init; no
    process sleeps in wait() while it has a zombie child or is killed; no pid is returned twice, and no stack or page
    table freed twice.
   */
  lemma ProcessRun(s: seq<Table>, i: nat)
    requires Run(s) && Inv(s[0]) && i < 64
    ensures var t := s[|s| - 1];
            && |t.procs| == 64 && t.init < 64
            && var p := t.procs[i];
            && (p.state != UNUSED && p.state != EMBRYO && i != t.init ==>
                  p.parent.Some? && p.parent.value < NPROC && Alive(t.procs[p.parent.value]))
            && (p.state == SLEEPING && p.pc == Waiting ==> !ZombieChild(t, i) && !p.killed)
            && NoRepeats(t.reaped) && NoRepeats(t.freed)
  {
    RunKeeps(s);
    var t := s[|s| - 1];
    assert ParentOk(t, i) && SleepOk(t, i);
  }

  // ---- What kill(0) does ----

  /** The step is a kill(0) that finds slot i. */
  ghost predicate Marks(t: Table, u: Table, i: nat) {
    u == Killed(t, 0) && FirstPid(t.procs, 0, 0) == i < |t.procs|
  }

  /** An unused slot is marked as killed if it was before, or if a kill(0) finds it; nothing else marks it. */
  lemma UnusedStep(t: Table, u: Table, i: nat)
    requires Inv(t) && Step(t, u) && i < NPROC && |u.procs| == NPROC && u.procs[i].state == UNUSED
    ensures u.procs[i].killed <==> (t.procs[i].state == UNUSED && t.procs[i].killed) || Marks(t, u, i)
  {
    hide Step;
    assert SlotOk(t, i);
    if c :| Woken(t, u, c) {
      assert u.procs[i] == WokenSlot(t.procs[i], c);
    } else if me :| Exited(t, u, me) {
      ExitShort(t, u, me, i);
    } else {
      UnusedRest(t, u, i);
    }
  }

  lemma UnusedRest(t: Table, u: Table, i: nat)
    requires Inv(t) && Step(t, u) && i < NPROC && |u.procs| == NPROC && u.procs[i].state == UNUSED
    requires !(exists c :: Woken(t, u, c)) && !(exists me :: Exited(t, u, me))
    ensures u.procs[i].killed <==> (t.procs[i].state == UNUSED && t.procs[i].killed) || Marks(t, u, i)
  {
    hide Killed, Reaps, Embryo, Furnished, Born, Scheduled, Slept, WaitsOrFails;
    if pid: int :| u == Killed(t, pid) {
      UnusedKill(t, u, pid, i);
    } else if me, c :| Reaps(t, u, me, c) {
      UnusedReap(t, u, me, c, i);
    } else {
      assert !Marks(t, u, i);
      UnusedOther(t, u, i);
    }
  }

  lemma UnusedReap(t: Table, u: Table, me: nat, c: nat, i: nat)
    requires Inv(t) && Reaps(t, u, me, c) && u != Killed(t, 0) && i < NPROC && u.procs[i].state == UNUSED
    ensures u.procs[i].killed <==> (t.procs[i].state == UNUSED && t.procs[i].killed) || Marks(t, u, i)
  {
  }

  lemma UnusedOther(t: Table, u: Table, i: nat)
    requires |t.procs| == |u.procs| == NPROC && i < NPROC && u.procs[i].state == UNUSED
    requires || (exists me :: Scheduled(t, u, me)) || (exists me, id :: Slept(t, u, me, id))
             || (exists me :: WaitsOrFails(t, u, me)) || (exists me, np :: Embryo(t, u, me, np))
             || (exists me :: Furnished(t, u, me)) || (exists me :: Born(t, u, me))
    ensures t.procs[i].state == UNUSED && u.procs[i].killed == t.procs[i].killed
  {
    hide HasChild, ZombieChild;
  }

  lemma UnusedKill(t: Table, u: Table, pid: int, i: nat)
    requires Inv(t) && u == Killed(t, pid) && i < NPROC && u.procs[i].state == UNUSED
    ensures u.procs[i].killed <==> t.procs[i].killed || Marks(t, u, i)
    ensures t.procs[i].state == UNUSED
  {
    assert SlotOk(t, i);
  }

  /** The k-th state of the run is the one in which slot i was marked, and it has been unused ever since. */
  ghost predicate MarkedAt(s: seq<Table>, k: nat, i: nat) {
    && 0 < k < |s| && Marks(s[k - 1], s[k], i)
    && forall m | k <= m < |s| :: i < |s[m].procs| && s[m].procs[i].state == UNUSED
  }

  /** In a run that begins without marked slots, an unused slot is marked exactly if a kill(0) found it since it
      became unused. */
  lemma {:induction false} MarkedRun(s: seq<Table>, i: nat)
    requires Run(s) && Inv(s[0]) && i < NPROC && (s[0].procs[i].state == UNUSED ==> !s[0].procs[i].killed)
    ensures var t := s[|s| - 1];
            && |t.procs| == NPROC
            && (t.procs[i].state == UNUSED ==> (t.procs[i].killed <==> exists k: nat :: MarkedAt(s, k, i)))
  {
    RunKeeps(s);
    if |s| > 1 && s[|s| - 1].procs[i].state == UNUSED {
      var r, n := s[..|s| - 1], |s| - 1;
      MarkedRun(r, i);
      RunKeeps(r);
      assert Step(s[n - 1], s[n]);
      UnusedStep(s[n - 1], s[n], i);
      MarkedMore(s, r, n, i);
    }
  }

  lemma MarkedMore(s: seq<Table>, r: seq<Table>, n: nat, i: nat)
    requires |s| == n + 1 > 1 && r == s[..n] && i < |s[n].procs| && s[n].procs[i].state == UNUSED
    requires i < |s[n - 1].procs| && (Marks(s[n - 1], s[n], i) ==> s[n - 1].procs[i].state == UNUSED)
    requires s[n - 1].procs[i].state == UNUSED ==> (s[n - 1].procs[i].killed <==> exists k: nat :: MarkedAt(r, k, i))
    ensures (exists k: nat :: MarkedAt(s, k, i)) <==>
            (s[n - 1].procs[i].state == UNUSED && s[n - 1].procs[i].killed) || Marks(s[n - 1], s[n], i)
  {
    if Marks(s[n - 1], s[n], i) {
      assert MarkedAt(s, n, i);
    }
    if k: nat :| MarkedAt(r, k, i) {
      assert r[k - 1] == s[k - 1] && r[k] == s[k];
      forall m | k <= m < |s| ensures i < |s[m].procs| && s[m].procs[i].state == UNUSED {
        assert m < n ==> s[m] == r[m];
      }
      assert s[n - 1] == r[n - 1];
      if s[n - 1].procs[i].state == UNUSED {
        assert MarkedAt(s, k, i);
      }
    }
    if k: nat :| MarkedAt(s, k, i) && k < n {
      assert s[n - 1].procs[i].state == UNUSED;
      assert r[k - 1] == s[k - 1] && r[k] == s[k];
      forall m | k <= m < |r| ensures i < |r[m].procs| && r[m].procs[i].state == UNUSED { assert r[m] == s[m]; }
      assert MarkedAt(r, k, i);
    }
  }

  /** A new process starts out killed exactly if its slot was marked by a kill(0) while it was unused. */
  lemma StartsKilled(s: seq<Table>, u: Table, me: nat, np: nat)
    requires Run(s) && Inv(s[0]) && np < NPROC && (s[0].procs[np].state == UNUSED ==> !s[0].procs[np].killed)
    requires Embryo(s[|s| - 1], u, me, np)
    ensures np < |u.procs| && (u.procs[np].killed <==> exists k: nat :: MarkedAt(s, k, np))
  {
    MarkedRun(s, np);
  }

  /** And so it can happen: a kill(0), and then a fork() into the slot it found, which is the one allocproc() takes. */
  lemma KilledAtBirth(t: Table, u: Table, me: nat, np: nat)
    requires Inv(t) && np < NPROC && t.procs[np].state == UNUSED
               && (forall j | 0 <= j < np :: t.procs[j].state != UNUSED)
    requires Embryo(Killed(t, 0), u, me, np)
    ensures Inv(u) && np < |u.procs| && u.procs[np].killed
  {
    forall j | 0 <= j <= np ensures t.procs[j].pid == 0 <==> j == np { assert SlotOk(t, j); }
    assert FirstPid(t.procs, 0, 0) == np;
    KilledKeeps(t, 0);
    EmbryoKeeps(Killed(t, 0), u, me, np);
  }

  /** A table with init alone. */
  lemma Boot(t: Table)
    requires |t.procs| == NPROC && t.init < NPROC && t.nextpid == 2 && t.nextalloc == 3 && t.reaped == []
               && t.freed == []
    requires t.procs[t.init] == Proc(RUNNABLE, 1, None, NoChan, false, 1, 2, User, 0)
    requires forall i | 0 <= i < NPROC && i != t.init ::
               t.procs[i] == Proc(UNUSED, 0, None, NoChan, false, 0, 0, User, 0)
    ensures Inv(t)
  {
    forall i | 0 <= i < NPROC ensures ParentOk(t, i) && SlotOk(t, i) && SleepOk(t, i) {}
    forall i, j | 0 <= i < j < NPROC ensures Apart(t, i, j) {}
    forall i | 0 <= i < NPROC ensures Gone(t, i) {}
  }

  // ---- The code under the lock ----

  class Ptable {
    var procs: seq<Proc>
    const init: nat
    var nextpid: nat
    ghost var nextalloc: nat
    ghost var reaped: seq<nat>
    ghost var freed: seq<nat>

    ghost function T(): Table
      reads this
    {
      Table(procs, init, nextpid, nextalloc, reaped, freed)
    }

    constructor (t: Table)
      ensures T() == t
    {
      procs, init, nextpid, nextalloc, reaped, freed := t.procs, t.init, t.nextpid, t.nextalloc, t.reaped, t.freed;
    }

    /** wakeup1(): every sleeper on the channel. */
    method Wakeup1(c: Chan)
      modifies this`procs
      ensures Woken(old(T()), T(), c)
      ensures |procs| == |old(procs)| && forall i | 0 <= i < |procs| ::
                var p := old(procs)[i];
                procs[i] == p.(state := if p.state == SLEEPING && p.chan == c then RUNNABLE else p.state)
    {
      for i := 0 to |procs|
        invariant |procs| == |old(procs)|
        invariant forall j | 0 <= j < |procs| ::
                    procs[j] == if j < i then WokenSlot(old(procs)[j], c) else old(procs)[j]
      {
        if procs[i].state == SLEEPING && procs[i].chan == c {
          procs := procs[i := procs[i].(state := RUNNABLE)];
        }
      }
    }

    /** allocproc() under the lock, for process me: the first unused slot; |procs| if there is none. */
    method Allocproc(me: nat) returns (np: nat)
      requires me < |procs| && procs[me].state == RUNNING && procs[me].pc == User
      modifies this`procs, this`nextpid
      ensures np <= |old(procs)| && forall j | 0 <= j < np :: old(procs)[j].state != UNUSED
      ensures np < |old(procs)| ==> Embryo(old(T()), T(), me, np)
      ensures np < |old(procs)| ==>
                && old(procs)[np].state == UNUSED && |procs| == |old(procs)| && nextpid == old(nextpid) + 1
                && procs[np].state == EMBRYO && procs[np].pid == old(nextpid)
                && (forall j | 0 <= j < |procs| && j != np && j != me :: procs[j] == old(procs)[j])
                && procs[me] == old(procs)[me].(pc := Forking(np))
      ensures np == |old(procs)| ==> T() == old(T())
    {
      np := 0;
      while np < |procs| && procs[np].state != UNUSED
        invariant np <= |procs| && forall j | 0 <= j < np :: procs[j].state != UNUSED
      {
        np := np + 1;
      }
      if np < |procs| {
        procs := procs[np := procs[np].(state := EMBRYO, pid := nextpid, chan := NoChan, filler := me)];
        procs := procs[me := procs[me].(pc := Forking(np))];
        nextpid := nextpid + 1;
      }
    }

    /** exit() under the lock. */
    method Exit(me: nat)
      requires me < |procs| && init < |procs| && me != init && procs[me].state == RUNNING && procs[me].pc == User
      requires procs[me].parent.Some?
      modifies this`procs
      ensures Exited(old(T()), T(), me)
      ensures |procs| == |old(procs)| && forall j | 0 <= j < |procs| ::
                AfterExit(old(procs)[j], procs[j], me, init, old(procs)[me].parent.value, ZombieChild(old(T()), me), j)
    {
      hide AfterExit;
      ghost var t := T();
      Wakeup1(OnProc(procs[me].parent.value));
      for i := 0 to |procs|
        invariant |procs| == |t.procs|
        invariant forall j | 0 <= j < |procs| :: procs[j] == ExitPart(t, me, i, j)
      {
        if procs[i].parent == Some(me) {
          procs := procs[i := procs[i].(parent := Some(init))];
          if procs[i].state == ZOMBIE {
            ZombieNow(t, me, i);
            Wakeup1(OnProc(init));
          } else {
            ZombieLater(t, me, i);
          }
        } else {
          ZombieLater(t, me, i);
        }
      }
      ZombieAll(t, me);
      procs := procs[me := procs[me].(state := ZOMBIE)];
      ExitMeans(t, T(), me);
    }

    /** wait() from the lock on to the sleep or the return: the first zombie child, if there is one. */
    method Wait(me: nat) returns (r: Option<int>)
      requires me < |procs| && procs[me].state == RUNNING && !procs[me].pc.Forking?
      modifies this`procs, this`reaped, this`freed
      ensures r.None? || r == Some(-1) ==> WaitsOrFails(old(T()), T(), me)
      ensures |procs| == |old(procs)| && (r.None? <==> procs[me].state == SLEEPING)
      ensures r == Some(-1) <==> !ZombieChild(old(T()), me) && (!HasChild(old(T()), me) || old(procs)[me].killed)
      ensures r.None? <==> !ZombieChild(old(T()), me) && HasChild(old(T()), me) && !old(procs)[me].killed
      ensures r.None? ==> procs == old(procs)[me := procs[me]] && procs[me].chan == OnProc(me)
      ensures r.Some? && r.value != -1 ==> exists c: nat | c < |old(procs)| ::
                && Reaps(old(T()), T(), me, c) && r.value == old(procs)[c].pid
                && procs[c].state == UNUSED && procs[c].pid == 0 && !procs[c].killed
                && (forall j | 0 <= j < |procs| && j != c && j != me :: procs[j] == old(procs)[j])
                && forall j | 0 <= j < c :: !IsZombieOf(old(procs)[j], me)
    {
      var havekids := false;
      for i := 0 to |procs|
        invariant T() == old(T())
        invariant havekids <==> exists c | 0 <= c < i :: procs[c].parent == Some(me)
        invariant forall j | 0 <= j < i :: !IsZombieOf(procs[j], me)
      {
        if procs[i].parent != Some(me) {
          continue;
        }
        havekids := true;
        if procs[i].state == ZOMBIE {
          var pid := procs[i].pid;
          reaped, freed := reaped + [pid], freed + [procs[i].kstack, procs[i].pgdir];
          procs := procs[i := Cleared(procs[i])];
          procs := procs[me := procs[me].(pc := User, chan := NoChan)];
          assert Reaps(old(T()), T(), me, i);
          return Some(pid);
        }
      }
      if !havekids || procs[me].killed {
        procs := procs[me := procs[me].(pc := User, chan := NoChan)];
        return Some(-1);
      }
      procs := procs[me := procs[me].(state := SLEEPING, chan := OnProc(me), pc := Waiting)];
      return None;
    }

    /** kill(): the first slot with that pid is marked, and no longer sleeps; no other slot changes. */
    method Kill(pid: int) returns (r: int)
      modifies this`procs
      ensures T() == Killed(old(T()), pid)
      ensures var i := FirstPid(old(procs), pid, 0);
              && (r == 0 <==> i < |old(procs)|) && |procs| == |old(procs)|
              && (forall j | 0 <= j < |procs| && j != i :: procs[j] == old(procs)[j])
              && (r == 0 ==> var p := old(procs)[i];
                             procs[i] == p.(killed := true, state := procs[i].state) && procs[i].state != SLEEPING
                             && procs[i].state == if p.state == SLEEPING then RUNNABLE else p.state)
      ensures r == if exists i | 0 <= i < |old(procs)| :: old(procs)[i].pid == pid then 0 else -1
    {
      var i := 0;
      while i < |procs|
        invariant i <= |procs| && procs == old(procs) && FirstPid(procs, pid, i) == FirstPid(procs, pid, 0)
        invariant forall j | 0 <= j < i :: procs[j].pid != pid
      {
        if procs[i].pid == pid {
          procs := procs[i := procs[i].(killed := true)];
          if procs[i].state == SLEEPING {
            procs := procs[i := procs[i].(state := RUNNABLE)];
          }
          return 0;
        }
        i := i + 1;
      }
      return -1;
    }
  }

  predicate IsZombieOf(p: Proc, me: nat) {
    p.parent == Some(me) && p.state == ZOMBIE
  }

  ghost predicate ZombieBefore(t: Table, me: nat, i: nat) {
    exists c | 0 <= c < i && c < |t.procs| :: IsZombieOf(t.procs[c], me)
  }

  /** exit() after the first i turns of its loop. */
  ghost function ExitPart(t: Table, me: nat, i: nat, j: nat): Proc
    requires me < |t.procs| && j < |t.procs| && t.procs[me].parent.Some?
  {
    var p := WokenSlot(t.procs[j], OnProc(t.procs[me].parent.value));
    var q := if p.parent == Some(me) && j < i then p.(parent := Some(t.init)) else p;
    if ZombieBefore(t, me, i) then WokenSlot(q, OnProc(t.init)) else q
  }

  lemma ZombieNow(t: Table, me: nat, i: nat)
    requires i < |t.procs| && IsZombieOf(t.procs[i], me)
    ensures ZombieBefore(t, me, i + 1)
  {
  }

  lemma ZombieLater(t: Table, me: nat, i: nat)
    requires i < |t.procs| && !IsZombieOf(t.procs[i], me)
    ensures ZombieBefore(t, me, i + 1) <==> ZombieBefore(t, me, i)
  {
  }

  lemma ZombieAll(t: Table, me: nat)
    ensures ZombieBefore(t, me, |t.procs|) <==> ZombieChild(t, me)
  {
    if ZombieChild(t, me) {
      var c :| 0 <= c < |t.procs| && t.procs[c].parent == Some(me) && t.procs[c].state == ZOMBIE;
      assert IsZombieOf(t.procs[c], me);
    }
  }
}
