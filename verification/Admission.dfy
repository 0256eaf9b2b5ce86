/** Group commit: begin_op(), log_write() and end_op() of crates/fs/src/log.rs as atomic steps of any number of
    processes, and when the log has room for what they write. */
module Admission {
  import opened Common

  /** The log's fields, plus two ghosts: for each operation in progress how many blocks it may still add to the
      log, and which processes sleep in begin_op. */
  datatype State = State(
    size: nat,              // blocks in the log area, the header included
    nbuf: nat,              // buffers in the cache
    block: seq<nat>,        // lh.block[..lh.n]
    outstanding: nat,
    committing: bool,
    budget: map<nat, nat>,
    asleep: set<nat>)

  datatype Action =
    | Begin(p: nat)               // one turn of begin_op's loop
    | Write(p: nat, b: nat)       // log_write
    | End(p: nat)                 // end_op, up to the commit
    | Commit(held: nat)           // commit() and the rest of end_op, while `held` clean buffers are in use elsewhere

  function Initial(size: nat, nbuf: nat): State {
    State(size, nbuf, [], 0, false, map[], {})
  }

  /** What a process may do: begin once, log a block that is logged already or add one within its budget, end; the
      committer reports back. */
  predicate Enabled(s: State, a: Action) {
    match a
    case Begin(p) => p !in s.budget
    case Write(p, b) => p in s.budget && (b in s.block || s.budget[p] > 0)
    case End(p) => p in s.budget
    case Commit(held) => s.committing
  }

  /** The panics "too big a transaction", "log_write outside of trans" and "log.committing"; and "bget: no buffers" in
      a commit, when every buffer is pinned by a logged block or in use. */
  predicate Panics(s: State, a: Action) {
    match a
    case Write(p, b) => |s.block| >= LOGSIZE || |s.block| >= s.size - 1 || s.outstanding < 1
    case End(p) => s.committing
    case Commit(held) => s.block != [] && |s.block| + held >= s.nbuf
    case Begin(p) => false
  }

  predicate MustWait(s: State) {
    s.committing || |s.block| + (s.outstanding + 1) * MAXOPBLOCKS > LOGSIZE
  }

  /** log_write: a block already logged is absorbed. */
  function Logged(block: seq<nat>, b: nat): seq<nat> {
    if b in block then block else block + [b]
  }

  function Step(s: State, a: Action): State
    requires Enabled(s, a) && !Panics(s, a)
  {
    match a
    case Begin(p) =>
      if MustWait(s) then s.(asleep := s.asleep + {p})
      else s.(outstanding := s.outstanding + 1, budget := s.budget[p := MAXOPBLOCKS], asleep := s.asleep - {p})
    case Write(p, b) =>
      if b in s.block then s else s.(block := Logged(s.block, b), budget := s.budget[p := s.budget[p] - 1])
    case End(p) =>
      if s.outstanding <= 1 then
        s.(outstanding := 0, committing := true, budget := s.budget - {p})
      else
        s.(outstanding := s.outstanding - 1, asleep := {}, budget := s.budget - {p})
    case Commit(held) =>
      s.(block := [], committing := false, asleep := {})
  }

  // ---- The sum of the budgets ----

  ghost function Sum(m: map<nat, nat>): nat
    decreases |m.Keys|
  {
    if m == map[] then 0 else
      var k :| k in m;
      assert |(m - {k}).Keys| < |m.Keys| by { assert (m - {k}).Keys == m.Keys - {k}; }
      m[k] + Sum(m - {k})
  }

  lemma {:induction false} SumWithout(m: map<nat, nat>, p: nat)
    requires p in m
    ensures Sum(m) == m[p] + Sum(m - {p})
    decreases |m.Keys|
  {
    var k :| k in m && Sum(m) == m[k] + Sum(m - {k});
    if k != p {
      assert (m - {k}).Keys == m.Keys - {k};
      SumWithout(m - {k}, p);
      assert (m - {p}).Keys == m.Keys - {p};
      SumWithout(m - {p}, k);
      assert m - {k} - {p} == m - {p} - {k};
    }
  }

  lemma SumSet(m: map<nat, nat>, p: nat, x: nat)
    ensures p in m ==> Sum(m[p := x]) == Sum(m) - m[p] + x
    ensures p !in m ==> Sum(m[p := x]) == Sum(m) + x
  {
    SumWithout(m[p := x], p);
    assert m[p := x] - {p} == m - {p};
    if p in m {
      SumWithout(m, p);
    } else {
      assert m - {p} == m;
    }
  }

  // ---- The invariant ----

  /** Whatever every operation in progress may still write fits, and nobody sleeps unless a commit is running or one
      more operation would not fit. */
  ghost predicate Inv(s: State) {
    && s.outstanding == |s.budget|
    && (forall p | p in s.budget :: s.budget[p] <= MAXOPBLOCKS)
    && |s.block| + Sum(s.budget) <= LOGSIZE
    && (s.committing ==> s.outstanding == 0)
    && (s.outstanding == 0 && !s.committing ==> s.block == [])
    && (s.asleep != {} ==> s.committing || |s.block| + (s.outstanding + 1) * MAXOPBLOCKS > LOGSIZE)
  }

  lemma SumBounded(m: map<nat, nat>)
    requires forall p | p in m :: m[p] <= MAXOPBLOCKS
    ensures Sum(m) <= MAXOPBLOCKS * |m|
    decreases |m.Keys|
  {
    if m != map[] {
      var k :| k in m && Sum(m) == m[k] + Sum(m - {k});
      assert (m - {k}).Keys == m.Keys - {k};
      SumBounded(m - {k});
    }
  }

  lemma BeginKeepsInv(s: State, p: nat)
    requires Inv(s) && Enabled(s, Begin(p))
    ensures Inv(Step(s, Begin(p)))
  {
    SumBounded(s.budget);
    SumSet(s.budget, p, MAXOPBLOCKS);
    assert s.budget[p := MAXOPBLOCKS].Keys == s.budget.Keys + {p};
  }

  lemma WriteKeepsInv(s: State, p: nat, b: nat)
    requires Inv(s) && Enabled(s, Write(p, b)) && !Panics(s, Write(p, b))
    ensures Inv(Step(s, Write(p, b)))
  {
    if b !in s.block {
      SumSet(s.budget, p, s.budget[p] - 1);
      assert s.budget[p := s.budget[p] - 1].Keys == s.budget.Keys;
    }
  }

  lemma EndKeepsInv(s: State, p: nat)
    requires Inv(s) && Enabled(s, End(p)) && !Panics(s, End(p))
    ensures Inv(Step(s, End(p)))
  {
    SumWithout(s.budget, p);
    assert (s.budget - {p}).Keys == s.budget.Keys - {p};
  }

  lemma StepKeepsInv(s: State, a: Action)
    requires Inv(s) && Enabled(s, a) && !Panics(s, a)
    ensures Inv(Step(s, a))
  {
    match a
    case Begin(p) => BeginKeepsInv(s, p);
    case Write(p, b) => WriteKeepsInv(s, p, b);
    case End(p) => EndKeepsInv(s, p);
    case Commit(held) =>
      assert s.budget.Keys == {};
      assert s.budget == map[];
  }

  /** log_write() of a block that is logged already, with the log exactly full: nothing is added, and it panics. */
  predicate Rewrites(s: State, a: Action) {
    a.Write? && a.b in s.block && |s.block| >= LOGSIZE
  }

  /** The log overflows, or the cache does, or a full log is written to. */
  predicate Overflows(s: State, a: Action) {
    match a
    case Write(p, b) => |s.block| >= s.size - 1 || Rewrites(s, a)
    case Commit(held) => s.block != [] && |s.block| + held >= s.nbuf
    case _ => false
  }

  /** In a state that can be reached a step panics for no other reason. */
  lemma PanicExact(s: State, a: Action)
    requires Inv(s) && Enabled(s, a)
    ensures Panics(s, a) <==> Overflows(s, a)
    ensures s.size > LOGSIZE && !Rewrites(s, a) ==> !(a.Write? && Panics(s, a))
  {
    match a
    case Begin(p) =>
    case Write(p, b) =>
      SumWithout(s.budget, p);
      assert s.budget.Keys != {};
    case End(p) =>
      assert s.budget.Keys != {};
    case Commit(held) =>
  }

  // ---- Runs ----

  datatype Outcome = Running(s: State) | Panicked | Stuck

  /** The outcome of a sequence of actions, each of which must be enabled when it is taken. */
  function Run(s: State, run: seq<Action>): Outcome
    decreases |run|
  {
    if run == [] then Running(s)
    else if !Enabled(s, run[0]) then Stuck
    else if Panics(s, run[0]) then Panicked
    else Run(Step(s, run[0]), run[1..])
  }

  /** At most `readers` clean buffers are in use outside the log during any commit of the run. */
  predicate Modest(run: seq<Action>, readers: nat) {
    forall a | a in run :: a.Commit? ==> a.held <= readers
  }

  /** No step of the run logs a block again while the log is exactly full. */
  predicate Sparing(s: State, run: seq<Action>)
    decreases |run|
  {
    run == [] || !Enabled(s, run[0])
    || (!Rewrites(s, run[0]) && (Panics(s, run[0]) || Sparing(Step(s, run[0]), run[1..])))
  }

  lemma {:induction false} RunKeepsInv(s: State, run: seq<Action>)
    requires Inv(s)
    ensures Run(s, run).Running? ==> Inv(Run(s, run).s) && Run(s, run).s.size == s.size && Run(s, run).s.nbuf == s.nbuf
    decreases |run|
  {
    if run != [] && Enabled(s, run[0]) && !Panics(s, run[0]) {
      StepKeepsInv(s, run[0]);
      RunKeepsInv(Step(s, run[0]), run[1..]);
    }
  }

  /** After any run, one more operation is admitted exactly if no commit is running and the log has room for the blocks
      logged, for what every operation in progress may log, and for its own. */
  lemma AdmitExact(size: nat, nbuf: nat, run: seq<Action>, p: nat)
    requires Run(Initial(size, nbuf), run).Running? && p !in Run(Initial(size, nbuf), run).s.budget
    ensures var s, r := Run(Initial(size, nbuf), run).s, Run(Initial(size, nbuf), run + [Begin(p)]);
            && r.Running? && r.s.block == s.block && r.s.committing == s.committing
            && if !s.committing && |s.block| + 10 * |s.budget| + 10 <= 30 then
                 && r.s.budget.Keys == s.budget.Keys + {p} && r.s.budget[p] == 10
                 && r.s.outstanding == s.outstanding + 1 && p !in r.s.asleep
               else
                 r.s.budget == s.budget && r.s.outstanding == s.outstanding && p in r.s.asleep
  {
    var s0 := Initial(size, nbuf);
    assert Inv(s0);
    RunKeepsInv(s0, run);
    RunAppend(s0, run, Begin(p));
    OneMore(Run(s0, run).s, Begin(p));
  }

  /** So there are never more than three at once; a third one always joins two that have logged nothing yet, and a
      second one joins one as long as at most ten blocks are logged. */
  lemma Joins(size: nat, nbuf: nat, run: seq<Action>, p: nat)
    requires Run(Initial(size, nbuf), run).Running? && p !in Run(Initial(size, nbuf), run).s.budget
    ensures var s, r := Run(Initial(size, nbuf), run).s, Run(Initial(size, nbuf), run + [Begin(p)]);
            && s.outstanding == |s.budget| <= 3 && r.Running?
            && (s.outstanding == 2 && s.block == [] ==> p in r.s.budget && r.s.outstanding == 3)
            && (s.outstanding == 1 && |s.block| <= 10 ==> p in r.s.budget && r.s.outstanding == 2)
            && (s.outstanding == 0 && !s.committing ==> p in r.s.budget && r.s.outstanding == 1)
            && (s.outstanding == 3 ==> r.s.budget == s.budget && p in r.s.asleep)
  {
    var s0 := Initial(size, nbuf);
    assert Inv(s0);
    AtMostThree(s0, run);
    RunKeepsInv(s0, run);
    AdmitExact(size, nbuf, run, p);
  }

  lemma {:induction false} AtMostThree(s: State, run: seq<Action>)
    requires Inv(s) && s.outstanding <= 3
    ensures Run(s, run).Running? ==> Run(s, run).s.outstanding <= 3
    decreases |run|
  {
    if run != [] && Enabled(s, run[0]) && !Panics(s, run[0]) {
      StepKeepsInv(s, run[0]);
      AtMostThree(Step(s, run[0]), run[1..]);
    }
  }

  /** The first k actions of the run go well, and the next one overflows the log or the cache. */
  predicate OverflowsAt(s: State, run: seq<Action>, k: nat) {
    k < |run| && match Run(s, run[..k])
                 case Running(t) => Enabled(t, run[k]) && Overflows(t, run[k])
                 case _ => false
  }

  /** A run panics exactly if it logs one block more than fit in the log, or logs a block again while the log is full,
      or commits with no buffer left. */
  lemma {:induction false} RunPanics(s: State, run: seq<Action>)
    requires Inv(s)
    ensures Run(s, run) == Panicked <==> exists k: nat :: OverflowsAt(s, run, k)
    decreases |run|
  {
    if run != [] {
      if Enabled(s, run[0]) {
        PanicExact(s, run[0]);
      }
      assert run[..0] == [];
      if Enabled(s, run[0]) && !Panics(s, run[0]) {
        var t := Step(s, run[0]);
        StepKeepsInv(s, run[0]);
        RunPanics(t, run[1..]);
        forall k: nat | 0 < k <= |run| ensures Run(s, run[..k]) == Run(t, run[1..][..k - 1]) {
          assert run[..k][1..] == run[1..][..k - 1];
        }
        if k: nat :| OverflowsAt(t, run[1..], k) {
          assert OverflowsAt(s, run, k + 1);
        }
        if k: nat :| OverflowsAt(s, run, k) && k > 0 {
          assert OverflowsAt(t, run[1..], k - 1);
        }
      } else {
        forall k: nat | 0 < k < |run| ensures !OverflowsAt(s, run, k) {
          assert run[..k][0] == run[0];
        }
        if Panics(s, run[0]) && Enabled(s, run[0]) {
          assert OverflowsAt(s, run, 0);
        }
      }
    }
  }

  lemma {:induction false} NoPanic(s: State, run: seq<Action>, readers: nat)
    requires Inv(s) && s.size > LOGSIZE && s.nbuf > LOGSIZE + readers && Modest(run, readers) && Sparing(s, run)
    ensures Run(s, run) != Panicked
    decreases |run|
  {
    if run != [] && Enabled(s, run[0]) {
      PanicExact(s, run[0]);
      assert run[0] in run;
      StepKeepsInv(s, run[0]);
      NoPanic(Step(s, run[0]), run[1..], readers);
    }
  }

  lemma RunAppend(s: State, run: seq<Action>, a: Action)
    ensures Run(s, run + [a]) ==
            match Run(s, run)
            case Running(s') => Run(s', [a])
            case other => other
    decreases |run|
  {
    if run != [] {
      assert (run + [a])[1..] == run[1..] + [a];
      if Enabled(s, run[0]) && !Panics(s, run[0]) {
        RunAppend(Step(s, run[0]), run[1..], a);
      }
    } else {
      assert run + [a] == [a];
    }
  }

  lemma SparingAppend(s: State, run: seq<Action>, a: Action)
    requires Sparing(s, run) && (Run(s, run).Running? ==> !Rewrites(Run(s, run).s, a))
    ensures Sparing(s, run + [a])
    decreases |run|
  {
    if run != [] {
      assert (run + [a])[1..] == run[1..] + [a];
      if Enabled(s, run[0]) && !Panics(s, run[0]) {
        SparingAppend(Step(s, run[0]), run[1..], a);
      }
    } else {
      assert run + [a] == [a];
    }
  }

  /** Three operations that between them log blocks 0, 1, 2, ... */
  function Greedy(k: nat): seq<Action> {
    if k == 0 then [Begin(0), Begin(1), Begin(2)]
    else Greedy(k - 1) + [Write((k - 1) / MAXOPBLOCKS, k - 1)]
  }

  ghost predicate GreedyState(size: nat, nbuf: nat, k: nat, s: State) {
    && s.size == size && s.nbuf == nbuf && s.outstanding == 3 && !s.committing
    && |s.block| == k && (forall b: nat :: b in s.block <==> b < k)
    && (forall p: nat | p < 3 ::
          && p in s.budget
          && MAXOPBLOCKS - s.budget[p] == if k >= (p + 1) * MAXOPBLOCKS then MAXOPBLOCKS
                                          else if k <= p * MAXOPBLOCKS then 0 else k - p * MAXOPBLOCKS)
  }

  lemma {:induction false} GreedyRuns(size: nat, nbuf: nat, k: nat)
    requires k <= LOGSIZE && (k == 0 || k < size)
    ensures Run(Initial(size, nbuf), Greedy(k)).Running? && Modest(Greedy(k), 0)
              && Sparing(Initial(size, nbuf), Greedy(k))
    ensures GreedyState(size, nbuf, k, Run(Initial(size, nbuf), Greedy(k)).s)
  {
    if k == 0 {
      GreedyStart(size, nbuf);
    } else {
      GreedyRuns(size, nbuf, k - 1);
      RunAppend(Initial(size, nbuf), Greedy(k - 1), Write((k - 1) / MAXOPBLOCKS, k - 1));
      SparingAppend(Initial(size, nbuf), Greedy(k - 1), Write((k - 1) / MAXOPBLOCKS, k - 1));
      GreedyStep(size, nbuf, k, Run(Initial(size, nbuf), Greedy(k - 1)).s);
    }
  }

  lemma GreedyStep(size: nat, nbuf: nat, k: nat, s: State)
    requires 0 < k <= LOGSIZE && k < size && GreedyState(size, nbuf, k - 1, s)
    ensures var r := Run(s, [Write((k - 1) / MAXOPBLOCKS, k - 1)]); r.Running? && GreedyState(size, nbuf, k, r.s)
  {
    var a := Write((k - 1) / MAXOPBLOCKS, k - 1);
    assert Enabled(s, a) && !Panics(s, a);
    assert Run(s, [a]) == Running(Step(s, a)) by { assert [a][1..] == []; }
  }

  lemma GreedyStart(size: nat, nbuf: nat)
    ensures Run(Initial(size, nbuf), [Begin(0), Begin(1), Begin(2)]).Running?
    ensures Sparing(Initial(size, nbuf), [Begin(0), Begin(1), Begin(2)])
    ensures GreedyState(size, nbuf, 0, Run(Initial(size, nbuf), [Begin(0), Begin(1), Begin(2)]).s)
  {
    var s0 := Initial(size, nbuf);
    var s1 := Step(s0, Begin(0));
    var s2 := Step(s1, Begin(1));
    var s3 := Step(s2, Begin(2));
    assert Run(s3, []) == Running(s3) && Sparing(s3, []);
    assert Run(s2, [Begin(2)]) == Running(s3) && Sparing(s2, [Begin(2)]) by { assert [Begin(2)][1..] == []; }
    assert Run(s1, [Begin(1), Begin(2)]) == Running(s3) && Sparing(s1, [Begin(1), Begin(2)]) by {
      assert [Begin(1), Begin(2)][1..] == [Begin(2)];
    }
    assert [Begin(0), Begin(1), Begin(2)][1..] == [Begin(1), Begin(2)];
  }

  /** The three operations log LOGSIZE blocks and end; the commit begins. */
  lemma GreedyEnds(size: nat, nbuf: nat) returns (run: seq<Action>)
    requires size > LOGSIZE
    ensures Modest(run, 0) && Run(Initial(size, nbuf), run).Running? && Sparing(Initial(size, nbuf), run)
    ensures var s := Run(Initial(size, nbuf), run).s; s.nbuf == nbuf && s.committing && |s.block| == LOGSIZE
  {
    var s0, g := Initial(size, nbuf), Greedy(LOGSIZE);
    GreedyRuns(size, nbuf, LOGSIZE);
    RunAppend(s0, g, End(0));
    OneMore(Run(s0, g).s, End(0));
    RunAppend(s0, g + [End(0)], End(1));
    OneMore(Run(s0, g + [End(0)]).s, End(1));
    RunAppend(s0, g + [End(0)] + [End(1)], End(2));
    OneMore(Run(s0, g + [End(0)] + [End(1)]).s, End(2));
    run := g + [End(0)] + [End(1)] + [End(2)];
    SparingAppend(s0, g, End(0));
    SparingAppend(s0, g + [End(0)], End(1));
    SparingAppend(s0, g + [End(0)] + [End(1)], End(2));
  }

  lemma OneMore(s: State, a: Action)
    requires Enabled(s, a)
    ensures Run(s, [a]) == if Panics(s, a) then Panicked else Running(Step(s, a))
  {
    assert [a][1..] == [];
  }

  /** Operations that add at most MAXOPBLOCKS blocks each never panic in log_write(), end_op() or a commit, in any
      interleaving in which nothing is logged again while the log is full, exactly when the log area has more than
      LOGSIZE blocks and the cache has more buffers than LOGSIZE and the readers outside transactions use. */
  lemma AdmissionExact(size: nat, nbuf: nat, readers: nat)
    ensures (forall run | Modest(run, readers) && Sparing(Initial(size, nbuf), run) ::
               Run(Initial(size, nbuf), run) != Panicked)
            <==> size > LOGSIZE && nbuf > LOGSIZE + readers
  {
    var s0 := Initial(size, nbuf);
    assert Inv(s0);
    if size > LOGSIZE && nbuf > LOGSIZE + readers {
      forall run | Modest(run, readers) && Sparing(s0, run)
        ensures Run(s0, run) != Panicked { NoPanic(s0, run, readers); }
    } else {
      var run, a := Fatal(size, nbuf, readers);
      RunAppend(s0, run, a);
      OneMore(Run(s0, run).s, a);
      SparingAppend(s0, run, a);
      assert Modest(run + [a], readers) && Sparing(s0, run + [a]) && Run(s0, run + [a]) == Panicked;
    }
  }

  /** Too small a log, or too small a cache. */
  lemma Fatal(size: nat, nbuf: nat, readers: nat) returns (run: seq<Action>, a: Action)
    requires size <= LOGSIZE || nbuf <= LOGSIZE + readers
    ensures Modest(run + [a], readers) && Sparing(Initial(size, nbuf), run) && Run(Initial(size, nbuf), run).Running?
    ensures var s := Run(Initial(size, nbuf), run).s; Enabled(s, a) && Panics(s, a) && !Rewrites(s, a)
  {
    if size <= LOGSIZE {
      var k := if size == 0 then 0 else size - 1;
      GreedyRuns(size, nbuf, k);
      run, a := Greedy(k), Write(k / MAXOPBLOCKS, k);
    } else {
      run := GreedyEnds(size, nbuf);
      a := Commit(readers);
    }
  }

  /** With as many buffers as a transaction may have blocks, no log is big enough: at every size some such run panics,
      with nobody else using the cache. */
  lemma NoSizeSuffices(size: nat) returns (run: seq<Action>)
    ensures Modest(run, 0) && Sparing(Initial(size, NBUF), run) && Run(Initial(size, NBUF), run) == Panicked
  {
    AdmissionExact(size, NBUF, 0);
    run :| Modest(run, 0) && Sparing(Initial(size, NBUF), run) && Run(Initial(size, NBUF), run) == Panicked;
  }

  /** And with a log and a cache of any size, a run panics that logs a block again: the log is full, and the block would
      have needed no room. */
  lemma AbsorbedPanics(size: nat, nbuf: nat) returns (run: seq<Action>, a: Action)
    requires size > LOGSIZE
    ensures Run(Initial(size, nbuf), run).Running? && Run(Initial(size, nbuf), run + [a]) == Panicked
    ensures Rewrites(Run(Initial(size, nbuf), run).s, a)
  {
    GreedyRuns(size, nbuf, LOGSIZE);
    run, a := Greedy(LOGSIZE), Write(0, 0);
    RunAppend(Initial(size, nbuf), run, a);
    OneMore(Run(Initial(size, nbuf), run).s, a);
  }
}
