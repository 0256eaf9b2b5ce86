/** What the write-ahead log promises about the disk, whenever power fails: pure theory of the writes that
    commit() and recover_from_log() make (crates/fs/src/log.rs). The code that makes them is in module Log. */
module Crash {
  import opened Common
  import opened Blocks

  /** Where the log lives: the header at `start`, copies from `start + 1`, `size` blocks in all. */
  datatype Layout = Layout(start: nat, size: nat)

  type Disk = seq<Block>

  datatype Write = Write(blockno: nat, data: Block)

  /** The writes a disk has seen, latest last. */
  datatype History = Nothing | Then(before: History, last: Write)

  /** A history grown by the first k of some writes. */
  function Grown(h: History, ws: seq<Write>, k: nat): History
    requires k <= |ws|
  {
    if k == 0 then h else Then(Grown(h, ws, k - 1), ws[k - 1])
  }

  predicate InLog(l: Layout, b: nat) {
    l.start <= b < l.start + l.size
  }

  predicate OnDisk(d: Disk, ws: seq<Write>) {
    forall i | 0 <= i < |ws| :: ws[i].blockno < |d|
  }

  /** Writes reach the disk one block at a time, in order: the disk after the first k of them, which is what a
      crash at that moment leaves behind. */
  function After(d: Disk, ws: seq<Write>, k: nat): (r: Disk)
    requires k <= |ws| && OnDisk(d, ws)
    ensures |r| == |d|
  {
    if k == 0 then d else After(d, ws, k - 1)[ws[k - 1].blockno := ws[k - 1].data]
  }

  // ---- The header block ----

  function Count(h: Block): nat { Word(h, 0) }

  function Entry(h: Block, i: nat): nat
    requires i < LOGSIZE
  {
    Word(h, 1 + i)
  }

  /** write_head stores n and the first n entries; the rest of the block is left as it was. */
  function Header(h: Block, blocks: seq<U32>, k: nat): Block
    requires k <= |blocks| <= LOGSIZE
  {
    if k == 0 then SetWord(h, 0, |blocks|) else SetWord(Header(h, blocks, k - 1), k, blocks[k - 1])
  }

  lemma HeaderWords(h: Block, blocks: seq<U32>, k: nat, j: nat)
    requires k <= |blocks| <= LOGSIZE && j < WORDS
    ensures Word(Header(h, blocks, k), j) ==
            if j == 0 then |blocks| else if j <= k then blocks[j - 1] else Word(h, j)
  {
    if k == 0 {
      WordSet(h, 0, |blocks|, j);
    } else {
      HeaderWords(h, blocks, k - 1, j);
      WordSet(Header(h, blocks, k - 1), k, blocks[k - 1], j);
    }
  }

  // ---- Recovery ----

  /** The disk once the first k logged copies are home. */
  function Install(l: Layout, d: Disk, k: nat): (r: Disk)
    requires WellFormed(l, d) && k <= Count(d[l.start])
    ensures |r| == |d|
  {
    if k == 0 then d else Install(l, d, k - 1)[Home(l, d, k - 1) := d[l.start + k]]
  }

  /** The home of the i-th logged copy. */
  function Home(l: Layout, d: Disk, i: nat): nat
    requires l.start < |d| && i < LOGSIZE
  {
    Entry(d[l.start], i)
  }

  /** A header the kernel can act on: it fits, and every home is a real block outside the log. */
  predicate WellFormed(l: Layout, d: Disk) {
    && 1 <= l.size && l.start + l.size <= |d|
    && Count(d[l.start]) <= LOGSIZE && Count(d[l.start]) < l.size
    && (forall i | 0 <= i < Count(d[l.start]) :: Outside(l, |d|, Home(l, d, i)))
  }

  predicate Outside(l: Layout, n: nat, b: nat) {
    b < n && !InLog(l, b)
  }

  /** What recovery makes of a disk. */
  function Recovered(l: Layout, d: Disk): Disk
    requires WellFormed(l, d)
  {
    Install(l, d, Count(d[l.start]))
  }

  /** The last of the first k copies whose home is b, or -1. */
  function LastFor(l: Layout, d: Disk, k: nat, b: nat): (i: int)
    requires WellFormed(l, d) && k <= Count(d[l.start])
    ensures -1 <= i < k && (i >= 0 ==> Home(l, d, i) == b)
  {
    if k == 0 then -1
    else if Home(l, d, k - 1) == b then k - 1
    else LastFor(l, d, k - 1, b)
  }

  lemma {:induction false} InstallAt(l: Layout, d: Disk, k: nat, b: nat)
    requires WellFormed(l, d) && k <= Count(d[l.start]) && b < |d|
    ensures Install(l, d, k)[b] == var i := LastFor(l, d, k, b); if i < 0 then d[b] else d[l.start + 1 + i]
    ensures InLog(l, b) ==> Install(l, d, k)[b] == d[b]
  {
    if k > 0 {
      assert Outside(l, |d|, Home(l, d, k - 1));
      InstallAt(l, d, k - 1, b);
    }
  }

  /** Half-way through installing, the log is untouched, so starting over ends in the same place. */
  lemma InstallAgain(l: Layout, d: Disk, k: nat)
    requires WellFormed(l, d) && k <= Count(d[l.start])
    ensures WellFormed(l, Install(l, d, k))
    ensures Recovered(l, Install(l, d, k)) == Recovered(l, d)
  {
    var e, n := Install(l, d, k), Count(d[l.start]);
    forall b | 0 <= b < |d| && InLog(l, b) ensures e[b] == d[b] { InstallAt(l, d, k, b); }
    assert e[l.start] == d[l.start];
    forall i | 0 <= i < n ensures Outside(l, |e|, Home(l, e, i)) { assert Outside(l, |d|, Home(l, d, i)); }
    forall b | 0 <= b < |d| ensures Install(l, e, n)[b] == Install(l, d, n)[b] {
      InstallAt(l, d, k, b);
      InstallAt(l, d, n, b);
      InstallAt(l, e, n, b);
      SameLast(l, d, e, n, b);
      LastMonotone(l, d, k, n, b);
    }
  }

  lemma SameLast(l: Layout, d: Disk, e: Disk, k: nat, b: nat)
    requires WellFormed(l, d) && WellFormed(l, e) && k <= Count(d[l.start]) && d[l.start] == e[l.start]
    ensures LastFor(l, d, k, b) == LastFor(l, e, k, b)
  {
  }

  lemma LastMonotone(l: Layout, d: Disk, k: nat, n: nat, b: nat)
    requires WellFormed(l, d) && k <= n <= Count(d[l.start])
    ensures LastFor(l, d, k, b) <= LastFor(l, d, n, b)
    decreases n
  {
    if k < n {
      LastMonotone(l, d, k, n - 1, b);
    }
  }

  // ---- The writes of recover_from_log() ----

  /** install_trans() makes the first n writes; clearing the header is the last one. */
  function RecoverWrite(l: Layout, d: Disk, i: nat): Write
    requires WellFormed(l, d) && i <= Count(d[l.start])
  {
    if i < Count(d[l.start]) then Write(Home(l, d, i), d[l.start + 1 + i])
    else Write(l.start, SetWord(d[l.start], 0, 0))
  }

  /** `ws` is the list of the writes that recovery makes, starting from disk d. */
  ghost predicate RecoverList(l: Layout, d: Disk, ws: seq<Write>) {
    && WellFormed(l, d) && OnDisk(d, ws)
    && |ws| == Count(d[l.start]) + 1
    && (forall i | 0 <= i < |ws| :: ws[i] == RecoverWrite(l, d, i))
  }

  function RecoverWrites(l: Layout, d: Disk): (ws: seq<Write>)
    requires WellFormed(l, d)
    ensures RecoverList(l, d, ws)
  {
    var n := Count(d[l.start]);
    assert forall i | 0 <= i < n :: Outside(l, |d|, Home(l, d, i));
    seq(n + 1, i requires 0 <= i <= n => RecoverWrite(l, d, i))
  }

  /** The blocks outside the log agree. */
  ghost predicate SameHomes(l: Layout, d: Disk, e: Disk) {
    |d| == |e| && forall b | 0 <= b < |d| && !InLog(l, b) :: d[b] == e[b]
  }

  ghost predicate Clean(l: Layout, d: Disk) {
    WellFormed(l, d) && Count(d[l.start]) == 0
  }

  /** The write number m + i brings the i-th copy logged on c home. */
  ghost predicate Installs(l: Layout, c: Disk, ws: seq<Write>, m: nat, i: nat)
    requires WellFormed(l, c) && i < Count(c[l.start])
  {
    m + i < |ws| && ws[m + i] == Write(Home(l, c, i), c[l.start + 1 + i])
  }

  lemma {:induction false} InstallPhase(l: Layout, d: Disk, ws: seq<Write>, m: nat, c: Disk, k: nat)
    requires OnDisk(d, ws) && m <= |ws| && c == After(d, ws, m)
    requires WellFormed(l, c) && k <= Count(c[l.start]) && forall i | 0 <= i < k :: Installs(l, c, ws, m, i)
    ensures m + k <= |ws| && After(d, ws, m + k) == Install(l, c, k)
  {
    if k > 0 {
      InstallPhase(l, d, ws, m, c, k - 1);
      assert Installs(l, c, ws, m, k - 1);
    }
  }

  lemma RecoverInstalls(l: Layout, d: Disk, ws: seq<Write>, k: nat)
    requires RecoverList(l, d, ws) && k < |ws|
    ensures After(d, ws, k) == Install(l, d, k)
  {
    forall i | 0 <= i < k ensures Installs(l, d, ws, 0, i) {
      assert ws[i] == RecoverWrite(l, d, i);
    }
    InstallPhase(l, d, ws, 0, d, k);
  }

  /** Recovery may itself crash after any number of its writes: recovering again still ends in the same
      homes, and a recovery that runs to its end has put them there and emptied the log. */
  lemma CrashInRecovery(l: Layout, d: Disk, ws: seq<Write>, k: nat)
    requires RecoverList(l, d, ws) && k <= |ws|
    ensures var e := After(d, ws, k);
            && WellFormed(l, e)
            && SameHomes(l, Recovered(l, e), Recovered(l, d))
            && (k == |ws| ==> Clean(l, e) && SameHomes(l, e, Recovered(l, d)))
  {
    hide After, Install, WellFormed;
    if k < |ws| {
      RecoverInstalls(l, d, ws, k);
      InstallAgain(l, d, k);
    } else {
      RecoveryEnds(l, d, ws);
      CleanRecovered(l, After(d, ws, k));
    }
  }

  lemma RecoveryEnds(l: Layout, d: Disk, ws: seq<Write>)
    requires RecoverList(l, d, ws)
    ensures Clean(l, After(d, ws, |ws|)) && SameHomes(l, After(d, ws, |ws|), Recovered(l, d))
  {
    hide Install, Word, SetWord;
    var n := |ws| - 1;
    RecoverInstalls(l, d, ws, n);
    assert ws[n] == RecoverWrite(l, d, n);
    HeaderIsNoHome(l, After(d, ws, n), Recovered(l, d), d[l.start]);
  }

  // ---- The writes of commit() ----

  /** The blocks a transaction logged, in log_write order, and their new contents. */
  datatype Txn = Txn(blocks: seq<U32>, data: seq<Block>)

  predicate Legal(l: Layout, d: Disk, t: Txn) {
    && |t.blocks| == |t.data|
    && 0 < |t.blocks| <= LOGSIZE && |t.blocks| < l.size
    && AllOutside(l, |d|, t.blocks)
    && Fits(d, t)
  }

  /** Logged blocks are real blocks outside the log. */
  predicate AllOutside(l: Layout, n: nat, blocks: seq<U32>) {
    forall i | 0 <= i < |blocks| :: Outside(l, n, blocks[i])
  }

  predicate Fits(d: Disk, t: Txn) {
    |t.blocks| == |t.data| && forall i | 0 <= i < |t.blocks| :: t.blocks[i] < |d|
  }

  /** n copies into the log, the header (the commit point), n blocks home, and the empty header. */
  function CommitWrite(l: Layout, d: Disk, t: Txn, i: nat): Write
    requires l.start < |d| && |t.blocks| == |t.data| <= LOGSIZE && i < 2 * |t.blocks| + 2
  {
    var n := |t.blocks|;
    var h := Header(d[l.start], t.blocks, n);
    if i < n then Write(l.start + 1 + i, t.data[i])
    else if i == n then Write(l.start, h)
    else if i < 2 * n + 1 then Write(t.blocks[i - n - 1], t.data[i - n - 1])
    else Write(l.start, SetWord(h, 0, 0))
  }

  /** `ws` is the list of the writes of this commit. */
  ghost predicate CommitList(l: Layout, d: Disk, t: Txn, ws: seq<Write>) {
    && l.start + l.size <= |d| && Legal(l, d, t) && OnDisk(d, ws)
    && |ws| == 2 * |t.blocks| + 2
    && (forall i | 0 <= i < |ws| :: ws[i] == CommitWrite(l, d, t, i))
  }

  function CommitWrites(l: Layout, d: Disk, t: Txn): (ws: seq<Write>)
    requires l.start + l.size <= |d| && Legal(l, d, t)
    ensures CommitList(l, d, t, ws)
  {
    var n := |t.blocks|;
    assert forall i | 0 <= i < n :: Outside(l, |d|, t.blocks[i]);
    seq(2 * n + 2, i requires 0 <= i < 2 * n + 2 => CommitWrite(l, d, t, i))
  }

  /** The state of the homes once the transaction has happened. */
  function Overlay(d: Disk, t: Txn, k: nat): (r: Disk)
    requires Fits(d, t) && k <= |t.blocks|
    ensures |r| == |d|
  {
    if k == 0 then d else Overlay(d, t, k - 1)[t.blocks[k - 1] := t.data[k - 1]]
  }

  function Overlaid(d: Disk, t: Txn): Disk
    requires Fits(d, t)
  {
    Overlay(d, t, |t.blocks|)
  }

  lemma {:induction false} CopyPhase(l: Layout, d: Disk, t: Txn, ws: seq<Write>, k: nat, b: nat)
    requires CommitList(l, d, t, ws) && k <= |t.blocks| && b < |d|
    ensures After(d, ws, k)[b] == if l.start < b <= l.start + k then t.data[b - l.start - 1] else d[b]
  {
    if k > 0 {
      CopyPhase(l, d, t, ws, k - 1, b);
    }
  }

  /** The disk right after the header write. */
  ghost predicate AtCommitPoint(l: Layout, d: Disk, t: Txn, c: Disk)
    requires l.start < |d| && |t.blocks| == |t.data| <= LOGSIZE
  {
    && |c| == |d| && WellFormed(l, c) && Count(c[l.start]) == |t.blocks|
    && (forall i | 0 <= i < |t.blocks| :: Logged(l, t, c, i))
    && SameHomes(l, c, d)
  }

  ghost predicate Logged(l: Layout, t: Txn, c: Disk, i: nat)
    requires i < |t.blocks| == |t.data| <= LOGSIZE && l.start < |c|
  {
    l.start + 1 + i < |c| && Home(l, c, i) == t.blocks[i] && c[l.start + 1 + i] == t.data[i]
  }

  lemma CommitPoint(l: Layout, d: Disk, t: Txn, ws: seq<Write>)
    requires Clean(l, d) && CommitList(l, d, t, ws)
    ensures AtCommitPoint(l, d, t, After(d, ws, |t.blocks| + 1))
  {
    var n := |t.blocks|;
    var e := After(d, ws, n + 1);
    assert e[l.start] == Header(d[l.start], t.blocks, n);
    forall b | 0 <= b < |d| ensures b != l.start ==>
                                    e[b] == if l.start < b <= l.start + n then t.data[b - l.start - 1] else d[b] {
      CopyPhase(l, d, t, ws, n, b);
    }
    HeaderWords(d[l.start], t.blocks, n, 0);
    forall i | 0 <= i < n ensures Logged(l, t, e, i) && Outside(l, |e|, Home(l, e, i)) {
      HeaderWords(d[l.start], t.blocks, n, 1 + i);
      assert Outside(l, |d|, t.blocks[i]);
    }
  }

  lemma CommitInstalls(l: Layout, d: Disk, t: Txn, ws: seq<Write>, c: Disk, k: nat)
    requires CommitList(l, d, t, ws) && k <= |t.blocks|
    requires c == After(d, ws, |t.blocks| + 1) && AtCommitPoint(l, d, t, c)
    ensures After(d, ws, |t.blocks| + 1 + k) == Install(l, c, k)
  {
    hide Install, After;
    var m := |t.blocks| + 1;
    forall i | 0 <= i < k ensures Installs(l, c, ws, m, i) {
      assert Logged(l, t, c, i);
      assert ws[m + i] == CommitWrite(l, d, t, m + i);
    }
    InstallPhase(l, d, ws, m, c, k);
  }

  lemma {:induction false} InstallIsOverlay(l: Layout, d: Disk, t: Txn, c: Disk, k: nat)
    requires l.start < |d| && Fits(d, t) && k <= |t.blocks| <= LOGSIZE
    requires AtCommitPoint(l, d, t, c)
    ensures SameHomes(l, Install(l, c, k), Overlay(d, t, k))
  {
    if k > 0 {
      InstallIsOverlay(l, d, t, c, k - 1);
      assert Logged(l, t, c, k - 1);
    }
  }

  lemma CrashBeforeHeader(l: Layout, d: Disk, t: Txn, ws: seq<Write>, k: nat)
    requires Clean(l, d) && CommitList(l, d, t, ws) && k <= |t.blocks|
    ensures Clean(l, After(d, ws, k)) && SameHomes(l, Recovered(l, After(d, ws, k)), d)
  {
    forall b | 0 <= b < |d| && (!InLog(l, b) || b == l.start) ensures After(d, ws, k)[b] == d[b] {
      CopyPhase(l, d, t, ws, k, b);
    }
  }

  lemma CrashAfterHeader(l: Layout, d: Disk, t: Txn, ws: seq<Write>, k: nat)
    requires Clean(l, d) && CommitList(l, d, t, ws) && k <= |t.blocks|
    ensures var e := After(d, ws, |t.blocks| + 1 + k);
            && WellFormed(l, e)
            && SameHomes(l, Recovered(l, e), Overlaid(d, t))
            && (k == |t.blocks| ==> SameHomes(l, e, Overlaid(d, t)))
  {
    var c := After(d, ws, |t.blocks| + 1);
    CommitPoint(l, d, t, ws);
    CommitInstalls(l, d, t, ws, c, k);
    InstallAgain(l, c, k);
    InstallIsOverlay(l, d, t, c, |t.blocks|);
  }

  lemma CommitEnd(l: Layout, d: Disk, t: Txn, ws: seq<Write>)
    requires Clean(l, d) && CommitList(l, d, t, ws)
    ensures Clean(l, After(d, ws, |ws|)) && SameHomes(l, After(d, ws, |ws|), Overlaid(d, t))
  {
    CrashAfterHeader(l, d, t, ws, |t.blocks|);
    HeaderIsNoHome(l, After(d, ws, |ws| - 1), Overlaid(d, t), Header(d[l.start], t.blocks, |t.blocks|));
  }

  lemma HeaderIsNoHome(l: Layout, d: Disk, e: Disk, h: Block)
    requires SameHomes(l, d, e) && 1 <= l.size && l.start + l.size <= |d|
    ensures Clean(l, d[l.start := SetWord(h, 0, 0)]) && SameHomes(l, d[l.start := SetWord(h, 0, 0)], e)
  {
    WordSet(h, 0, 0, 0);
  }

  lemma CleanRecovered(l: Layout, d: Disk)
    requires Clean(l, d)
    ensures Recovered(l, d) == d
  {
  }

  /** Crash atomicity of one commit. Cut it off after any k of its writes: recovery then finds the homes as
      before the transaction if the header had not been written, and as after it if it had. */
  lemma CrashInCommit(l: Layout, d: Disk, t: Txn, ws: seq<Write>, k: nat)
    requires Clean(l, d) && CommitList(l, d, t, ws) && k <= |ws|
    ensures WellFormed(l, After(d, ws, k))
    ensures SameHomes(l, Recovered(l, After(d, ws, k)), if k <= |t.blocks| then d else Overlaid(d, t))
    ensures k == |ws| ==> Clean(l, After(d, ws, k)) && SameHomes(l, After(d, ws, k), Overlaid(d, t))
  {
    hide After, Install, Recovered, WellFormed, SameHomes, Overlaid, Legal;
    if k <= |t.blocks| {
      CrashBeforeHeader(l, d, t, ws, k);
    } else if k < |ws| {
      CrashAfterHeader(l, d, t, ws, k - |t.blocks| - 1);
    } else {
      CommitEnd(l, d, t, ws);
      CleanRecovered(l, After(d, ws, k));
    }
  }

  // ---- Whole runs: any number of boots and commits, each cut off anywhere ----

  /** `ws` are the writes the event would make if left alone; the first k of them happen. */
  datatype Event =
    | Boot(ws: seq<Write>, k: nat)
    | Commit(t: Txn, ws: seq<Write>, k: nat)

  /** `up` after a recovery that finished, until the next crash. `homes` is the specification: the blocks
      outside the log after every transaction whose header write has reached the disk. */
  datatype System = System(disk: Disk, up: bool, homes: Disk)

  ghost predicate Step(l: Layout, s: System, e: Event, s': System) {
    match e
    case Boot(ws, k) =>
      && RecoverList(l, s.disk, ws) && k <= |ws|
      && s' == System(After(s.disk, ws, k), k == |ws|, s.homes)
    case Commit(t, ws, k) =>
      && s.up && CommitList(l, s.disk, t, ws) && k <= |ws| && Fits(s.homes, t)
      && s' == System(After(s.disk, ws, k), k == |ws|, if k <= |t.blocks| then s.homes else Overlaid(s.homes, t))
  }

  ghost predicate Run(l: Layout, ss: seq<System>, es: seq<Event>) {
    |ss| == |es| + 1 && forall i | 0 <= i < |es| :: Step(l, ss[i], es[i], ss[i + 1])
  }

  ghost predicate Consistent(l: Layout, s: System) {
    && WellFormed(l, s.disk)
    && SameHomes(l, Recovered(l, s.disk), s.homes)
    && (s.up ==> Clean(l, s.disk) && SameHomes(l, s.disk, s.homes))
  }

  lemma {:induction false} OverlaySameHomes(l: Layout, d: Disk, e: Disk, t: Txn, k: nat)
    requires SameHomes(l, d, e) && Fits(d, t) && k <= |t.blocks|
    ensures SameHomes(l, Overlay(d, t, k), Overlay(e, t, k))
  {
    if k > 0 {
      OverlaySameHomes(l, d, e, t, k - 1);
    }
  }

  lemma StepKeepsConsistent(l: Layout, s: System, e: Event, s': System)
    requires Consistent(l, s) && Step(l, s, e, s')
    ensures Consistent(l, s')
  {
    match e
    case Boot(ws, k) =>
      CrashInRecovery(l, s.disk, ws, k);
    case Commit(t, ws, k) =>
      CrashInCommit(l, s.disk, t, ws, k);
      OverlaySameHomes(l, s.disk, s.homes, t, |t.blocks|);
  }

  /** Crash atomicity over whole runs. However often the machine crashes, in the middle of commits and of
      recoveries alike, recovery always leads to exactly the committed transactions; and whenever the system
      is up, its home blocks are exactly those. */
  lemma {:induction false} CrashSafety(l: Layout, ss: seq<System>, es: seq<Event>)
    requires Run(l, ss, es) && Consistent(l, ss[0])
    ensures forall i | 0 <= i < |ss| :: Consistent(l, ss[i])
    decreases |es|
  {
    if es != [] {
      var n := |es| - 1;
      var ss', es' := ss[..n + 1], es[..n];
      forall i | 0 <= i < |es'| ensures Step(l, ss'[i], es'[i], ss'[i + 1]) {
        assert Step(l, ss[i], es[i], ss[i + 1]);
      }
      CrashSafety(l, ss', es');
      assert Consistent(l, ss'[n]);
      assert Step(l, ss[n], es[n], ss[n + 1]);
      StepKeepsConsistent(l, ss[n], es[n], ss[n + 1]);
    }
  }
}
