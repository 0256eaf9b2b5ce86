/** The shell's language, apart from its parser: which tokens write which command tree. The parser accepts exactly that:
    every way to write a tree is read back as the tree, and whatever is read was a way to write it. */
module ShellRoundTrip {
  import opened ShellGrammar

  /** Bytes q to eq of the line. */
  datatype Span = Span(q: nat, eq: nat)

  predicate SameWord(b: string, s: Span, w: string) {
    s.q <= s.eq <= |b| && b[s.q..s.eq] == w
  }

  ghost predicate SameToken(b: string, t: Token<Span>, u: Token<string>) {
    match (t, u)
    case (Sym(c), Sym(d)) => c == d
    case (Append, Append) => true
    case (Word(s), Word(w)) => SameWord(b, s, w)
    case _ => false
  }

  /** The tokens with the texts that line b has at their spans. */
  ghost predicate Reads(b: string, ts: Toks<Span>, us: Toks<string>) {
    match (ts, us)
    case (End, End) => true
    case (More(t, tt), More(u, uu)) => SameToken(b, t, u) && Reads(b, tt, uu)
    case _ => false
  }

  /** The tree with the texts that line b has at its spans. */
  ghost predicate Spells(b: string, c: Cmd<Span>, d: Cmd<string>) {
    match (c, d)
    case (Exec(ss), Exec(ws)) => |ss| == |ws| && forall i | 0 <= i < |ss| :: SameWord(b, ss[i], ws[i])
    case (Redir(c1, s, m), Redir(d1, w, n)) => Spells(b, c1, d1) && SameWord(b, s, w) && m == n
    case (Pipe(l, r), Pipe(l1, r1)) => Spells(b, l, l1) && Spells(b, r, r1)
    case (List(l, r), List(l1, r1)) => Spells(b, l, l1) && Spells(b, r, r1)
    case (Back(c1), Back(d1)) => Spells(b, c1, d1)
    case _ => false
  }

  ghost predicate SpellsAll(b: string, rs: seq<Redirection<Span>>, us: seq<Redirection<string>>) {
    |rs| == |us| && forall i | 0 <= i < |rs| :: SameWord(b, rs[i].file, us[i].file) && rs[i].write == us[i].write
  }

  lemma StartsSame(b: string, ts: Toks<Span>, us: Toks<string>, cs: seq<char>)
    requires Reads(b, ts, us)
    ensures StartsWith(ts, cs) <==> StartsWith(us, cs)
  {
  }

  // ---- The language. us is a way to write c, in front of the tokens k ----

  predicate IsRedir(t: Token<string>, write: bool) {
    if write then t == Sym('>') || t == Append else t == Sym('<')
  }

  predicate RedirAt(us: Toks<string>, r: Redirection<string>) {
    us.More? && IsRedir(us.head, r.write) && us.tail.More? && us.tail.head == Word(r.file)
  }

  predicate DRedirs(us: Toks<string>, rs: seq<Redirection<string>>, k: Toks<string>)
    decreases |rs|
  {
    if rs == [] then us == k else RedirAt(us, rs[0]) && DRedirs(us.tail.tail, rs[1..], k)
  }

  /** Arguments and redirections, mixed in any way. */
  predicate DItems(us: Toks<string>, args: seq<string>, rs: seq<Redirection<string>>, k: Toks<string>)
    decreases |args| + |rs|
  {
    || (args == [] && rs == [] && us == k)
    || (args != [] && us.More? && us.head == Word(args[0]) && DItems(us.tail, args[1..], rs, k))
    || (rs != [] && RedirAt(us, rs[0]) && DItems(us.tail.tail, args, rs[1..], k))
  }

  /** A command with at most nine arguments. */
  predicate DSimple(us: Toks<string>, c: Cmd<string>, k: Toks<string>, args: seq<string>,
                    rs: seq<Redirection<string>>)
  {
    c == Wrap(Exec(args), rs) && |args| < 10 && DItems(us, args, rs, k)
  }

  /** A line in parentheses, and redirections. */
  ghost predicate DBlock(us: Toks<string>, c: Cmd<string>, k: Toks<string>, d: Cmd<string>,
                         rs: seq<Redirection<string>>, m: Toks<string>)
    decreases Len(us), 0, c
  {
    && us.More? && us.head == Sym('(') && c == Wrap(d, rs)
    && DLine(us.tail, d, More(Sym(')'), m)) && DRedirs(m, rs, k)
  }

  ghost predicate DExec(us: Toks<string>, c: Cmd<string>, k: Toks<string>)
    decreases Len(us), 1, c
  {
    || (exists args, rs :: DSimple(us, c, k, args, rs))
    || (exists d, rs, m :: DBlock(us, c, k, d, rs, m))
  }

  ghost predicate DBars(us: Toks<string>, c: Cmd<string>, k: Toks<string>, m: Toks<string>)
    decreases Len(us), 2, c
  {
    && c.Pipe? && Len(m) < Len(us)
    && DExec(us, c.left, More(Sym('|'), m)) && DPipe(m, c.right, k)
  }

  ghost predicate DPipe(us: Toks<string>, c: Cmd<string>, k: Toks<string>)
    decreases Len(us), 3, c
  {
    DExec(us, c, k) || exists m :: DBars(us, c, k, m)
  }

  ghost predicate DBack(us: Toks<string>, c: Cmd<string>, k: Toks<string>)
    decreases Len(us), 4, c
  {
    DPipe(us, c, k) || (c.Back? && DBack(us, c.cmd, More(Sym('&'), k)))
  }

  ghost predicate DSemis(us: Toks<string>, c: Cmd<string>, k: Toks<string>, m: Toks<string>)
    decreases Len(us), 5, c
  {
    && c.List? && Len(m) < Len(us)
    && DBack(us, c.left, More(Sym(';'), m)) && DLine(m, c.right, k)
  }

  ghost predicate DLine(us: Toks<string>, c: Cmd<string>, k: Toks<string>)
    decreases Len(us), 6, c
  {
    DBack(us, c, k) || exists m :: DSemis(us, c, k, m)
  }

  // ---- Every way to write a tree is read back as the tree ----

  /** What may follow a command between bars. */
  predicate Stop<W>(k: Toks<W>) {
    k.End? || StartsWith(k, "|)&;")
  }

  lemma {:induction false} SpellsWrap(b: string, c: Cmd<Span>, d: Cmd<string>, rs: seq<Redirection<Span>>,
                                      us: seq<Redirection<string>>)
    requires Spells(b, c, d) && SpellsAll(b, rs, us)
    ensures Spells(b, Wrap(c, rs), Wrap(d, us))
    decreases |rs|
  {
    if rs != [] {
      SpellsWrap(b, c, d, rs[..|rs| - 1], us[..|us| - 1]);
    }
  }

  lemma NoRedirs(ts: Toks<Span>)
    requires !StartsWith(ts, "<>")
    ensures PRedirs(ts) == Ok([], ts)
  {
  }

  lemma RedirStep(b: string, ts: Toks<Span>, us: Toks<string>, r: Redirection<string>)
    requires Reads(b, ts, us) && RedirAt(us, r)
    ensures StartsWith(ts, "<>") && ts.tail.More? && ts.tail.head.Word? && Reads(b, ts.tail.tail, us.tail.tail)
    ensures SameWord(b, ts.tail.head.w, r.file) && (ts.head != Sym('<')) == r.write
    ensures PRedirs(ts) == match PRedirs(ts.tail.tail)
                           case Fail => Fail
                           case Ok(rs, after) => Ok([Redirection(ts.tail.head.w, ts.head != Sym('<'))] + rs, after)
  {
  }

  lemma {:induction false} RoundRedirs(b: string, rs: seq<Redirection<string>>, ts: Toks<Span>, us: Toks<string>,
                                       k: Toks<string>)
      returns (r': seq<Redirection<Span>>, rest: Toks<Span>)
    requires Reads(b, ts, us) && DRedirs(us, rs, k) && !StartsWith(k, "<>")
    ensures PRedirs(ts) == Ok(r', rest) && Reads(b, rest, k) && SpellsAll(b, r', rs)
    decreases |rs|
  {
    if rs == [] {
      StartsSame(b, ts, us, "<>");
      r', rest := [], ts;
    } else {
      RedirStep(b, ts, us, rs[0]);
      var more;
      more, rest := RoundRedirs(b, rs[1..], ts.tail.tail, us.tail.tail, k);
      r' := [Redirection(ts.tail.head.w, ts.head != Sym('<'))] + more;
    }
  }

  /** The redirections that come before the next argument or the end. */
  lemma {:induction false} LeadRedirs(b: string, args: seq<string>, rs: seq<Redirection<string>>,
                                      ts: Toks<Span>, us: Toks<string>, k: Toks<string>)
      returns (n: nat, r': seq<Redirection<Span>>, rest: Toks<Span>, us': Toks<string>)
    requires Reads(b, ts, us) && DItems(us, args, rs, k) && Stop(k)
    ensures n <= |rs| && PRedirs(ts) == Ok(r', rest) && SpellsAll(b, r', rs[..n])
    ensures Reads(b, rest, us') && DItems(us', args, rs[n..], k) && !StartsWith(us', "<>") && Len(us') <= Len(us)
    decreases |rs|
  {
    if rs != [] && RedirAt(us, rs[0]) && DItems(us.tail.tail, args, rs[1..], k) {
      RedirStep(b, ts, us, rs[0]);
      var more, m;
      m, more, rest, us' := LeadRedirs(b, args, rs[1..], ts.tail.tail, us.tail.tail, k);
      n, r' := m + 1, [Redirection(ts.tail.head.w, ts.head != Sym('<'))] + more;
      assert rs[..n] == [rs[0]] + rs[1..][..m] && rs[n..] == rs[1..][m..];
    } else {
      StartsSame(b, ts, us, "<>");
      NoRedirs(ts);
      n, r', rest, us' := 0, [], ts, us;
      assert rs[0..] == rs;
    }
  }

  lemma {:induction false} RoundArgs(b: string, args: seq<string>, rs: seq<Redirection<string>>,
                                     ts: Toks<Span>, us: Toks<string>, k: Toks<string>,
                                     done: seq<Span>, rdone: seq<Redirection<Span>>)
      returns (a': seq<Span>, r': seq<Redirection<Span>>, rest: Toks<Span>)
    requires Reads(b, ts, us) && DItems(us, args, rs, k) && !StartsWith(us, "<>") && Stop(k)
    requires |done| + |args| < 10
    ensures PArgs(ts, done, rdone) == Ok(Wrap(Exec(done + a'), rdone + r'), rest) && Reads(b, rest, k)
    ensures |a'| == |args| && (forall i | 0 <= i < |args| :: SameWord(b, a'[i], args[i])) && SpellsAll(b, r', rs)
    decreases |args|
  {
    hide Wrap, PRedirs, PArgs, DItems, SpellsAll;
    NextItem(us, args, rs, k);
    if args == [] {
      a', r', rest := [], [], ts;
      ArgsEnd(b, ts, us, done, rdone);
      assert done + a' == done && rdone + r' == rdone;
    } else {
      var w := ts.head.w;
      var n, r1, t1, u1 := LeadRedirs(b, args[1..], rs, ts.tail, us.tail, k);
      var a2, r2;
      a2, r2, rest := RoundArgs(b, args[1..], rs[n..], t1, u1, k, done + [w], rdone + r1);
      a', r' := [w] + a2, r1 + r2;
      ArgStep(ts, done, rdone, r1, t1);
      assert done + [w] + a2 == done + a' && rdone + r1 + r2 == rdone + r';
      SpellsJoin(b, r1, r2, rs, n);
    }
  }

  lemma NextItem(us: Toks<string>, args: seq<string>, rs: seq<Redirection<string>>, k: Toks<string>)
    requires DItems(us, args, rs, k) && !StartsWith(us, "<>") && Stop(k)
    ensures if args == [] then rs == [] && us == k
            else us.More? && us.head == Word(args[0]) && DItems(us.tail, args[1..], rs, k)
  {
    assert rs != [] ==> !RedirAt(us, rs[0]);
  }

  lemma ArgsEnd(b: string, ts: Toks<Span>, k: Toks<string>, args: seq<Span>, rs: seq<Redirection<Span>>)
    requires Reads(b, ts, k) && Stop(k)
    ensures PArgs(ts, args, rs) == Ok(Wrap(Exec(args), rs), ts) && SpellsAll(b, [], [])
  {
    StartsSame(b, ts, k, "|)&;");
  }

  lemma ArgStep(ts: Toks<Span>, args: seq<Span>, rs: seq<Redirection<Span>>, more: seq<Redirection<Span>>,
                rest: Toks<Span>)
    requires ts.More? && ts.head.Word? && |args| + 1 < 10 && PRedirs(ts.tail) == Ok(more, rest)
    ensures PArgs(ts, args, rs) == PArgs(rest, args + [ts.head.w], rs + more)
  {
    hide PRedirs;
  }

  lemma SpellsJoin(b: string, r1: seq<Redirection<Span>>, r2: seq<Redirection<Span>>, rs: seq<Redirection<string>>,
                   n: nat)
    requires n <= |rs| && SpellsAll(b, r1, rs[..n]) && SpellsAll(b, r2, rs[n..])
    ensures SpellsAll(b, r1 + r2, rs)
  {
    forall i | 0 <= i < |rs|
      ensures SameWord(b, (r1 + r2)[i].file, rs[i].file) && (r1 + r2)[i].write == rs[i].write
    {
      if i < n {
        assert rs[..n][i] == rs[i] && (r1 + r2)[i] == r1[i];
      } else {
        assert rs[n..][i - n] == rs[i] && (r1 + r2)[i] == r2[i - n];
      }
    }
  }

  lemma RoundSimple(b: string, args: seq<string>, rs: seq<Redirection<string>>, ts: Toks<Span>, us: Toks<string>,
                    k: Toks<string>)
      returns (c': Cmd<Span>, rest: Toks<Span>)
    requires Reads(b, ts, us) && DItems(us, args, rs, k) && Stop(k) && |args| < 10
    ensures PExec(ts) == Ok(c', rest) && Reads(b, rest, k) && Spells(b, c', Wrap(Exec(args), rs))
  {
    hide PRedirs, PArgs, PBlock, Wrap, Spells, SpellsAll;
    StartsSame(b, ts, us, "(");
    var n, r1, t1, u1 := LeadRedirs(b, args, rs, ts, us, k);
    var a', r2;
    a', r2, rest := RoundArgs(b, args, rs[n..], t1, u1, k, [], r1);
    assert [] + a' == a';
    SpellsJoin(b, r1, r2, rs, n);
    c' := Wrap(Exec(a'), r1 + r2);
    ExecSpells(b, a', args);
    SpellsWrap(b, Exec(a'), Exec(args), r1 + r2, rs);
  }

  lemma ExecSpells(b: string, a': seq<Span>, args: seq<string>)
    requires |a'| == |args| && forall i | 0 <= i < |args| :: SameWord(b, a'[i], args[i])
    ensures Spells(b, Exec(a'), Exec(args))
  {
  }

  lemma {:induction false} RoundExec(b: string, c: Cmd<string>, ts: Toks<Span>, us: Toks<string>, k: Toks<string>)
      returns (c': Cmd<Span>, rest: Toks<Span>)
    requires Reads(b, ts, us) && DExec(us, c, k) && Stop(k)
    ensures PExec(ts) == Ok(c', rest) && Reads(b, rest, k) && Spells(b, c', c)
    decreases Len(us), 1, c
  {
    hide PRedirs, PLine, Wrap, Spells, DItems, DRedirs;
    if args, rs :| DSimple(us, c, k, args, rs) {
      c', rest := RoundSimple(b, args, rs, ts, us, k);
    } else {
      var d, rs, m :| DBlock(us, c, k, d, rs, m);
      var d', r1 := RoundLine(b, d, ts.tail, us.tail, More(Sym(')'), m));
      var r', r2 := RoundRedirs(b, rs, r1.tail, m, k);
      rest := r2;
      c' := Wrap(d', r');
      SpellsWrap(b, d', d, r', rs);
    }
  }

  lemma {:induction false} RoundPipe(b: string, c: Cmd<string>, ts: Toks<Span>, us: Toks<string>, k: Toks<string>)
      returns (c': Cmd<Span>, rest: Toks<Span>)
    requires Reads(b, ts, us) && DPipe(us, c, k) && Stop(k) && !StartsWith(k, "|")
    ensures PPipe(ts) == Ok(c', rest) && Reads(b, rest, k) && Spells(b, c', c)
    decreases Len(us), 3, c
  {
    hide PExec, DExec;
    if m :| DBars(us, c, k, m) {
      var l', r1 := RoundExec(b, c.left, ts, us, More(Sym('|'), m));
      var r', r2 := RoundPipe(b, c.right, r1.tail, m, k);
      c', rest := Pipe(l', r'), r2;
    } else {
      c', rest := RoundExec(b, c, ts, us, k);
      StartsSame(b, rest, k, "|");
    }
  }

  lemma {:induction false} RoundBack(b: string, c: Cmd<string>, ts: Toks<Span>, us: Toks<string>, k: Toks<string>)
      returns (c': Cmd<Span>, rest: Toks<Span>)
    requires Reads(b, ts, us) && DBack(us, c, k) && Stop(k) && !StartsWith(k, "|")
    ensures PPipe(ts).Ok? && PBacks(PPipe(ts).value, PPipe(ts).rest) == PBacks(c', rest)
    ensures Reads(b, rest, k) && Spells(b, c', c)
    decreases Len(us), 4, c
  {
    hide PPipe, DPipe;
    if c.Back? && DBack(us, c.cmd, More(Sym('&'), k)) {
      var d', r1 := RoundBack(b, c.cmd, ts, us, More(Sym('&'), k));
      c', rest := Back(d'), r1.tail;
    } else {
      c', rest := RoundPipe(b, c, ts, us, k);
    }
  }

  lemma {:induction false} RoundLine(b: string, c: Cmd<string>, ts: Toks<Span>, us: Toks<string>, k: Toks<string>)
      returns (c': Cmd<Span>, rest: Toks<Span>)
    requires Reads(b, ts, us) && DLine(us, c, k) && (k.End? || StartsWith(k, ")"))
    ensures PLine(ts) == Ok(c', rest) && Reads(b, rest, k) && Spells(b, c', c)
    decreases Len(us), 6, c
  {
    hide PPipe, DBack;
    if m :| DSemis(us, c, k, m) {
      var l', r1 := RoundBack(b, c.left, ts, us, More(Sym(';'), m));
      var r', r2 := RoundLine(b, c.right, r1.tail, m, k);
      c', rest := List(l', r'), r2;
    } else {
      c', rest := RoundBack(b, c, ts, us, k);
      StartsSame(b, rest, k, "&");
      StartsSame(b, rest, k, ";");
    }
  }

  /** Parsing any way to write a tree gives the tree back. */
  lemma RoundTrip(b: string, c: Cmd<string>, ts: Toks<Span>, us: Toks<string>)
    requires Reads(b, ts, us) && DLine(us, c, End)
    ensures PCmd(ts).Ok? && Spells(b, PCmd(ts).value, c)
  {
    var c', rest := RoundLine(b, c, ts, us, End);
  }

  // ---- Whatever is read was a way to write it ----

  lemma {:induction false} SoundRedirs(b: string, ts: Toks<Span>, us: Toks<string>)
      returns (rs: seq<Redirection<string>>, k: Toks<string>)
    requires Reads(b, ts, us) && PRedirs(ts).Ok?
    ensures DRedirs(us, rs, k) && SpellsAll(b, PRedirs(ts).value, rs) && Reads(b, PRedirs(ts).rest, k)
    decreases ts
  {
    if StartsWith(ts, "<>") {
      var more;
      more, k := SoundRedirs(b, ts.tail.tail, us.tail.tail);
      rs := [Redirection(us.tail.head.w, us.head != Sym('<'))] + more;
      assert rs[1..] == more;
    } else {
      rs, k := [], us;
    }
  }

  lemma {:induction false} RedirsFirst(us: Toks<string>, r1: seq<Redirection<string>>, m: Toks<string>,
                                       args: seq<string>, r2: seq<Redirection<string>>, k: Toks<string>)
    requires DRedirs(us, r1, m) && DItems(m, args, r2, k)
    ensures DItems(us, args, r1 + r2, k)
    decreases |r1|
  {
    if r1 == [] {
      assert r1 + r2 == r2;
    } else {
      RedirsFirst(us.tail.tail, r1[1..], m, args, r2, k);
      assert (r1 + r2)[1..] == r1[1..] + r2;
    }
  }

  lemma {:induction false} SoundArgs(b: string, ts: Toks<Span>, us: Toks<string>, done: seq<Span>,
                                     rdone: seq<Redirection<Span>>)
      returns (a': seq<Span>, r': seq<Redirection<Span>>, args: seq<string>, rs: seq<Redirection<string>>,
               k: Toks<string>)
    requires Reads(b, ts, us) && PArgs(ts, done, rdone).Ok? && |done| < 10
    ensures PArgs(ts, done, rdone).value == Wrap(Exec(done + a'), rdone + r') && |done| + |a'| < 10
    ensures |a'| == |args| && (forall i | 0 <= i < |args| :: SameWord(b, a'[i], args[i])) && SpellsAll(b, r', rs)
    ensures DItems(us, args, rs, k) && Reads(b, PArgs(ts, done, rdone).rest, k)
    decreases Len(ts)
  {
    hide Wrap, PRedirs, SpellsAll, DItems;
    if ts.End? || StartsWith(ts, "|)&;") {
      a', r', args, rs, k := [], [], [], [], us;
      ItemsEnd(b, us);
      assert done + a' == done && rdone + r' == rdone;
    } else {
      var w, t1, more := ts.head.w, PRedirs(ts.tail).rest, PRedirs(ts.tail).value;
      var r1, u1 := SoundRedirs(b, ts.tail, us.tail);
      var a2, r2, args2, rs2;
      a2, r2, args2, rs2, k := SoundArgs(b, t1, u1, done + [w], rdone + more);
      a', r', args, rs := [w] + a2, more + r2, [us.head.w] + args2, r1 + rs2;
      assert done + [w] + a2 == done + a' && rdone + more + r2 == rdone + r';
      RedirsFirst(us.tail, r1, u1, args2, rs2, k);
      ItemsWord(us, args2, rs, k);
      assert rs[..|r1|] == r1 && rs[|r1|..] == rs2;
      SpellsJoin(b, more, r2, rs, |r1|);
    }
  }

  lemma ItemsEnd(b: string, us: Toks<string>)
    ensures DItems(us, [], [], us) && SpellsAll(b, [], [])
  {
  }

  lemma ItemsWord(us: Toks<string>, args: seq<string>, rs: seq<Redirection<string>>, k: Toks<string>)
    requires us.More? && us.head.Word? && DItems(us.tail, args, rs, k)
    ensures DItems(us, [us.head.w] + args, rs, k)
  {
    assert ([us.head.w] + args)[1..] == args;
  }

  lemma {:induction false} SoundExec(b: string, ts: Toks<Span>, us: Toks<string>)
      returns (c: Cmd<string>, k: Toks<string>)
    requires Reads(b, ts, us) && PExec(ts).Ok?
    ensures DExec(us, c, k) && Spells(b, PExec(ts).value, c) && Reads(b, PExec(ts).rest, k)
    decreases Len(ts), 1
  {
    if StartsWith(ts, "(") {
      c, k := SoundBlock(b, ts, us);
    } else {
      c, k := SoundSimple(b, ts, us);
    }
  }

  lemma SoundSimple(b: string, ts: Toks<Span>, us: Toks<string>) returns (c: Cmd<string>, k: Toks<string>)
    requires Reads(b, ts, us) && PExec(ts).Ok? && !StartsWith(ts, "(")
    ensures DExec(us, c, k) && Spells(b, PExec(ts).value, c) && Reads(b, PExec(ts).rest, k)
  {
    hide PRedirs, PArgs, PBlock, Wrap, Spells, SpellsAll, DItems, DRedirs, DBlock;
    var r1, u1 := SoundRedirs(b, ts, us);
    var more, t1 := PRedirs(ts).value, PRedirs(ts).rest;
    var a', r', args, rs;
    a', r', args, rs, k := SoundArgs(b, t1, u1, [], more);
    RedirsFirst(us, r1, u1, args, rs, k);
    c := Wrap(Exec(args), r1 + rs);
    assert DSimple(us, c, k, args, r1 + rs);
    assert [] + a' == a' && (r1 + rs)[..|r1|] == r1 && (r1 + rs)[|r1|..] == rs;
    SpellsJoin(b, more, r', r1 + rs, |r1|);
    ExecSpells(b, a', args);
    SpellsWrap(b, Exec(a'), Exec(args), more + r', r1 + rs);
  }

  lemma {:induction false} SoundBlock(b: string, ts: Toks<Span>, us: Toks<string>)
      returns (c: Cmd<string>, k: Toks<string>)
    requires Reads(b, ts, us) && PExec(ts).Ok? && StartsWith(ts, "(")
    ensures DExec(us, c, k) && Spells(b, PExec(ts).value, c) && Reads(b, PExec(ts).rest, k)
    decreases Len(ts), 0
  {
    hide PRedirs, PLine, Wrap, Spells, SpellsAll, DItems, DRedirs, DLine;
    var d, k1 := SoundLine(b, ts.tail, us.tail);
    var rest := PLine(ts.tail).rest;
    StartsSame(b, rest, k1, ")");
    var rs;
    rs, k := SoundRedirs(b, rest.tail, k1.tail);
    c := Wrap(d, rs);
    assert k1 == More(Sym(')'), k1.tail);
    assert DBlock(us, c, k, d, rs, k1.tail);
    SpellsWrap(b, PLine(ts.tail).value, d, PRedirs(rest.tail).value, rs);
  }

  lemma {:induction false} SoundPipe(b: string, ts: Toks<Span>, us: Toks<string>)
      returns (c: Cmd<string>, k: Toks<string>)
    requires Reads(b, ts, us) && PPipe(ts).Ok?
    ensures DPipe(us, c, k) && Spells(b, PPipe(ts).value, c) && Reads(b, PPipe(ts).rest, k)
    decreases Len(ts), 2
  {
    hide PExec, DExec;
    var l, k1 := SoundExec(b, ts, us);
    var rest := PExec(ts).rest;
    if StartsWith(rest, "|") {
      var r;
      r, k := SoundPipe(b, rest.tail, k1.tail);
      c := Pipe(l, r);
      SameLen(b, ts, us);
      SameLen(b, rest, k1);
      assert k1 == More(Sym('|'), k1.tail);
      assert DBars(us, c, k, k1.tail);
    } else {
      c, k := l, k1;
    }
  }

  lemma SameLen(b: string, ts: Toks<Span>, us: Toks<string>)
    requires Reads(b, ts, us)
    ensures Len(ts) == Len(us)
  {
  }

  lemma {:induction false} SoundBacks(b: string, c': Cmd<Span>, c: Cmd<string>, ts: Toks<Span>, k: Toks<string>,
                                      us: Toks<string>)
      returns (d: Cmd<string>, k': Toks<string>)
    requires Reads(b, ts, k) && Spells(b, c', c) && DBack(us, c, k)
    ensures Spells(b, PBacks(c', ts).0, d) && Reads(b, PBacks(c', ts).1, k') && DBack(us, d, k')
    decreases Len(ts)
  {
    hide DPipe;
    if StartsWith(ts, "&") {
      assert k == More(Sym('&'), k.tail);
      d, k' := SoundBacks(b, Back(c'), Back(c), ts.tail, k.tail, us);
    } else {
      d, k' := c, k;
    }
  }

  lemma {:induction false} SoundLine(b: string, ts: Toks<Span>, us: Toks<string>)
      returns (c: Cmd<string>, k: Toks<string>)
    requires Reads(b, ts, us) && PLine(ts).Ok?
    ensures DLine(us, c, k) && Spells(b, PLine(ts).value, c) && Reads(b, PLine(ts).rest, k)
    decreases Len(ts), 3
  {
    hide PPipe, PBacks, DPipe;
    var p, k0 := SoundPipe(b, ts, us);
    assert DBack(us, p, k0);
    var t0 := PPipe(ts).rest;
    var l, k1 := SoundBacks(b, PPipe(ts).value, p, t0, k0, us);
    var rest := PBacks(PPipe(ts).value, t0).1;
    if StartsWith(rest, ";") {
      var r;
      r, k := SoundLine(b, rest.tail, k1.tail);
      c := List(l, r);
      SameLen(b, ts, us);
      SameLen(b, rest, k1);
      assert k1 == More(Sym(';'), k1.tail);
      assert DSemis(us, c, k, k1.tail);
    } else {
      c, k := l, k1;
    }
  }

  /** What the parser accepts is a way to write the tree it returns. */
  lemma Sound(b: string, ts: Toks<Span>, us: Toks<string>) returns (c: Cmd<string>)
    requires Reads(b, ts, us) && PCmd(ts).Ok?
    ensures DLine(us, c, End) && Spells(b, PCmd(ts).value, c)
  {
    var k;
    c, k := SoundLine(b, ts, us);
  }

  // ---- Every tree can be written ----

  /** At most nine arguments to a command. */
  predicate Short(c: Cmd<string>) {
    match c
    case Exec(args) => |args| < 10
    case Redir(d, _, _) => Short(d)
    case Pipe(l, r) => Short(l) && Short(r)
    case List(l, r) => Short(l) && Short(r)
    case Back(d) => Short(d)
  }

  function RedirToks(rs: seq<Redirection<string>>, k: Toks<string>): Toks<string> {
    if rs == [] then k else More(Sym(if rs[0].write then '>' else '<'), More(Word(rs[0].file), RedirToks(rs[1..], k)))
  }

  function Base(c: Cmd<string>): Cmd<string> {
    if c.Redir? then Base(c.cmd) else c
  }

  function Redirs(c: Cmd<string>): seq<Redirection<string>> {
    if c.Redir? then Redirs(c.cmd) + [Redirection(c.file, c.write)] else []
  }

  lemma {:induction false} RedirToksSnoc(rs: seq<Redirection<string>>, r: Redirection<string>, k: Toks<string>)
    ensures RedirToks(rs + [r], k) == RedirToks(rs, RedirToks([r], k))
  {
    if rs == [] {
      assert rs + [r] == [r];
    } else {
      assert (rs + [r])[1..] == rs[1..] + [r];
      RedirToksSnoc(rs[1..], r, k);
    }
  }

  lemma {:induction false} ShowsRedirs(c: Cmd<string>, k: Toks<string>)
    ensures ShowExec(c, k) == ShowExec(Base(c), RedirToks(Redirs(c), k)) && !Base(c).Redir?
    ensures Wrap(Base(c), Redirs(c)) == c && (Short(c) ==> Short(Base(c)))
  {
    if c.Redir? {
      var r := Redirection(c.file, c.write);
      assert [r][1..] == [];
      assert RedirToks([r], k) == More(Sym(if c.write then '>' else '<'), More(Word(c.file), RedirToks([], k)));
      ShowsRedirs(c.cmd, RedirToks([r], k));
      RedirToksSnoc(Redirs(c.cmd), r, k);
      assert (Redirs(c.cmd) + [r])[..|Redirs(c.cmd)|] == Redirs(c.cmd);
    }
  }

  lemma {:induction false} RedirToksD(rs: seq<Redirection<string>>, k: Toks<string>)
    ensures DRedirs(RedirToks(rs, k), rs, k)
    decreases |rs|
  {
    if rs != [] {
      RedirToksD(rs[1..], k);
    }
  }

  lemma {:induction false} WordsD(args: seq<string>, rs: seq<Redirection<string>>, k: Toks<string>)
    ensures DItems(Words(args, RedirToks(rs, k)), args, rs, k)
    decreases |args|
  {
    hide RedirToks;
    if args == [] {
      RedirToksD(rs, k);
      ItemsEnd("", k);
      RedirsFirst(RedirToks(rs, k), rs, k, [], [], k);
      assert rs + [] == rs;
    } else {
      WordsD(args[1..], rs, k);
    }
  }

  lemma BaseSize(c: Cmd<string>)
    ensures Base(c) == c || Base(c) < c
  {
  }

  lemma {:induction false} ShowsExec(c: Cmd<string>, k: Toks<string>)
    requires Short(c)
    ensures DExec(ShowExec(c, k), c, k)
    decreases c, Rank(0, c)
  {
    hide Wrap, RedirToks, DItems, DRedirs, DLine;
    ShowsRedirs(c, k);
    var d, rs := Base(c), Redirs(c);
    if d.Exec? {
      WordsD(d.args, rs, k);
      assert DSimple(ShowExec(c, k), c, k, d.args, rs);
    } else {
      BaseSize(c);
      var m := RedirToks(rs, k);
      ShowsLine(d, More(Sym(')'), m));
      RedirToksD(rs, k);
      assert DBlock(ShowExec(c, k), c, k, d, rs, m);
    }
  }

  lemma {:induction false} ShowsPipe(c: Cmd<string>, k: Toks<string>)
    requires Short(c)
    ensures DPipe(ShowPipe(c, k), c, k) && Len(k) <= Len(ShowPipe(c, k))
    decreases c, Rank(1, c)
  {
    hide DExec;
    ShowLen(c, k);
    if c.Pipe? {
      var m := ShowPipe(c.right, k);
      ShowsPipe(c.right, k);
      ShowsExec(c.left, More(Sym('|'), m));
      ShowLen(c.left, More(Sym('|'), m));
      assert DBars(ShowPipe(c, k), c, k, m);
    } else {
      ShowsExec(c, k);
    }
  }

  lemma {:induction false} ShowsBack(c: Cmd<string>, k: Toks<string>)
    requires Short(c)
    ensures DBack(ShowBack(c, k), c, k)
    decreases c, Rank(2, c)
  {
    hide DPipe;
    if c.Back? {
      ShowsBack(c.cmd, More(Sym('&'), k));
    } else {
      ShowsPipe(c, k);
    }
  }

  lemma {:induction false} ShowsLine(c: Cmd<string>, k: Toks<string>)
    requires Short(c)
    ensures DLine(ShowLine(c, k), c, k)
    decreases c, Rank(3, c)
  {
    hide DBack;
    if c.List? {
      var m := ShowLine(c.right, k);
      ShowsLine(c.right, k);
      ShowsBack(c.left, More(Sym(';'), m));
      ShowLen(c.left, More(Sym(';'), m));
      assert DSemis(ShowLine(c, k), c, k, m);
    } else {
      ShowsBack(c, k);
    }
  }

  lemma {:induction false} WordsLen(args: seq<string>, k: Toks<string>)
    ensures Len(k) <= Len(Words(args, k))
    decreases |args|
  {
    if args != [] {
      WordsLen(args[1..], k);
    }
  }

  lemma {:induction false} ShowLen(c: Cmd<string>, k: Toks<string>)
    ensures Len(k) <= Len(ShowExec(c, k)) && Len(k) <= Len(ShowPipe(c, k)) && Len(k) <= Len(ShowBack(c, k))
    ensures Len(k) <= Len(ShowLine(c, k))
    decreases c, 1
  {
    match c
    case Exec(args) => WordsLen(args, k);
    case Redir(d, file, write) => ShowLen(d, More(Sym(if write then '>' else '<'), More(Word(file), k)));
    case Pipe(l, r) =>
      PipeLen(l, r, k);
      PipeLen(l, r, More(Sym(')'), k));
      assert ShowLine(c, More(Sym(')'), k)) == ShowPipe(c, More(Sym(')'), k));
      assert ShowLine(c, k) == ShowBack(c, k) == ShowPipe(c, k);
    case List(l, r) =>
      ListLen(l, r, k);
      ListLen(l, r, More(Sym(')'), k));
    case Back(d) =>
      ShowLen(d, More(Sym('&'), k));
      ShowLen(d, More(Sym('&'), More(Sym(')'), k)));
      assert ShowLine(c, More(Sym(')'), k)) == ShowBack(d, More(Sym('&'), More(Sym(')'), k)));
  }

  lemma {:induction false} PipeLen(l: Cmd<string>, r: Cmd<string>, k: Toks<string>)
    ensures Len(k) <= Len(ShowPipe(Pipe(l, r), k))
    decreases Pipe(l, r), 0
  {
    ShowLen(r, k);
    ShowLen(l, More(Sym('|'), ShowPipe(r, k)));
  }

  lemma {:induction false} ListLen(l: Cmd<string>, r: Cmd<string>, k: Toks<string>)
    ensures Len(k) <= Len(ShowLine(List(l, r), k))
    decreases List(l, r), 0
  {
    ShowLen(r, k);
    ShowLen(l, More(Sym(';'), ShowLine(r, k)));
  }
}
