/** The shell's parser (user/src/sh.rs): gettoken(), peek() and the recursive descent over the characters of a line, and
    the NUL bytes that make C strings of its words. */
module Shell {
  import opened Common
  import opened ShellGrammar
  import opened ShellRoundTrip
  import opened ShellLexer

  /** A whole word of the line. */
  predicate WordSpan(b: string, w: Span) {
    && w.q < w.eq <= |b| && (forall i | w.q <= i < w.eq :: WordChar(b[i]))
    && (w.eq < |b| ==> !WordChar(b[w.eq]))
  }

  /** Every word of the tree is a whole word of the line. */
  predicate Whole(b: string, c: Cmd<Span>) {
    match c
    case Exec(args) => |args| < MAXARGS && forall i | 0 <= i < |args| :: WordSpan(b, args[i])
    case Redir(d, file, _) => Whole(b, d) && WordSpan(b, file)
    case Pipe(l, r) => Whole(b, l) && Whole(b, r)
    case List(l, r) => Whole(b, l) && Whole(b, r)
    case Back(d) => Whole(b, d)
  }

  predicate WholeAll(b: string, rs: seq<Redirection<Span>>) {
    forall i | 0 <= i < |rs| :: WordSpan(b, rs[i].file)
  }

  lemma {:induction false} WholeWrap(b: string, c: Cmd<Span>, rs: seq<Redirection<Span>>)
    requires Whole(b, c) && WholeAll(b, rs)
    ensures Whole(b, Wrap(c, rs))
    decreases |rs|
  {
    if rs != [] {
      WholeWrap(b, c, rs[..|rs| - 1]);
    }
  }

  /** What gettoken() returns for a token. */
  function Code(t: Token<Span>): char {
    match t
    case Sym(c) => c
    case Append => '+'
    case Word(_) => 'a'
  }

  // ---- The parser ----

  /** None stands for a syntax error. */
  ghost predicate Agrees(p: Parsed<Span, Cmd<Span>>, r: Option<Cmd<Span>>, rest: Toks<Span>, b: string) {
    match p
    case Fail => r.None?
    case Ok(c, after) => r == Some(c) && rest == after && Whole(b, c)
  }

  class Parser {
    const b: string
    var s: nat

    constructor (b: string)
      ensures this.b == b && s == 0
    {
      this.b := b;
      s := 0;
    }

    ghost predicate Valid()
      reads this
    {
      s <= |b| && NoNul(b)
    }

    ghost function Rest(): Toks<Span>
      requires Valid()
      reads this
    {
      Lex(b, s)
    }

    method Skip()
      requires Valid()
      modifies this`s
      ensures Valid() && s == SkipWs(b, old(s)) && Rest() == old(Rest())
    {
      ghost var s0 := s;
      LexSkip(b, s);
      while s < |b| && Ws(b[s])
        invariant s <= |b| && SkipWs(b, s) == SkipWs(b, s0)
      {
        s := s + 1;
      }
    }

    method ScanWord()
      requires Valid()
      modifies this`s
      ensures Valid() && s == WordEnd(b, old(s))
    {
      while s < |b| && WordChar(b[s])
        invariant s <= |b| && WordEnd(b, s) == WordEnd(b, old(s))
      {
        s := s + 1;
      }
    }

    /** gettoken(). */
    method Gettoken() returns (tok: char, q: nat, eq: nat)
      requires Valid()
      modifies this`s
      ensures Valid()
      ensures old(Rest()) == End <==> tok == '\0'
      ensures Rest() == if old(Rest()) == End then End else old(Rest()).tail
      ensures old(Rest()).More? ==> tok == Code(old(Rest()).head)
      ensures old(Rest()).More? ==>
                (tok == 'a' <==> old(Rest()).head.Word?) && (tok == '<' <==> old(Rest()).head == Sym('<'))
      ensures old(Rest()).More? && old(Rest()).head.Word? ==>
                old(Rest()).head.w == Span(q, eq) && WordSpan(b, Span(q, eq))
    {
      Skip();
      q := s;
      if At(b, s) == '\0' {
        tok := '\0';
      } else if b[s] == '>' {
        s := s + 1;
        if At(b, s) == '>' {
          tok := '+';
          s := s + 1;
        } else {
          tok := '>';
        }
      } else if b[s] in SYMBOLS {
        tok := b[s];
        s := s + 1;
      } else {
        tok := 'a';
        ScanWord();
      }
      eq := s;
      Skip();
    }

    /** peek(). */
    method Peek(toks: string) returns (r: bool)
      requires Valid() && forall c | c in toks :: c in SYMBOLS
      modifies this`s
      ensures Valid() && Rest() == old(Rest()) && (r <==> StartsWith(Rest(), toks))
      ensures Rest() == End <==> s == |b|
    {
      Skip();
      r := At(b, s) != '\0' && At(b, s) in toks;
    }

    /** parsecmd() up to nulterminate(). */
    method Parse() returns (r: Option<Cmd<Span>>)
      requires Valid()
      modifies this`s
      ensures match PCmd(old(Rest())) case Fail => r.None? case Ok(c, _) => r == Some(c) && Whole(b, c)
    {
      r := Parseline();
      if r.Some? {
        var p := Peek("");
        if s != |b| {
          return None;
        }
      }
    }

    method Parseline() returns (r: Option<Cmd<Span>>)
      requires Valid()
      modifies this`s
      ensures Valid() && Agrees(PLine(old(Rest())), r, Rest(), b)
      decreases Len(Rest()), 3
    {
      hide Lex;
      r := Parsepipe();
      if r.None? {
        return;
      }
      var c := Backs(r.value);
      r := Some(c);
      var semi := Peek(";");
      if semi {
        var _, _, _ := Gettoken();
        var d := Parseline();
        r := if d.None? then None else Some(List(c, d.value));
      }
    }

    /** parseline()'s loop over ampersands. */
    method Backs(c: Cmd<Span>) returns (d: Cmd<Span>)
      requires Valid() && Whole(b, c)
      modifies this`s
      ensures Valid() && (d, Rest()) == PBacks(c, old(Rest())) && Whole(b, d)
    {
      hide Lex;
      ghost var ts := Rest();
      d := c;
      var more := Peek("&");
      while more
        invariant Valid() && Whole(b, d) && PBacks(d, Rest()) == PBacks(c, ts) && (more <==> StartsWith(Rest(), "&"))
        decreases Len(Rest())
      {
        var _, _, _ := Gettoken();
        d := Back(d);
        more := Peek("&");
      }
    }

    method Parsepipe() returns (r: Option<Cmd<Span>>)
      requires Valid()
      modifies this`s
      ensures Valid() && Agrees(PPipe(old(Rest())), r, Rest(), b)
      decreases Len(Rest()), 2
    {
      r := Parseexec();
      if r.None? {
        return;
      }
      var bar := Peek("|");
      if bar {
        var _, _, _ := Gettoken();
        var d := Parsepipe();
        r := if d.None? then None else Some(Pipe(r.value, d.value));
      }
    }

    /** parseredirs(): the redirections, in order; the caller wraps them around its command. */
    method Parseredirs() returns (r: Option<seq<Redirection<Span>>>)
      requires Valid()
      modifies this`s
      ensures Valid()
      ensures match PRedirs(old(Rest()))
              case Fail => r.None?
              case Ok(rs, after) => r == Some(rs) && Rest() == after && WholeAll(b, rs)
      ensures Len(Rest()) <= Len(old(Rest()))
    {
      hide Lex, PRedirs;
      ghost var ts := Rest();
      var rs := [];
      var more := Peek("<>");
      PrefixNone(PRedirs(ts));
      while more
        invariant Valid() && WholeAll(b, rs) && (more <==> StartsWith(Rest(), "<>")) && Len(Rest()) <= Len(ts)
        invariant PRedirs(ts) == Prefixed(rs, PRedirs(Rest()))
        decreases Len(Rest())
      {
        ghost var before := Rest();
        var tok, _, _ := Gettoken();
        var t, q, eq := Gettoken();
        if t != 'a' {
          NoFile(before);
          return None;
        }
        PrefixStep(ts, before, rs, Span(q, eq));
        rs := rs + [Redirection(Span(q, eq), tok != '<')];
        more := Peek("<>");
      }
      NoRedirs(Rest());
      assert rs + [] == rs;
      return Some(rs);
    }

    method Parseblock() returns (r: Option<Cmd<Span>>)
      requires Valid() && StartsWith(Rest(), "(")
      modifies this`s
      ensures Valid() && Agrees(PBlock(old(Rest())), r, Rest(), b)
      decreases Len(Rest()), 0
    {
      var _, _, _ := Gettoken();
      r := Parseline();
      if r.None? {
        return;
      }
      var close := Peek(")");
      if !close {
        return None;
      }
      var _, _, _ := Gettoken();
      var rs := Parseredirs();
      if rs.None? {
        return None;
      }
      WholeWrap(b, r.value, rs.value);
      r := Some(Wrap(r.value, rs.value));
    }

    method Parseexec() returns (r: Option<Cmd<Span>>)
      requires Valid()
      modifies this`s
      ensures Valid() && Agrees(PExec(old(Rest())), r, Rest(), b)
      decreases Len(Rest()), 1
    {
      hide Lex;
      var block := Peek("(");
      if block {
        r := Parseblock();
        return;
      }
      ghost var ts := Rest();
      var rs := Parseredirs();
      if rs.None? {
        return None;
      }
      var args: seq<Span>, redirs := [], rs.value;
      var stop := Peek("|)&;");
      while !stop
        invariant Valid() && |args| < MAXARGS && Whole(b, Exec(args)) && WholeAll(b, redirs)
        invariant PExec(ts) == PArgs(Rest(), args, redirs) && (stop <==> StartsWith(Rest(), "|)&;"))
        decreases Len(Rest()), !stop
      {
        ghost var before := Rest();
        var tok, q, eq := Gettoken();
        if tok == '\0' {
          break;
        }
        if tok != 'a' {
          return None;
        }
        args := args + [Span(q, eq)];
        if |args| >= MAXARGS {
          return None;
        }
        rs := Parseredirs();
        if rs.None? {
          return None;
        }
        redirs := redirs + rs.value;
        stop := Peek("|)&;");
      }
      WholeWrap(b, Exec(args), redirs);
      return Some(Wrap(Exec(args), redirs));
    }
  }

  function Prefixed(rs: seq<Redirection<Span>>, p: Parsed<Span, seq<Redirection<Span>>>)
    : Parsed<Span, seq<Redirection<Span>>>
  {
    match p
    case Fail => Fail
    case Ok(more, rest) => Ok(rs + more, rest)
  }

  lemma PrefixNone(p: Parsed<Span, seq<Redirection<Span>>>)
    ensures Prefixed([], p) == p
  {
    if p.Ok? {
      assert [] + p.value == p.value;
    }
  }

  lemma NoFile(ts: Toks<Span>)
    requires StartsWith(ts, "<>") && !(ts.tail.More? && ts.tail.head.Word?)
    ensures PRedirs(ts) == Fail
  {
  }

  lemma PrefixStep(ts: Toks<Span>, before: Toks<Span>, rs: seq<Redirection<Span>>, w: Span)
    requires PRedirs(ts) == Prefixed(rs, PRedirs(before)) && StartsWith(before, "<>")
    requires before.tail.More? && before.tail.head == Word(w)
    ensures PRedirs(ts) == Prefixed(rs + [Redirection(w, before.head != Sym('<'))], PRedirs(before.tail.tail))
  {
    var r := Redirection(w, before.head != Sym('<'));
    match PRedirs(before.tail.tail)
    case Fail =>
    case Ok(more, rest) => assert rs + ([r] + more) == rs + [r] + more;
  }

  // ---- NUL termination ----

  /** The positions nulterminate() writes. */
  function Ends(c: Cmd<Span>): set<nat> {
    match c
    case Exec(args) => EndsTo(args, |args|)
    case Redir(d, file, _) => Ends(d) + {file.eq}
    case Pipe(l, r) => Ends(l) + Ends(r)
    case List(l, r) => Ends(l) + Ends(r)
    case Back(d) => Ends(d)
  }

  function EndsTo(args: seq<Span>, n: nat): set<nat>
    requires n <= |args|
  {
    if n == 0 then {} else EndsTo(args, n - 1) + {args[n - 1].eq}
  }

  /** An end is at the end of the line, or at a byte that is in no word. */
  predicate Outside(b: string, e: nat) {
    e == |b| || (e < |b| && !WordChar(b[e]))
  }

  lemma {:induction false} EndsToOutside(b: string, args: seq<Span>, n: nat)
    requires n <= |args| && forall i | 0 <= i < |args| :: WordSpan(b, args[i])
    ensures forall e | e in EndsTo(args, n) :: Outside(b, e)
    ensures forall i | 0 <= i < n :: args[i].eq in EndsTo(args, n)
  {
    if n > 0 {
      EndsToOutside(b, args, n - 1);
    }
  }

  lemma {:induction false} EndsOutside(b: string, c: Cmd<Span>)
    requires Whole(b, c)
    ensures forall e | e in Ends(c) :: Outside(b, e)
  {
    match c
    case Exec(args) => EndsToOutside(b, args, |args|);
    case Redir(d, file, _) => EndsOutside(b, d);
    case Pipe(l, r) => EndsOutside(b, l); EndsOutside(b, r);
    case List(l, r) => EndsOutside(b, l); EndsOutside(b, r);
    case Back(d) => EndsOutside(b, d);
  }

  /** nulterminate(): a NUL at the end of every word of the tree, and nothing else. */
  method Nulterminate(line: array<char>, c: Cmd<Span>)
    requires forall e | e in Ends(c) :: e < line.Length
    modifies line
    ensures forall j | 0 <= j < line.Length :: line[j] == if j in Ends(c) then '\0' else old(line[j])
  {
    match c {
      case Exec(args) =>
        EndsIn(args, |args|);
        for i := 0 to |args|
          invariant forall j | 0 <= j < line.Length :: line[j] == if j in EndsTo(args, i) then '\0' else old(line[j])
        {
          assert args[i].eq in Ends(c);
          line[args[i].eq] := '\0';
        }
      case Redir(d, file, _) =>
        assert forall e | e in Ends(d) + {file.eq} :: e in Ends(c);
        Nulterminate(line, d);
        line[file.eq] := '\0';
      case Pipe(l, r) =>
        assert forall e | e in Ends(l) + Ends(r) :: e in Ends(c);
        Nulterminate(line, l);
        Nulterminate(line, r);
      case List(l, r) =>
        assert forall e | e in Ends(l) + Ends(r) :: e in Ends(c);
        Nulterminate(line, l);
        Nulterminate(line, r);
      case Back(d) =>
        assert forall e | e in Ends(d) :: e in Ends(c);
        Nulterminate(line, d);
    }
  }

  lemma {:induction false} EndsIn(args: seq<Span>, n: nat)
    requires n <= |args|
    ensures forall i | 0 <= i < n :: args[i].eq in EndsTo(args, n)
  {
    if n > 0 {
      EndsIn(args, n - 1);
    }
  }

  /** The C string at w.q in `line` is the word that b has there. */
  predicate CString(line: string, b: string, w: Span) {
    && w.q <= w.eq < |line| && w.eq <= |b| && line[w.q..w.eq] == b[w.q..w.eq] && line[w.eq] == '\0'
    && forall i | w.q <= i < w.eq :: line[i] != '\0'
  }

  predicate CStrings(line: string, b: string, c: Cmd<Span>) {
    match c
    case Exec(args) => forall i | 0 <= i < |args| :: CString(line, b, args[i])
    case Redir(d, file, _) => CStrings(line, b, d) && CString(line, b, file)
    case Pipe(l, r) => CStrings(line, b, l) && CStrings(line, b, r)
    case List(l, r) => CStrings(line, b, l) && CStrings(line, b, r)
    case Back(d) => CStrings(line, b, d)
  }

  /** `line` is b with NULs at the positions in `ends`, none of them in a word. */
  ghost predicate Punctured(line: string, b: string, ends: set<nat>) {
    && |b| < |line| && NoNul(b) && (forall e | e in ends :: Outside(b, e))
    && (forall j | 0 <= j < |b| :: line[j] == if j in ends then '\0' else b[j])
    && line[|b|] == '\0'
  }

  lemma WordStays(line: string, b: string, ends: set<nat>, w: Span)
    requires Punctured(line, b, ends) && WordSpan(b, w) && w.eq in ends
    ensures CString(line, b, w)
  {
    forall i | w.q <= i < w.eq ensures line[i] == b[i] {
      assert WordChar(b[i]);
    }
  }

  lemma {:induction false} WordsStay(line: string, b: string, ends: set<nat>, c: Cmd<Span>)
    requires Punctured(line, b, ends) && Whole(b, c) && Ends(c) <= ends
    ensures CStrings(line, b, c)
  {
    match c
    case Exec(args) =>
      EndsIn(args, |args|);
      forall i | 0 <= i < |args| ensures CString(line, b, args[i]) { WordStays(line, b, ends, args[i]); }
    case Redir(d, file, _) => WordsStay(line, b, ends, d); WordStays(line, b, ends, file);
    case Pipe(l, r) => WordsStay(line, b, ends, l); WordsStay(line, b, ends, r);
    case List(l, r) => WordsStay(line, b, ends, l); WordsStay(line, b, ends, r);
    case Back(d) => WordsStay(line, b, ends, d);
  }

  // ---- parsecmd() ----

  /** strlen(). */
  method Strlen(line: array<char>) returns (n: nat)
    requires exists k | 0 <= k < line.Length :: line[k] == '\0'
    ensures n < line.Length && line[n] == '\0' && forall i | 0 <= i < n :: line[i] != '\0'
  {
    n := 0;
    while line[n] != '\0'
      invariant n < line.Length && forall i | 0 <= i < n :: line[i] != '\0'
      decreases line.Length - n
    {
      n := n + 1;
    }
  }

  /** parsecmd(): the tree that the line is a way to write, its words terminated in place; or a syntax error, and the
      line as it was, if it is no way to write any tree. */
  method Parsecmd(line: array<char>) returns (r: Option<Cmd<Span>>, ghost b: string)
    requires exists k | 0 <= k < line.Length :: line[k] == '\0'
    modifies line
    ensures |b| < line.Length && NoNul(b) && b == old(line[..])[..|b|] && old(line[..])[|b|] == '\0'
    ensures match PCmd(Lex(b, 0)) case Fail => r.None? && line[..] == old(line[..]) case Ok(c, _) => r == Some(c)
    ensures r.Some? ==> CStrings(line[..], b, r.value)
    ensures forall c | Written(b, c) :: r.Some? && Spells(b, r.value, c)
    ensures r.Some? ==> exists c :: Written(b, c) && Spells(b, r.value, c)
  {
    var n := Strlen(line);
    b := line[..n];
    var p := new Parser(line[..n]);
    r := p.Parse();
    ParseExact(b);
    if r.Some? {
      EndsOutside(b, r.value);
      Nulterminate(line, r.value);
      WordsStay(line[..], b, Ends(r.value), r.value);
    }
  }
}
