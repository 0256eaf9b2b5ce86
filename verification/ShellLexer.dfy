/** The shell's scanner (gettoken() of user/src/sh.rs) as a function, and lines as layouts of tokens: which lines have
    which tokens, and with the grammar, which lines write which command tree. */
module ShellLexer {
  import opened Common
  import opened ShellGrammar
  import opened ShellRoundTrip

  const WHITESPACE := " \t\r\n\U{0B}"
  const SYMBOLS := "<|>&;()"

  predicate Ws(c: char) {
    c in WHITESPACE
  }

  predicate WordChar(c: char) {
    c !in WHITESPACE && c !in SYMBOLS
  }

  // ---- The scanner's language ----

  function SkipWs(b: string, s: nat): (r: nat)
    requires s <= |b|
    ensures s <= r <= |b| && (r < |b| ==> !Ws(b[r])) && forall i | s <= i < r :: Ws(b[i])
    decreases |b| - s
  {
    if s < |b| && Ws(b[s]) then SkipWs(b, s + 1) else s
  }

  function WordEnd(b: string, s: nat): (r: nat)
    requires s <= |b|
    ensures s <= r <= |b| && (r < |b| ==> !WordChar(b[r])) && forall i | s <= i < r :: WordChar(b[i])
    decreases |b| - s
  {
    if s < |b| && WordChar(b[s]) then WordEnd(b, s + 1) else s
  }

  /** The byte at s; the line ends with a NUL. */
  function At(b: string, s: nat): char
    requires s <= |b|
  {
    if s < |b| then b[s] else '\0'
  }

  function OneToken(b: string, s: nat): (r: (Token<Span>, nat))
    requires s < |b| && !Ws(b[s])
    ensures s < r.1 <= |b|
  {
    if b[s] == '>' then if At(b, s + 1) == '>' then (Append, s + 2) else (Sym('>'), s + 1)
    else if b[s] in SYMBOLS then (Sym(b[s]), s + 1)
    else (Word(Span(s, WordEnd(b, s))), WordEnd(b, s))
  }

  /** The tokens of the line from s on. */
  function Lex(b: string, s: nat): Toks<Span>
    requires s <= |b|
    decreases |b| - s
  {
    var t := SkipWs(b, s);
    if t == |b| then End else More(OneToken(b, t).0, Lex(b, OneToken(b, t).1))
  }

  lemma LexSkip(b: string, s: nat)
    requires s <= |b|
    ensures Lex(b, SkipWs(b, s)) == Lex(b, s) && SkipWs(b, SkipWs(b, s)) == SkipWs(b, s)
  {
  }

  predicate NoNul(b: string) {
    forall i | 0 <= i < |b| :: b[i] != '\0'
  }

  // ---- Layouts ----

  /** What may stand between tokens. */
  predicate Sep(c: char) {
    c == ' ' || c == '\t' || c == '\r' || c == '\n' || c == '\U{0B}'
  }

  predicate Symbol(c: char) {
    c == '<' || c == '|' || c == '>' || c == '&' || c == ';' || c == '(' || c == ')'
  }

  predicate LegalWord(w: string) {
    w != "" && forall i | 0 <= i < |w| :: !Sep(w[i]) && !Symbol(w[i]) && w[i] != '\0'
  }

  predicate LegalToks(us: Toks<string>) {
    us.End? || (LegalTok(us.head) && LegalToks(us.tail))
  }

  predicate LegalTok(t: Token<string>) {
    match t
    case Sym(c) => Symbol(c)
    case Append => true
    case Word(w) => LegalWord(w)
  }

  function Text(t: Token<string>): string {
    match t
    case Sym(c) => [c]
    case Append => ">>"
    case Word(w) => w
  }

  /** The line with these tokens and gaps: before the first token, between two of them, and after the last. */
  function Laid(us: Toks<string>, gaps: seq<string>): string
    requires |gaps| == Len(us) + 1
  {
    gaps[0] + match us
              case End => ""
              case More(t, tail) => Text(t) + Laid(tail, gaps[1..])
  }

  /** Two tokens that would run into one: two words, or a '>' before a '>'. */
  predicate Clings(t: Token<string>, tail: Toks<string>) {
    && tail.More?
    && ((t.Word? && tail.head.Word?) || (t == Sym('>') && (tail.head == Sym('>') || tail.head == Append)))
  }

  /** Gaps are runs of separators, empty or not, but not empty where tokens would run into one. */
  predicate GoodGaps(us: Toks<string>, gaps: seq<string>) {
    && |gaps| == Len(us) + 1 && (forall i | 0 <= i < |gaps[0]| :: Sep(gaps[0][i]))
    && (us.More? ==> (Clings(us.head, us.tail) ==> gaps[1] != "") && GoodGaps(us.tail, gaps[1..]))
  }

  lemma Chars(c: char)
    ensures Ws(c) <==> Sep(c)
    ensures c in SYMBOLS <==> Symbol(c)
    ensures WordChar(c) <==> !Sep(c) && !Symbol(c)
  {
    var w, y := WHITESPACE, SYMBOLS;
    assert w[0] == ' ' && w[1] == '\t' && w[2] == '\r' && w[3] == '\n' && w[4] == '\U{0B}';
    assert y[0] == '<' && y[1] == '|' && y[2] == '>' && y[3] == '&' && y[4] == ';' && y[5] == '(' && y[6] == ')';
  }

  // ---- A layout is scanned as its tokens ----

  lemma {:induction false} SkipTo(b: string, s: nat, p: nat)
    requires s <= p <= |b| && (forall i | s <= i < p :: Sep(b[i])) && (p < |b| ==> !Sep(b[p]))
    ensures SkipWs(b, s) == p
    decreases p - s
  {
    if s < |b| {
      Chars(b[s]);
    }
    if s < p {
      SkipTo(b, s + 1, p);
    }
  }

  lemma {:induction false} WordEndAt(b: string, s: nat, e: nat)
    requires s <= e <= |b| && (forall i | s <= i < e :: WordChar(b[i])) && (e < |b| ==> !WordChar(b[e]))
    ensures WordEnd(b, s) == e
    decreases e - s
  {
    if s < e {
      WordEndAt(b, s + 1, e);
    }
  }

  lemma TextStarts(t: Token<string>)
    requires LegalTok(t)
    ensures Text(t) != "" && !Sep(Text(t)[0]) && Text(t)[0] != '\0'
    ensures Symbol(Text(t)[0]) <==> !t.Word?
    ensures Text(t)[0] == '>' <==> t == Sym('>') || t == Append
  {
  }

  /** The parts of a line from s on that is a layout. */
  lemma LaidParts(b: string, s: nat, t: Token<string>, tail: Toks<string>, gaps: seq<string>)
    requires s <= |b| && |gaps| == Len(tail) + 2 && b[s..] == Laid(More(t, tail), gaps)
    ensures var p := s + |gaps[0]|; var e := p + |Text(t)|;
            e <= |b| && b[s..p] == gaps[0] && b[p..e] == Text(t) && b[e..] == Laid(tail, gaps[1..])
  {
    var p := s + |gaps[0]|;
    var e, r := p + |Text(t)|, b[s..];
    assert r == gaps[0] + (Text(t) + Laid(tail, gaps[1..]));
    assert |r| == |b| - s;
    assert b[s..p] == r[..|gaps[0]|] && b[p..e] == r[|gaps[0]|..|gaps[0]| + |Text(t)|];
    assert b[e..] == r[|gaps[0]| + |Text(t)|..];
  }

  /** After token t: the end, a separator, or the next token, which does not cling. */
  lemma NextChar(b: string, e: nat, t: Token<string>, tail: Toks<string>, gaps: seq<string>)
    requires e <= |b| && LegalToks(tail) && GoodGaps(More(t, tail), gaps) && b[e..] == Laid(tail, gaps[1..])
    ensures e < |b| ==> Sep(b[e]) || (tail.More? && !Clings(t, tail) && b[e] == Text(tail.head)[0])
  {
    if e < |b| {
      var g := gaps[1];
      assert gaps[1..][0] == g;
      assert b[e] == b[e..][0];
      if g != "" {
        assert GoodGaps(tail, gaps[1..]);
        assert b[e] == g[0];
      } else {
        assert b[e..] == match tail case End => "" case More(u, _) => Text(u) + Laid(tail.tail, gaps[1..][1..]);
        TextStarts(tail.head);
      }
    }
  }

  lemma ScanOne(b: string, p: nat, t: Token<string>, tail: Toks<string>, gaps: seq<string>)
    requires LegalTok(t) && LegalToks(tail) && GoodGaps(More(t, tail), gaps)
    requires var e := p + |Text(t)|; e <= |b| && b[p..e] == Text(t) && b[e..] == Laid(tail, gaps[1..])
    ensures p < |b| && !Ws(b[p]) && SameToken(b, OneToken(b, p).0, t) && OneToken(b, p).1 == p + |Text(t)|
  {
    hide Laid, GoodGaps, LegalToks, LegalTok, Clings;
    var e := p + |Text(t)|;
    TextStarts(t);
    assert b[p] == b[p..e][0];
    Chars(b[p]);
    NextCharIs(b, e, t, tail, gaps);
    if t.Word? {
      LegalIs(t.w);
      forall i | p <= i < e ensures WordChar(b[i]) {
        assert b[i] == b[p..e][i - p];
        Chars(b[i]);
      }
      WordEndAt(b, p, e);
    } else if t == Append {
      assert b[p + 1] == b[p..e][1];
    }
  }

  lemma LegalIs(w: string)
    requires LegalTok(Word(w))
    ensures LegalWord(w)
  {
  }

  lemma NextCharIs(b: string, e: nat, t: Token<string>, tail: Toks<string>, gaps: seq<string>)
    requires e <= |b| && LegalTok(t) && LegalToks(tail) && GoodGaps(More(t, tail), gaps)
    requires b[e..] == Laid(tail, gaps[1..])
    ensures e < |b| && t.Word? ==> !WordChar(b[e])
    ensures e < |b| && t == Sym('>') ==> b[e] != '>'
  {
    hide Laid, GoodGaps;
    NextChar(b, e, t, tail, gaps);
    if e < |b| {
      Chars(b[e]);
      if tail.More? {
        TextStarts(tail.head);
      }
    }
  }

  lemma {:induction false} LexLaid(b: string, s: nat, us: Toks<string>, gaps: seq<string>)
    requires LegalToks(us) && GoodGaps(us, gaps) && s <= |b| && b[s..] == Laid(us, gaps)
    ensures Reads(b, Lex(b, s), us)
    decreases us
  {
    hide Laid, Text, OneToken, LegalTok, SameToken;
    var p := s + |gaps[0]|;
    match us
    case End =>
      LaidEnd(b, s, gaps);
      forall i | s <= i < p ensures Sep(b[i]) { assert b[i] == b[s..][i - s]; }
      SkipTo(b, s, p);
    case More(t, tail) =>
      LaidParts(b, s, t, tail, gaps);
      ScanOne(b, p, t, tail, gaps);
      Chars(b[p]);
      forall i | s <= i < p ensures Sep(b[i]) { assert b[i] == b[s..p][i - s]; }
      SkipTo(b, s, p);
      LexLaid(b, p + |Text(t)|, tail, gaps[1..]);
  }

  lemma LaidEnd(b: string, s: nat, gaps: seq<string>)
    requires |gaps| == 1 && s <= |b| && b[s..] == Laid(End, gaps)
    ensures b[s..] == gaps[0] && s + |gaps[0]| == |b|
  {
    assert gaps[0] + "" == gaps[0];
    assert |b[s..]| == |b| - s;
  }

  // ---- Every line is a layout of its tokens ----

  /** The token of the line at p, with its text. */
  lemma TokenText(b: string, p: nat) returns (t: Token<string>)
    requires p < |b| && NoNul(b) && !Ws(b[p])
    ensures var e := OneToken(b, p).1; LegalTok(t) && SameToken(b, OneToken(b, p).0, t) && b[p..e] == Text(t)
    ensures var e := OneToken(b, p).1;
            && (t.Word? && e < |b| ==> !WordChar(b[e])) && (t == Sym('>') && e < |b| ==> b[e] != '>')
  {
    var e := OneToken(b, p).1;
    Chars(b[p]);
    if b[p] == '>' {
      t := if At(b, p + 1) == '>' then Append else Sym('>');
    } else if b[p] in SYMBOLS {
      t := Sym(b[p]);
    } else {
      t := Word(b[p..e]);
      forall i | 0 <= i < e - p ensures !Sep(b[p..e][i]) && !Symbol(b[p..e][i]) && b[p..e][i] != '\0' {
        assert b[p..e][i] == b[p + i];
        Chars(b[p + i]);
      }
    }
  }

  lemma {:induction false} LexIsLaid(b: string, s: nat) returns (us: Toks<string>, gaps: seq<string>)
    requires s <= |b| && NoNul(b)
    ensures |gaps| == Len(us) + 1 && LegalToks(us) && GoodGaps(us, gaps) && b[s..] == Laid(us, gaps)
    ensures Reads(b, Lex(b, s), us)
    decreases |b| - s
  {
    hide OneToken, SameToken, LegalTok, GoodGaps, Laid, Clings, Sep, Lex, SkipWs, Text;
    var p := SkipWs(b, s);
    var g := b[s..p];
    LexNext(b, s);
    GapSeps(b, s);
    if p == |b| {
      us, gaps := End, [g];
      assert b[s..] == g;
      OneGap(g);
    } else {
      var t := TokenText(b, p);
      var e := OneToken(b, p).1;
      var tail, rest := LexIsLaid(b, e);
      us, gaps := More(t, tail), [g] + rest;
      Cut(b, s, p, e);
      if rest[0] == "" {
        Unglued(b, e, t, tail, rest);
      }
      OneMoreGap(g, t, tail, rest);
    }
  }

  lemma LexNext(b: string, s: nat)
    requires s <= |b|
    ensures var p := SkipWs(b, s);
            Lex(b, s) == if p == |b| then End else More(OneToken(b, p).0, Lex(b, OneToken(b, p).1))
  {
  }

  lemma GapSeps(b: string, s: nat)
    requires s <= |b|
    ensures var p := SkipWs(b, s); forall i | 0 <= i < p - s :: Sep(b[s..p][i])
  {
    var p := SkipWs(b, s);
    forall i | 0 <= i < p - s ensures Sep(b[s..p][i]) { Chars(b[s + i]); }
  }

  lemma Cut(b: string, s: nat, p: nat, e: nat)
    requires s <= p <= e <= |b|
    ensures b[s..] == b[s..p] + (b[p..e] + b[e..])
  {
  }

  lemma OneGap(g: string)
    requires forall i | 0 <= i < |g| :: Sep(g[i])
    ensures GoodGaps(End, [g]) && Laid(End, [g]) == g
  {
    assert g + "" == g;
  }

  lemma OneMoreGap(g: string, t: Token<string>, tail: Toks<string>, rest: seq<string>)
    requires (forall i | 0 <= i < |g| :: Sep(g[i])) && GoodGaps(tail, rest) && (Clings(t, tail) ==> rest[0] != "")
    ensures GoodGaps(More(t, tail), [g] + rest) && Laid(More(t, tail), [g] + rest) == g + (Text(t) + Laid(tail, rest))
  {
    hide Text, Clings;
    assert ([g] + rest)[1..] == rest;
  }

  lemma Unglued(b: string, e: nat, t: Token<string>, tail: Toks<string>, rest: seq<string>)
    requires e <= |b| && LegalToks(tail) && GoodGaps(tail, rest) && b[e..] == Laid(tail, rest) && rest[0] == ""
    requires (t.Word? && e < |b| ==> !WordChar(b[e])) && (t == Sym('>') && e < |b| ==> b[e] != '>')
    ensures !Clings(t, tail)
  {
    if tail.More? {
      TextStarts(tail.head);
      assert b[e..] == Text(tail.head) + Laid(tail.tail, rest[1..]);
      assert b[e..][0] == b[e] == Text(tail.head)[0];
      Chars(b[e]);
    }
  }

  // ---- Which lines write which trees ----

  /** The line is a layout of a way to write the tree. */
  ghost predicate WrittenAs(b: string, c: Cmd<string>, us: Toks<string>, gaps: seq<string>) {
    LegalToks(us) && GoodGaps(us, gaps) && b == Laid(us, gaps) && DLine(us, c, End)
  }

  ghost predicate Written(b: string, c: Cmd<string>) {
    exists us, gaps :: WrittenAs(b, c, us, gaps)
  }

  /** For every line: if it writes a tree, in whatever layout and with redirections wherever they may stand, it parses
      to that tree; and if it parses to a tree, it writes that tree. */
  lemma ParseExact(b: string)
    requires NoNul(b)
    ensures forall c | Written(b, c) :: PCmd(Lex(b, 0)).Ok? && Spells(b, PCmd(Lex(b, 0)).value, c)
    ensures PCmd(Lex(b, 0)).Ok? ==> exists c :: Written(b, c) && Spells(b, PCmd(Lex(b, 0)).value, c)
  {
    hide PCmd, Lex, Laid, GoodGaps, LegalToks, DLine, Spells;
    forall c | Written(b, c) ensures PCmd(Lex(b, 0)).Ok? && Spells(b, PCmd(Lex(b, 0)).value, c) {
      var us, gaps :| WrittenAs(b, c, us, gaps);
      assert b[0..] == b;
      LexLaid(b, 0, us, gaps);
      RoundTrip(b, c, Lex(b, 0), us);
    }
    if PCmd(Lex(b, 0)).Ok? {
      var us, gaps := LexIsLaid(b, 0);
      assert b[0..] == b;
      var c := Sound(b, Lex(b, 0), us);
      assert WrittenAs(b, c, us, gaps);
    }
  }

  /** So no line writes two trees. */
  lemma Unambiguous(b: string, c: Cmd<string>, d: Cmd<string>)
    requires NoNul(b) && Written(b, c) && Written(b, d)
    ensures c == d
  {
    hide PCmd, Lex, Written;
    ParseExact(b);
    SpellsOne(b, PCmd(Lex(b, 0)).value, c, d);
  }

  lemma {:induction false} SpellsOne(b: string, x: Cmd<Span>, c: Cmd<string>, d: Cmd<string>)
    requires Spells(b, x, c) && Spells(b, x, d)
    ensures c == d
    decreases x
  {
    match x
    case Exec(ss) => assert forall i | 0 <= i < |ss| :: c.args[i] == b[ss[i].q..ss[i].eq] == d.args[i];
    case Redir(x1, s, m) => SpellsOne(b, x1, c.cmd, d.cmd);
    case Pipe(l, r) => SpellsOne(b, l, c.left, d.left); SpellsOne(b, r, c.right, d.right);
    case List(l, r) => SpellsOne(b, l, c.left, d.left); SpellsOne(b, r, c.right, d.right);
    case Back(x1) => SpellsOne(b, x1, c.cmd, d.cmd);
  }

  // ---- Every tree is written by some line ----

  predicate Legal(c: Cmd<string>) {
    match c
    case Exec(args) => forall i | 0 <= i < |args| :: LegalWord(args[i])
    case Redir(d, file, _) => Legal(d) && LegalWord(file)
    case Pipe(l, r) => Legal(l) && Legal(r)
    case List(l, r) => Legal(l) && Legal(r)
    case Back(d) => Legal(d)
  }

  /** No gap before the first token, and one space after each. */
  function Spaces(us: Toks<string>): (gaps: seq<string>)
    ensures |gaps| == Len(us)
  {
    match us
    case End => []
    case More(_, tail) => [" "] + Spaces(tail)
  }

  lemma {:induction false} SpacesGood(us: Toks<string>, first: string)
    requires first == "" || first == " "
    ensures GoodGaps(us, [first] + Spaces(us))
    decreases us
  {
    if us.More? {
      SpacesGood(us.tail, " ");
      assert ([first] + Spaces(us))[1..] == [" "] + Spaces(us.tail);
    } else {
      assert [first] + Spaces(us) == [first];
    }
  }

  lemma {:induction false} LegalWords(args: seq<string>, k: Toks<string>)
    requires (forall i | 0 <= i < |args| :: LegalWord(args[i])) && LegalToks(k)
    ensures LegalToks(Words(args, k))
    decreases |args|
  {
    if args != [] {
      LegalWords(args[1..], k);
    }
  }

  lemma {:induction false} LegalExec(c: Cmd<string>, k: Toks<string>)
    requires Legal(c) && LegalToks(k)
    ensures LegalToks(ShowExec(c, k))
    decreases c, Rank(0, c)
  {
    match c
    case Exec(args) => LegalWords(args, k);
    case Redir(d, file, write) => LegalExec(d, More(Sym(if write then '>' else '<'), More(Word(file), k)));
    case _ => LegalLine(c, More(Sym(')'), k));
  }

  lemma {:induction false} LegalPipe(c: Cmd<string>, k: Toks<string>)
    requires Legal(c) && LegalToks(k)
    ensures LegalToks(ShowPipe(c, k))
    decreases c, Rank(1, c)
  {
    match c
    case Pipe(l, r) => LegalPipe(r, k); LegalExec(l, More(Sym('|'), ShowPipe(r, k)));
    case _ => LegalExec(c, k);
  }

  lemma {:induction false} LegalBack(c: Cmd<string>, k: Toks<string>)
    requires Legal(c) && LegalToks(k)
    ensures LegalToks(ShowBack(c, k))
    decreases c, Rank(2, c)
  {
    match c
    case Back(d) => LegalBack(d, More(Sym('&'), k));
    case _ => LegalPipe(c, k);
  }

  lemma {:induction false} LegalLine(c: Cmd<string>, k: Toks<string>)
    requires Legal(c) && LegalToks(k)
    ensures LegalToks(ShowLine(c, k))
    decreases c, Rank(3, c)
  {
    match c
    case List(l, r) => LegalLine(r, k); LegalBack(l, More(Sym(';'), ShowLine(r, k)));
    case _ => LegalBack(c, k);
  }

  /** Every command tree with legal words and at most nine arguments to a command is written by a line, and so the line
      parses to that tree. */
  lemma PrintParse(c: Cmd<string>) returns (b: string)
    requires Legal(c) && Short(c)
    ensures NoNul(b) && Written(b, c) && PCmd(Lex(b, 0)).Ok? && Spells(b, PCmd(Lex(b, 0)).value, c)
  {
    hide PCmd, Lex, GoodGaps, DLine, Spells;
    var us := ShowLine(c, End);
    LegalLine(c, End);
    ShowsLine(c, End);
    SpacesGood(us, "");
    var gaps := [""] + Spaces(us);
    b := Laid(us, gaps);
    LaidNoNul(us, gaps);
    assert WrittenAs(b, c, us, gaps);
    ParseExact(b);
  }

  lemma {:induction false} LaidNoNul(us: Toks<string>, gaps: seq<string>)
    requires LegalToks(us) && GoodGaps(us, gaps)
    ensures NoNul(Laid(us, gaps))
    decreases us
  {
    if us.More? {
      LaidNoNul(us.tail, gaps[1..]);
      TextNoNul(us.head);
    }
  }

  lemma TextNoNul(t: Token<string>)
    requires LegalTok(t)
    ensures NoNul(Text(t))
  {
  }
}
