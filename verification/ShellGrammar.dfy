/** The shell's language (user/src/sh.rs): tokens, the grammar over tokens, and how a command tree is written down. */
module ShellGrammar {

  const MAXARGS := 10

  // ---- Command trees ----

  /** The trees of sh.rs over words W: a span of the input line, or the text of the word. */
  datatype Cmd<W> =
    | Exec(args: seq<W>)
    | Redir(cmd: Cmd<W>, file: W, write: bool)
    | Pipe(left: Cmd<W>, right: Cmd<W>)
    | List(left: Cmd<W>, right: Cmd<W>)
    | Back(cmd: Cmd<W>)

  datatype Token<W> = Sym(c: char) | Append | Word(w: W)

  datatype Toks<W> = End | More(head: Token<W>, tail: Toks<W>)

  function Len<W>(ts: Toks<W>): nat {
    match ts
    case End => 0
    case More(_, tail) => 1 + Len(tail)
  }

  datatype Redirection<W> = Redirection(file: W, write: bool)

  /** Redirections around a command, the first one innermost. */
  function Wrap<W>(c: Cmd<W>, rs: seq<Redirection<W>>): Cmd<W> {
    if rs == [] then c else Redir(Wrap(c, rs[..|rs| - 1]), rs[|rs| - 1].file, rs[|rs| - 1].write)
  }

  // ---- The grammar, by recursive descent over tokens ----

  datatype Parsed<W, T> = Fail | Ok(value: T, rest: Toks<W>)

  predicate StartsWith<W>(ts: Toks<W>, cs: seq<char>) {
    match ts
    case End => false
    case More(Sym(c), _) => c in cs
    case More(Append, _) => '>' in cs
    case More(Word(_), _) => false
  }

  function PRedirs<W>(ts: Toks<W>): (r: Parsed<W, seq<Redirection<W>>>)
    ensures r.Ok? ==> Len(r.rest) <= Len(ts) && !StartsWith(r.rest, "<>")
    decreases Len(ts)
  {
    if !StartsWith(ts, "<>") then Ok([], ts) else
    match ts.tail
    case More(Word(w), rest) =>
      assert Len(ts.tail) == 1 + Len(rest);
      (match PRedirs(rest)
       case Fail => Fail
       case Ok(rs, after) => Ok([Redirection(w, ts.head != Sym('<'))] + rs, after))
    case _ => Fail
  }

  function PArgs<W>(ts: Toks<W>, args: seq<W>, rs: seq<Redirection<W>>): (r: Parsed<W, Cmd<W>>)
    ensures r.Ok? ==> Len(r.rest) <= Len(ts)
    decreases Len(ts)
  {
    if ts.End? || StartsWith(ts, "|)&;") then Ok(Wrap(Exec(args), rs), ts) else
    match ts.head
    case Word(w) =>
      if |args| + 1 >= MAXARGS then Fail else
      (match PRedirs(ts.tail)
       case Fail => Fail
       case Ok(more, rest) => PArgs(rest, args + [w], rs + more))
    case _ => Fail
  }

  function PExec<W>(ts: Toks<W>): (r: Parsed<W, Cmd<W>>)
    ensures r.Ok? ==> Len(r.rest) <= Len(ts)
    decreases Len(ts), 1
  {
    if StartsWith(ts, "(") then PBlock(ts) else
    match PRedirs(ts)
    case Fail => Fail
    case Ok(rs, rest) => PArgs(rest, [], rs)
  }

  function PBlock<W>(ts: Toks<W>): (r: Parsed<W, Cmd<W>>)
    requires StartsWith(ts, "(")
    ensures r.Ok? ==> Len(r.rest) <= Len(ts)
    decreases Len(ts), 0
  {
    match PLine(ts.tail)
    case Fail => Fail
    case Ok(c, rest) =>
      if !StartsWith(rest, ")") then Fail else
      match PRedirs(rest.tail)
      case Fail => Fail
      case Ok(rs, after) => Ok(Wrap(c, rs), after)
  }

  function PPipe<W>(ts: Toks<W>): (r: Parsed<W, Cmd<W>>)
    ensures r.Ok? ==> Len(r.rest) <= Len(ts)
    decreases Len(ts), 2
  {
    match PExec(ts)
    case Fail => Fail
    case Ok(c, rest) =>
      if !StartsWith(rest, "|") then Ok(c, rest) else
      match PPipe(rest.tail)
      case Fail => Fail
      case Ok(d, after) => Ok(Pipe(c, d), after)
  }

  function PBacks<W>(c: Cmd<W>, ts: Toks<W>): (r: (Cmd<W>, Toks<W>))
    ensures Len(r.1) <= Len(ts) && !StartsWith(r.1, "&")
    decreases Len(ts)
  {
    if StartsWith(ts, "&") then PBacks(Back(c), ts.tail) else (c, ts)
  }

  function PLine<W>(ts: Toks<W>): (r: Parsed<W, Cmd<W>>)
    ensures r.Ok? ==> Len(r.rest) <= Len(ts)
    decreases Len(ts), 3
  {
    match PPipe(ts)
    case Fail => Fail
    case Ok(c, rest) => PTail(PBacks(c, rest).0, PBacks(c, rest).1)
  }

  /** After a command: the end of the line, or a semicolon and another line. */
  function PTail<W>(c: Cmd<W>, ts: Toks<W>): (r: Parsed<W, Cmd<W>>)
    ensures r.Ok? ==> Len(r.rest) <= Len(ts)
    decreases Len(ts), 2
  {
    if !StartsWith(ts, ";") then Ok(c, ts) else
    match PLine(ts.tail)
    case Fail => Fail
    case Ok(d, after) => Ok(List(c, d), after)
  }

  /** parsecmd() without leftovers. */
  function PCmd<W>(ts: Toks<W>): Parsed<W, Cmd<W>> {
    match PLine(ts)
    case Fail => Fail
    case Ok(c, rest) => if rest == End then Ok(c, rest) else Fail
  }

  // ---- Writing a tree down, in front of the tokens k ----

  function Words<W>(args: seq<W>, k: Toks<W>): Toks<W> {
    if args == [] then k else More(Word(args[0]), Words(args[1..], k))
  }

  function Rank<W>(level: nat, c: Cmd<W>): nat {
    match c
    case List(_, _) => (level + 1) % 4
    case Back(_) => (level + 2) % 4
    case Pipe(_, _) => (level + 3) % 4
    case _ => level
  }

  /** As a command between bars: anything but words and redirections goes in parentheses. */
  function ShowExec<W>(c: Cmd<W>, k: Toks<W>): Toks<W>
    decreases c, Rank(0, c)
  {
    match c
    case Exec(args) => Words(args, k)
    case Redir(d, file, write) => ShowExec(d, More(Sym(if write then '>' else '<'), More(Word(file), k)))
    case _ => More(Sym('('), ShowLine(c, More(Sym(')'), k)))
  }

  function ShowPipe<W>(c: Cmd<W>, k: Toks<W>): Toks<W>
    decreases c, Rank(1, c)
  {
    match c
    case Pipe(l, r) => ShowExec(l, More(Sym('|'), ShowPipe(r, k)))
    case _ => ShowExec(c, k)
  }

  function ShowBack<W>(c: Cmd<W>, k: Toks<W>): Toks<W>
    decreases c, Rank(2, c)
  {
    match c
    case Back(d) => ShowBack(d, More(Sym('&'), k))
    case _ => ShowPipe(c, k)
  }

  function ShowLine<W>(c: Cmd<W>, k: Toks<W>): Toks<W>
    decreases c, Rank(3, c)
  {
    match c
    case List(l, r) => ShowBack(l, More(Sym(';'), ShowLine(r, k)))
    case _ => ShowBack(c, k)
  }
}
