/** The shell's command trees, the grammar its parser accepts (user/sh.c 409-590) and the text a
    tree is printed as.  W stands for whatever a word is: a stretch of the line or a string. */
module ShellGrammar {

  datatype Mode = In | Out | Append

  datatype Cmd<W> =
    | Exec(argv: seq<W>)
    | Redir(cmd: Cmd<W>, file: W, mode: Mode)
    | PipeCmd(left: Cmd<W>, right: Cmd<W>)
    | ListCmd(left: Cmd<W>, right: Cmd<W>)
    | Back(cmd: Cmd<W>)

  /** What gettoken returns: 'a' with the word, or the symbol ('+' for ">>"). */
  datatype Tok<W> = Word(w: W) | Sym(c: char)

  datatype Toks<W> = Nil | Cons(head: Tok<W>, tail: Toks<W>)

  datatype Result<W> = Ok(cmd: Cmd<W>, rest: Toks<W>) | Syntax

  const MAXARGS := 10

  function Len<W>(ts: Toks<W>): nat
  {
    match ts
    case Nil => 0
    case Cons(_, tail) => 1 + Len(tail)
  }

  /** peek: the next token is one of these symbols. */
  predicate Peek<W>(ts: Toks<W>, symbols: string)
  {
    ts.Cons? && ts.head.Sym? && ts.head.c in symbols
  }

  // ---- the grammar ----

  function ModeOf(c: char): Mode
  {
    if c == '<' then In else if c == '>' then Out else Append
  }

  function ModeSym(m: Mode): char
  {
    match m
    case In => '<'
    case Out => '>'
    case Append => '+'
  }

  /** parseredirs */
  function Redirs<W>(cmd: Cmd<W>, ts: Toks<W>): (r: Result<W>)
    ensures r.Ok? ==> Len(r.rest) <= Len(ts) && !Peek(r.rest, "<>+")
    decreases ts
  {
    if !Peek(ts, "<>+") then Ok(cmd, ts)
    else if ts.tail.Cons? && ts.tail.head.Word? then
      Redirs(Redir(cmd, ts.tail.head.w, ModeOf(ts.head.c)), ts.tail.tail)
    else Syntax
  }

  /** The exec node at the bottom of what parseexec has built gets one more word. */
  function AddWord<W>(cmd: Cmd<W>, w: W): (r: Cmd<W>)
  {
    match cmd
    case Exec(argv) => Exec(argv + [w])
    case Redir(c, file, mode) => Redir(AddWord(c, w), file, mode)
    case _ => cmd
  }

  /** The loop of parseexec; ret is the exec node with the redirections met so far around it. */
  function Args<W>(ret: Cmd<W>, argc: int, ts: Toks<W>): (r: Result<W>)
    ensures r.Ok? ==> Len(r.rest) <= Len(ts)
    decreases Len(ts)
  {
    if Peek(ts, "|)&;") || ts == Nil then Ok(ret, ts)
    else if ts.head.Sym? then Syntax
    else if argc + 1 >= MAXARGS then Syntax
    else
      match Redirs(AddWord(ret, ts.head.w), ts.tail)
      case Syntax => Syntax
      case Ok(ret', ts') => Args(ret', argc + 1, ts')
  }

  function ExecAt<W>(ts: Toks<W>): (r: Result<W>)
    ensures r.Ok? ==> Len(r.rest) <= Len(ts)
    decreases Len(ts), 1
  {
    if Peek(ts, "(") then
      match LineAt(ts.tail)
      case Syntax => Syntax
      case Ok(cmd, rest) => if Peek(rest, ")") then Redirs(cmd, rest.tail) else Syntax
    else
      match Redirs(Exec([]), ts)
      case Syntax => Syntax
      case Ok(ret, rest) => Args(ret, 0, rest)
  }

  function PipeAt<W>(ts: Toks<W>): (r: Result<W>)
    ensures r.Ok? ==> Len(r.rest) <= Len(ts)
    decreases Len(ts), 2
  {
    match ExecAt(ts)
    case Syntax => Syntax
    case Ok(cmd, rest) =>
      if Peek(rest, "|") then
        match PipeAt(rest.tail)
        case Syntax => Syntax
        case Ok(right, rest') => Ok(PipeCmd(cmd, right), rest')
      else Ok(cmd, rest)
  }

  /** The first loop of parseline. */
  function Amps<W>(cmd: Cmd<W>, ts: Toks<W>): (r: Result<W>)
    ensures r.Ok? && Len(r.rest) <= Len(ts) && !Peek(r.rest, "&")
    decreases Len(ts)
  {
    if Peek(ts, "&") then Amps(Back(cmd), ts.tail) else Ok(cmd, ts)
  }

  function LineAt<W>(ts: Toks<W>): (r: Result<W>)
    ensures r.Ok? ==> Len(r.rest) <= Len(ts)
    decreases Len(ts), 3
  {
    match PipeAt(ts)
    case Syntax => Syntax
    case Ok(first, rest) =>
      var amped := Amps(first, rest);
      if Peek(amped.rest, ";") then
        match LineAt(amped.rest.tail)
        case Syntax => Syntax
        case Ok(right, rest') => Ok(ListCmd(amped.cmd, right), rest')
      else amped
  }

  // ---- printing, with as few parentheses as the grammar allows ----

  function Words<W>(ws: seq<W>, k: Toks<W>): Toks<W>
  {
    if ws == [] then k else Cons(Word(ws[0]), Words(ws[1..], k))
  }

  /** The tokens of t, followed by k. */
  function PrintLine<W>(t: Cmd<W>, k: Toks<W>): Toks<W>
    decreases t, 0
  {
    match t
    case Exec(argv) => Words(argv, k)
    case Redir(cmd, file, mode) => PrintExec(cmd, Cons(Sym(ModeSym(mode)), Cons(Word(file), k)))
    case PipeCmd(left, right) => PrintExec(left, Cons(Sym('|'), PrintPipe(right, k)))
    case ListCmd(left, right) => PrintAmps(left, Cons(Sym(';'), PrintLine(right, k)))
    case Back(cmd) => PrintAmps(cmd, Cons(Sym('&'), k))
  }

  function Paren<W>(t: Cmd<W>, k: Toks<W>): Toks<W>
    decreases t, 1
  {
    Cons(Sym('('), PrintLine(t, Cons(Sym(')'), k)))
  }

  function PrintAmps<W>(t: Cmd<W>, k: Toks<W>): Toks<W>
    decreases t, 2
  {
    if t.ListCmd? then Paren(t, k) else PrintLine(t, k)
  }

  function PrintPipe<W>(t: Cmd<W>, k: Toks<W>): Toks<W>
    decreases t, 2
  {
    if t.ListCmd? || t.Back? then Paren(t, k) else PrintLine(t, k)
  }

  function PrintExec<W>(t: Cmd<W>, k: Toks<W>): Toks<W>
    decreases t, 2
  {
    if t.ListCmd? || t.Back? || t.PipeCmd? then Paren(t, k) else PrintLine(t, k)
  }

  // ---- parsing undoes printing ----

  /** No command has more words than parseexec takes. */
  predicate Fits<W>(t: Cmd<W>)
  {
    match t
    case Exec(argv) => |argv| < MAXARGS
    case Redir(cmd, _, _) => Fits(cmd)
    case PipeCmd(left, right) => Fits(left) && Fits(right)
    case ListCmd(left, right) => Fits(left) && Fits(right)
    case Back(cmd) => Fits(cmd)
  }

  /** k is empty or begins with one of these symbols. */
  predicate Follows<W>(k: Toks<W>, symbols: string)
  {
    k == Nil || Peek(k, symbols)
  }

  /** Redirections, innermost first. */
  datatype Files<W> = NoFile | File(file: W, mode: Mode, others: Files<W>)

  function Wrap<W>(cmd: Cmd<W>, fs: Files<W>): Cmd<W>
    decreases fs
  {
    match fs
    case NoFile => cmd
    case File(file, mode, others) => Wrap(Redir(cmd, file, mode), others)
  }

  function PrintFiles<W>(fs: Files<W>, k: Toks<W>): Toks<W>
  {
    match fs
    case NoFile => k
    case File(file, mode, others) => Cons(Sym(ModeSym(mode)), Cons(Word(file), PrintFiles(others, k)))
  }

  lemma {:induction false} RedirsBack<W>(cmd: Cmd<W>, fs: Files<W>, k: Toks<W>)
    requires !Peek(k, "<>+")
    ensures Redirs(cmd, PrintFiles(fs, k)) == Ok(Wrap(cmd, fs), k)
    decreases fs
  {
    match fs
    case NoFile =>
    case File(file, mode, others) => RedirsBack(Redir(cmd, file, mode), others, k);
  }

  lemma {:induction false} ArgsBack<W>(argv: seq<W>, ws: seq<W>, fs: Files<W>, k: Toks<W>)
    requires Follows(k, "|)&;") && |argv| + |ws| < MAXARGS && |ws| > 0
    ensures Args(Exec(argv), |argv|, Words(ws, PrintFiles(fs, k))) == Ok(Wrap(Exec(argv + ws), fs), k)
    decreases |ws|
  {
    var argv' := argv + [ws[0]];
    assert argv' + ws[1..] == argv + ws;
    var rest := Words(ws[1..], PrintFiles(fs, k));
    assert Words(ws, PrintFiles(fs, k)) == Cons(Word(ws[0]), rest) && AddWord(Exec(argv), ws[0]) == Exec(argv');
    if |ws| == 1 {
      assert ws[1..] == [] && argv' == argv + ws;
      RedirsBack(Exec(argv'), fs, k);
      assert Args(Wrap(Exec(argv'), fs), |argv| + 1, k) == Ok(Wrap(Exec(argv'), fs), k);
    } else {
      ArgsBack(argv', ws[1..], fs, k);
      assert Redirs(Exec(argv'), rest) == Ok(Exec(argv'), rest);
    }
  }

  /** A whole simple command. */
  lemma ExecBack<W>(argv: seq<W>, fs: Files<W>, k: Toks<W>)
    requires Follows(k, "|)&;") && |argv| < MAXARGS
    ensures ExecAt(Words(argv, PrintFiles(fs, k))) == Ok(Wrap(Exec(argv), fs), k)
  {
    if argv == [] {
      RedirsBack(Exec(argv), fs, k);
    } else {
      ArgsBack([], argv, fs, k);
      assert [] + argv == argv;
    }
  }

  lemma {:induction false} PrimaryBack<W>(t: Cmd<W>, fs: Files<W>, k: Toks<W>)
    requires Fits(t) && Follows(k, "|)&;")
    ensures ExecAt(PrintExec(t, PrintFiles(fs, k))) == Ok(Wrap(t, fs), k)
    decreases t, 1
  {
    match t
    case Exec(argv) => ExecBack(argv, fs, k);
    case Redir(cmd, file, mode) => PrimaryBack(cmd, File(file, mode, fs), k);
    case _ =>
      LineBack(t, Cons(Sym(')'), PrintFiles(fs, k)));
      RedirsBack(t, fs, k);
  }

  lemma {:induction false} PipeBack<W>(t: Cmd<W>, k: Toks<W>)
    requires Fits(t) && Follows(k, ")&;")
    ensures PipeAt(PrintPipe(t, k)) == Ok(t, k)
    decreases t, 2
  {
    if t.PipeCmd? {
      PrimaryBack(t.left, NoFile, Cons(Sym('|'), PrintPipe(t.right, k)));
      PipeBack(t.right, k);
    } else {
      PrimaryBack(t, NoFile, k);
    }
  }

  /** How many & follow. */
  lemma {:induction false} AmpsBack<W>(t: Cmd<W>, k: Toks<W>)
    requires Fits(t) && Follows(k, ")&;")
    ensures var r := PipeAt(PrintAmps(t, k)); r.Ok? && Amps(r.cmd, r.rest) == Amps(t, k)
    decreases t, 3
  {
    if t.Back? {
      AmpsBack(t.cmd, Cons(Sym('&'), k));
    } else {
      PipeBack(t, k);
    }
  }

  /** parseline undoes PrintLine. */
  lemma {:induction false} LineBack<W>(t: Cmd<W>, k: Toks<W>)
    requires Fits(t) && Follows(k, ")")
    ensures LineAt(PrintLine(t, k)) == Ok(t, k)
    decreases t, 0
  {
    if t.ListCmd? {
      AmpsBack(t.left, Cons(Sym(';'), PrintLine(t.right, k)));
      LineBack(t.right, k);
    } else if t.Back? {
      AmpsBack(t.cmd, Cons(Sym('&'), k));
    } else {
      match t
      case Exec(argv) => ExecBack(argv, NoFile, k);
      case Redir(cmd, file, mode) => PrimaryBack(cmd, File(file, mode, NoFile), k);
      case PipeCmd(left, right) =>
        PrimaryBack(left, NoFile, Cons(Sym('|'), PrintPipe(right, k)));
        PipeBack(right, k);
      case _ =>
    }
  }

  // ---- and only for commands of at most nine words ----

  lemma {:induction false} ArgsTooMany<W>(argv: seq<W>, ws: seq<W>, k: Toks<W>)
    requires |argv| < MAXARGS && |argv| + |ws| >= MAXARGS
    ensures Args(Exec(argv), |argv|, Words(ws, k)) == Syntax
    decreases |ws|
  {
    var argv' := argv + [ws[0]];
    if |argv'| < MAXARGS {
      ArgsTooMany(argv', ws[1..], k);
      var rest := Words(ws[1..], k);
      assert Redirs(Exec(argv'), rest) == Ok(Exec(argv'), rest);
    }
  }

  lemma ExecFails<W>(argv: seq<W>, k: Toks<W>)
    requires |argv| >= MAXARGS
    ensures ExecAt(Words(argv, k)) == Syntax
  {
    ArgsTooMany([], argv, k);
    var ts := Words(argv, k);
    assert Redirs(Exec([]), ts) == Ok(Exec([]), ts);
  }

  lemma {:induction false} PrimaryFails<W>(t: Cmd<W>, fs: Files<W>, k: Toks<W>)
    requires !Fits(t) && Follows(k, "|)&;")
    ensures ExecAt(PrintExec(t, PrintFiles(fs, k))) == Syntax
    decreases t, 1
  {
    match t
    case Exec(argv) => ExecFails(argv, PrintFiles(fs, k));
    case Redir(cmd, file, mode) => PrimaryFails(cmd, File(file, mode, fs), k);
    case _ => LineFails(t, Cons(Sym(')'), PrintFiles(fs, k)));
  }

  lemma {:induction false} PipeFails<W>(t: Cmd<W>, k: Toks<W>)
    requires !Fits(t) && Follows(k, ")&;")
    ensures PipeAt(PrintPipe(t, k)) == Syntax
    decreases t, 2
  {
    if t.PipeCmd? {
      var rest := Cons(Sym('|'), PrintPipe(t.right, k));
      if Fits(t.left) {
        PrimaryBack(t.left, NoFile, rest);
        PipeFails(t.right, k);
      } else {
        PrimaryFails(t.left, NoFile, rest);
      }
    } else {
      PrimaryFails(t, NoFile, k);
    }
  }

  lemma {:induction false} AmpsFail<W>(t: Cmd<W>, k: Toks<W>)
    requires !Fits(t) && Follows(k, ")&;")
    ensures PipeAt(PrintAmps(t, k)) == Syntax
    decreases t, 3
  {
    if t.Back? { AmpsFail(t.cmd, Cons(Sym('&'), k)); } else { PipeFails(t, k); }
  }

  lemma {:induction false} LineFails<W>(t: Cmd<W>, k: Toks<W>)
    requires !Fits(t) && Follows(k, ")")
    ensures LineAt(PrintLine(t, k)) == Syntax
    decreases t, 0
  {
    if t.ListCmd? {
      var rest := Cons(Sym(';'), PrintLine(t.right, k));
      if Fits(t.left) {
        AmpsBack(t.left, rest);
        LineFails(t.right, k);
      } else {
        AmpsFail(t.left, rest);
      }
    } else if t.Back? {
      AmpsFail(t.cmd, Cons(Sym('&'), k));
    } else {
      match t
      case Exec(argv) => ExecFails(argv, k);
      case Redir(cmd, file, mode) => PrimaryFails(cmd, File(file, mode, NoFile), k);
      case PipeCmd(left, right) =>
        var rest := Cons(Sym('|'), PrintPipe(right, k));
        if Fits(left) {
          PrimaryBack(left, NoFile, rest);
          PipeFails(right, k);
        } else {
          PrimaryFails(left, NoFile, rest);
        }
      case _ =>
    }
  }

  // ---- the grammar does not look into words ----

  function MapToks<W, V>(f: W -> V, ts: Toks<W>): Toks<V>
  {
    match ts
    case Nil => Nil
    case Cons(Word(w), tail) => Cons(Word(f(w)), MapToks(f, tail))
    case Cons(Sym(c), tail) => Cons(Sym(c), MapToks(f, tail))
  }

  function MapWords<W, V>(f: W -> V, ws: seq<W>): (r: seq<V>)
    ensures |r| == |ws| && forall i :: 0 <= i < |ws| ==> r[i] == f(ws[i])
  {
    seq(|ws|, i requires 0 <= i < |ws| => f(ws[i]))
  }

  function MapCmd<W, V>(f: W -> V, t: Cmd<W>): Cmd<V>
  {
    match t
    case Exec(argv) => Exec(MapWords(f, argv))
    case Redir(cmd, file, mode) => Redir(MapCmd(f, cmd), f(file), mode)
    case PipeCmd(left, right) => PipeCmd(MapCmd(f, left), MapCmd(f, right))
    case ListCmd(left, right) => ListCmd(MapCmd(f, left), MapCmd(f, right))
    case Back(cmd) => Back(MapCmd(f, cmd))
  }

  function MapResult<W, V>(f: W -> V, r: Result<W>): Result<V>
  {
    match r
    case Ok(cmd, rest) => Ok(MapCmd(f, cmd), MapToks(f, rest))
    case Syntax => Syntax
  }

  lemma MapPeek<W, V>(f: W -> V, ts: Toks<W>, symbols: string)
    ensures Peek(MapToks(f, ts), symbols) == Peek(ts, symbols)
  {
  }

  lemma {:induction false} MapRedirs<W, V>(f: W -> V, cmd: Cmd<W>, ts: Toks<W>)
    ensures Redirs(MapCmd(f, cmd), MapToks(f, ts)) == MapResult(f, Redirs(cmd, ts))
    decreases ts
  {
    MapPeek(f, ts, "<>+");
    if Peek(ts, "<>+") && ts.tail.Cons? && ts.tail.head.Word? {
      MapRedirs(f, Redir(cmd, ts.tail.head.w, ModeOf(ts.head.c)), ts.tail.tail);
    }
  }

  lemma {:induction false} MapAdd<W, V>(f: W -> V, cmd: Cmd<W>, w: W)
    ensures MapCmd(f, AddWord(cmd, w)) == AddWord(MapCmd(f, cmd), f(w))
  {
    match cmd
    case Exec(argv) => assert MapWords(f, argv + [w]) == MapWords(f, argv) + [f(w)];
    case Redir(c, _, _) => MapAdd(f, c, w);
    case _ =>
  }

  lemma {:induction false} MapArgs<W, V>(f: W -> V, ret: Cmd<W>, argc: int, ts: Toks<W>)
    ensures Args(MapCmd(f, ret), argc, MapToks(f, ts)) == MapResult(f, Args(ret, argc, ts))
    decreases Len(ts)
  {
    MapPeek(f, ts, "|)&;");
    if !Peek(ts, "|)&;") && ts != Nil && ts.head.Word? && argc + 1 < MAXARGS {
      MapAdd(f, ret, ts.head.w);
      MapRedirs(f, AddWord(ret, ts.head.w), ts.tail);
      var r := Redirs(AddWord(ret, ts.head.w), ts.tail);
      if r.Ok? { MapArgs(f, r.cmd, argc + 1, r.rest); }
    }
  }

  lemma {:induction false} MapExecAt<W, V>(f: W -> V, ts: Toks<W>)
    ensures ExecAt(MapToks(f, ts)) == MapResult(f, ExecAt(ts))
    decreases Len(ts), 1
  {
    MapPeek(f, ts, "(");
    if Peek(ts, "(") {
      MapLineAt(f, ts.tail);
      var r := LineAt(ts.tail);
      if r.Ok? {
        MapPeek(f, r.rest, ")");
        if Peek(r.rest, ")") { MapRedirs(f, r.cmd, r.rest.tail); }
      }
    } else {
      MapRedirs(f, Exec([]), ts);
      assert MapCmd(f, Exec([])) == Exec([]);
      var r := Redirs(Exec([]), ts);
      if r.Ok? { MapArgs(f, r.cmd, 0, r.rest); }
    }
  }

  lemma {:induction false} MapPipeAt<W, V>(f: W -> V, ts: Toks<W>)
    ensures PipeAt(MapToks(f, ts)) == MapResult(f, PipeAt(ts))
    decreases Len(ts), 2
  {
    MapExecAt(f, ts);
    var r := ExecAt(ts);
    if r.Ok? {
      MapPeek(f, r.rest, "|");
      if Peek(r.rest, "|") { MapPipeAt(f, r.rest.tail); }
    }
  }

  lemma {:induction false} MapAmps<W, V>(f: W -> V, cmd: Cmd<W>, ts: Toks<W>)
    ensures Amps(MapCmd(f, cmd), MapToks(f, ts)) == MapResult(f, Amps(cmd, ts))
    decreases Len(ts)
  {
    MapPeek(f, ts, "&");
    if Peek(ts, "&") { MapAmps(f, Back(cmd), ts.tail); }
  }

  /** Parsing commutes with reading the words. */
  lemma {:induction false} MapLineAt<W, V>(f: W -> V, ts: Toks<W>)
    ensures LineAt(MapToks(f, ts)) == MapResult(f, LineAt(ts))
    decreases Len(ts), 3
  {
    MapPipeAt(f, ts);
    var r := PipeAt(ts);
    if r.Ok? {
      MapAmps(f, r.cmd, r.rest);
      var amped := Amps(r.cmd, r.rest);
      MapPeek(f, amped.rest, ";");
      if Peek(amped.rest, ";") { MapLineAt(f, amped.rest.tail); }
    }
  }
}
