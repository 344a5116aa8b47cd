/** The shell's scanner and parser on a line of characters (user/sh.c 406-637). */
module Shell {
  import opened ShellGrammar

  const NUL := 0 as char

  /** The word at line[q..eq], by its two pointers. */
  datatype Span = Span(q: int, eq: int)

  /** A blank, a tab, a line end or a vertical tab. */
  predicate White(c: char)
  {
    c == ' ' || c == '\t' || c == '\r' || c == '\n' || c == 11 as char
  }

  predicate Symbol(c: char)
  {
    c == '<' || c == '|' || c == '>' || c == '&' || c == ';' || c == '(' || c == ')'
  }

  /** The characters by their codes: white space is " \t\r\n\v". */
  lemma Codes(c: char)
    ensures White(c) <==> c as int in {0x09, 0x0a, 0x0b, 0x0d, 0x20}
    ensures Symbol(c) <==> c in "<|>&;()"
  {
    assert "<|>&;()"[0] == '<' && "<|>&;()"[1] == '|' && "<|>&;()"[2] == '>' && "<|>&;()"[3] == '&';
    assert "<|>&;()"[4] == ';' && "<|>&;()"[5] == '(' && "<|>&;()"[6] == ')';
  }

  predicate WordChar(c: char)
  {
    !White(c) && !Symbol(c) && c != NUL
  }

  /** A command line: what lies before the terminating NUL. */
  predicate Line(line: string)
  {
    NUL !in line
  }

  function Skip(line: string, i: int): (s: int)
    requires 0 <= i <= |line|
    ensures i <= s <= |line| && (s < |line| ==> !White(line[s]))
    decreases |line| - i
  {
    if i < |line| && White(line[i]) then Skip(line, i + 1) else i
  }

  function WordEnd(line: string, i: int): (e: int)
    requires 0 <= i <= |line|
    ensures i <= e <= |line| && (forall k :: i <= k < e ==> !White(line[k]) && !Symbol(line[k]))
    ensures e < |line| ==> White(line[e]) || Symbol(line[e])
    decreases |line| - i
  {
    if i < |line| && !White(line[i]) && !Symbol(line[i]) then WordEnd(line, i + 1) else i
  }

  /** The tokens from position i on. */
  function Lex(line: string, i: int): Toks<Span>
    requires 0 <= i <= |line|
    decreases |line| - i
  {
    var s := Skip(line, i);
    if s == |line| then Nil
    else if line[s] == '>' && s + 1 < |line| && line[s + 1] == '>' then Cons(Sym('+'), Lex(line, s + 2))
    else if Symbol(line[s]) then Cons(Sym(line[s]), Lex(line, s + 1))
    else Cons(Word(Span(s, WordEnd(line, s))), Lex(line, WordEnd(line, s)))
  }

  lemma {:induction false} SkipTwice(line: string, i: int)
    requires 0 <= i <= |line|
    ensures Skip(line, Skip(line, i)) == Skip(line, i)
    decreases |line| - i
  {
    if i < |line| && White(line[i]) { SkipTwice(line, i + 1); }
  }

  lemma LexSkip(line: string, i: int)
    requires 0 <= i <= |line|
    ensures Lex(line, Skip(line, i)) == Lex(line, i)
  {
    SkipTwice(line, i);
  }

  /** The first token from i on, once the white space up to s is skipped. */
  lemma LexAt(line: string, i: int, s: int)
    requires 0 <= i <= |line| && s == Skip(line, i)
    ensures i <= s <= |line| && (s < |line| ==> !White(line[s]))
    ensures s == |line| ==> Lex(line, i) == Nil && Lex(line, s) == Nil
    ensures s < |line| && line[s] == '>' && s + 1 < |line| && line[s + 1] == '>' ==> Lex(line, i) == Cons(Sym('+'), Lex(line, s + 2))
    ensures s < |line| && Symbol(line[s]) && !(line[s] == '>' && s + 1 < |line| && line[s + 1] == '>') ==>
      Lex(line, i) == Cons(Sym(line[s]), Lex(line, s + 1))
    ensures s < |line| && !Symbol(line[s]) ==>
      s < WordEnd(line, s) && Lex(line, i) == Cons(Word(Span(s, WordEnd(line, s))), Lex(line, WordEnd(line, s)))
  {
  }

  /** gettoken's result when these are the tokens before and after. */
  ghost predicate Got(ts: Toks<Span>, tok: char, word: Span, rest: Toks<Span>)
  {
    match ts
    case Nil => tok == NUL && rest == Nil
    case Cons(Word(w), tail) => tok == 'a' && word == w && rest == tail
    case Cons(Sym(c), tail) => tok == c && tok != 'a' && tok != NUL && rest == tail
  }

  /** What parsecmd makes of a line's tokens. */
  function CmdAt(ts: Toks<Span>): Result<Span>
  {
    match LineAt(ts)
    case Syntax => Syntax
    case Ok(cmd, rest) => if rest == Nil then Ok(cmd, rest) else Syntax
  }

  // ---- the parser ----

  class Parser {
    const line: string
    var pos: int
    var buf: seq<char>                // the line in memory, with its NUL

    constructor (line: string)
      requires Line(line)
      ensures this.line == line && pos == 0 && buf == line + [NUL]
    {
      this.line := line;
      pos := 0;
      buf := line + [NUL];
    }

    ghost predicate Valid()
      reads this
    {
      0 <= pos <= |line| && Line(line)
    }

    /** The cursor moves to the next character that is not white space, or to the end. */
    method SkipWhite()
      requires Valid()
      modifies `pos
      ensures Valid() && pos == Skip(line, old(pos))
    {
      while pos < |line| && White(line[pos])
        invariant old(pos) <= pos <= |line| && Skip(line, pos) == Skip(line, old(pos))
      {
        pos := pos + 1;
      }
    }

    /** The cursor moves to the end of the word it is in. */
    method SkipWord()
      requires Valid()
      modifies `pos
      ensures Valid() && pos == WordEnd(line, old(pos))
    {
      while pos < |line| && !White(line[pos]) && !Symbol(line[pos])
        invariant old(pos) <= pos <= |line| && WordEnd(line, pos) == WordEnd(line, old(pos))
      {
        pos := pos + 1;
      }
    }

    /** peek: the cursor skips white space and stays. */
    method PeekAt(symbols: string) returns (found: bool)
      requires Valid() && forall c :: c in symbols ==> Symbol(c)
      modifies `pos
      ensures Valid() && old(pos) <= pos && pos == Skip(line, old(pos)) && Lex(line, pos) == Lex(line, old(pos))
      ensures found == Peek(Lex(line, pos), symbols + if '>' in symbols then "+" else "")
    {
      SkipWhite();
      LexSkip(line, old(pos));
      SkipTwice(line, old(pos));
      found := pos < |line| && line[pos] in symbols;
    }

    /** gettoken: 0 at the end, 'a' and the word's pointers, or the symbol. */
    method GetToken() returns (tok: char, word: Span)
      requires Valid()
      modifies `pos
      ensures Valid() && old(pos) <= pos && (tok != NUL ==> old(pos) < pos)
      ensures Got(Lex(line, old(pos)), tok, word, Lex(line, pos))
    {
      ghost var ts := Lex(line, pos);
      SkipWhite();
      var s := pos;
      LexAt(line, old(pos), s);
      hide Lex, Skip, WordEnd;
      tok := if s < |line| then line[s] else NUL;
      if s == |line| {
      } else if tok == '>' {
        pos := pos + 1;
        if pos < |line| && line[pos] == '>' {
          tok := '+';
          pos := pos + 1;
        }
      } else if Symbol(tok) {
        pos := pos + 1;
      } else {
        tok := 'a';
        SkipWord();
      }
      word := Span(s, pos);
      assert Got(ts, tok, word, Lex(line, pos));
      hide *;
      LexSkip(line, pos);
      SkipWhite();
    }

    /** parseredirs */
    method ParseRedirs(cmd0: Cmd<Span>) returns (ok: bool, cmd: Cmd<Span>)
      requires Valid()
      modifies `pos
      ensures Valid() && old(pos) <= pos
      ensures match Redirs(cmd0, Lex(line, old(pos)))
              case Ok(c, rest) => ok && cmd == c && Lex(line, pos) == rest
              case Syntax => !ok
    {
      hide Skip, Lex, WordEnd;
      cmd := cmd0;
      ghost var ts := Lex(line, pos);
      var more := PeekAt("<>");
      while more
        invariant Valid() && old(pos) <= pos && more == Peek(Lex(line, pos), "<>+")
        invariant Redirs(cmd, Lex(line, pos)) == Redirs(cmd0, ts)
        decreases |line| - pos
      {
        var tok, _ := GetToken();
        var kind, word := GetToken();
        if kind != 'a' { return false, cmd; }
        if tok == '<' {
          cmd := Redir(cmd, word, In);
        } else if tok == '>' {
          cmd := Redir(cmd, word, Out);
        } else if tok == '+' {
          cmd := Redir(cmd, word, Append);
        }
        more := PeekAt("<>");
      }
      ok := true;
    }

    /** parseexec.  The exec node it fills in is shared with the redirections around it, so each
        word shows up at the bottom of ret. */
    method ParseExec() returns (ok: bool, ret: Cmd<Span>)
      requires Valid()
      modifies `pos
      ensures Valid() && old(pos) <= pos
      ensures match ExecAt(Lex(line, old(pos)))
              case Ok(c, rest) => ok && ret == c && Lex(line, pos) == rest
              case Syntax => !ok
      decreases |line| - pos, 1
    {
      hide Skip, Lex, WordEnd;
      ghost var ts := Lex(line, pos);
      ret := Exec([]);
      var block := PeekAt("(");
      if block {
        ok, ret := ParseBlock();
        return;
      }
      ok, ret := ParseRedirs(ret);
      if !ok { return; }
      var argc := 0;
      var stop := PeekAt("|)&;");
      while !stop
        invariant ok && Valid() && old(pos) <= pos && stop == Peek(Lex(line, pos), "|)&;")
        invariant Args(ret, argc, Lex(line, pos)) == ExecAt(ts)
        decreases |line| - pos, !stop
      {
        var tok, word := GetToken();
        if tok == NUL { break; }
        if tok != 'a' { return false, ret; }
        argc := argc + 1;
        if argc >= MAXARGS { return false, ret; }
        ok, ret := ParseRedirs(AddWord(ret, word));
        if !ok { return; }
        stop := PeekAt("|)&;");
      }
    }

    /** parseblock */
    method ParseBlock() returns (ok: bool, cmd: Cmd<Span>)
      requires Valid() && Peek(Lex(line, pos), "(")
      modifies `pos
      ensures Valid() && old(pos) <= pos
      ensures match ExecAt(Lex(line, old(pos)))
              case Ok(c, rest) => ok && cmd == c && Lex(line, pos) == rest
              case Syntax => !ok
      decreases |line| - pos, 0
    {
      hide Skip, Lex, WordEnd;
      cmd := Exec([]);
      var open := PeekAt("(");
      if !open { return false, cmd; }
      var _, _ := GetToken();
      ok, cmd := ParseLine();
      if !ok { return; }
      var close := PeekAt(")");
      if !close { return false, cmd; }
      var _, _ := GetToken();
      ok, cmd := ParseRedirs(cmd);
    }

    /** parsepipe */
    method ParsePipe() returns (ok: bool, cmd: Cmd<Span>)
      requires Valid()
      modifies `pos
      ensures Valid() && old(pos) <= pos
      ensures match PipeAt(Lex(line, old(pos)))
              case Ok(c, rest) => ok && cmd == c && Lex(line, pos) == rest
              case Syntax => !ok
      decreases |line| - pos, 2
    {
      hide Skip, Lex, WordEnd;
      ok, cmd := ParseExec();
      if !ok { return; }
      var bar := PeekAt("|");
      if bar {
        var _, _ := GetToken();
        var right;
        ok, right := ParsePipe();
        cmd := PipeCmd(cmd, right);
      }
    }

    /** parseline */
    method ParseLine() returns (ok: bool, cmd: Cmd<Span>)
      requires Valid()
      modifies `pos
      ensures Valid() && old(pos) <= pos
      ensures match LineAt(Lex(line, old(pos)))
              case Ok(c, rest) => ok && cmd == c && Lex(line, pos) == rest
              case Syntax => !ok
      decreases |line| - pos, 3
    {
      hide Skip, Lex, WordEnd;
      ok, cmd := ParsePipe();
      if !ok { return; }
      ghost var first, rest := cmd, Lex(line, pos);
      var amp := PeekAt("&");
      while amp
        invariant Valid() && old(pos) <= pos && amp == Peek(Lex(line, pos), "&")
        invariant Amps(cmd, Lex(line, pos)) == Amps(first, rest)
        decreases |line| - pos
      {
        var _, _ := GetToken();
        cmd := Back(cmd);
        amp := PeekAt("&");
      }
      var semi := PeekAt(";");
      if semi {
        var _, _ := GetToken();
        var right;
        ok, right := ParseLine();
        cmd := ListCmd(cmd, right);
      }
    }

    /** parsecmd, up to nulterminate. */
    method ParseCmd() returns (ok: bool, cmd: Cmd<Span>)
      requires Valid() && pos == 0
      modifies `pos
      ensures match CmdAt(Lex(line, 0))
              case Ok(c, _) => ok && cmd == c
              case Syntax => !ok
    {
      ok, cmd := ParseLine();
      if !ok { return; }
      ghost var end := pos;
      var _ := PeekAt("");
      SkipTwice(line, end);
      if pos != |line| { ok := false; }
    }

    /** nulterminate: a NUL goes behind every word of the command. */
    method NulTerminate(cmd: Cmd<Span>)
      requires |buf| == |line| + 1 && Within(cmd, |buf|)
      modifies `buf
      ensures buf == Terminated(old(buf), cmd)
      decreases cmd
    {
      match cmd {
        case Exec(argv) =>
          var i := 0;
          while i < |argv|
            invariant 0 <= i <= |argv| && |buf| == |line| + 1
            invariant EndAll(buf, argv[i..]) == EndAll(old(buf), argv)
          {
            assert argv[i..][0] == argv[i] && argv[i..][1..] == argv[i + 1..];
            buf := buf[argv[i].eq := NUL];
            i := i + 1;
          }
        case Redir(c, file, _) =>
          NulTerminate(c);
          buf := buf[file.eq := NUL];
        case PipeCmd(left, right) =>
          NulTerminate(left);
          NulTerminate(right);
        case ListCmd(left, right) =>
          NulTerminate(left);
          NulTerminate(right);
        case Back(c) =>
          NulTerminate(c);
      }
    }
  }

  // ---- reading the words back ----

  /** Every word's end lies in a buffer of n characters. */
  predicate Within(cmd: Cmd<Span>, n: int)
  {
    match cmd
    case Exec(argv) => forall i :: 0 <= i < |argv| ==> 0 <= argv[i].eq < n
    case Redir(c, file, _) => Within(c, n) && 0 <= file.eq < n
    case PipeCmd(left, right) => Within(left, n) && Within(right, n)
    case ListCmd(left, right) => Within(left, n) && Within(right, n)
    case Back(c) => Within(c, n)
  }

  function EndAll(buf: string, ws: seq<Span>): (r: string)
    requires forall i :: 0 <= i < |ws| ==> 0 <= ws[i].eq < |buf|
    ensures |r| == |buf|
    decreases |ws|
  {
    if ws == [] then buf else EndAll(buf[ws[0].eq := NUL], ws[1..])
  }

  function Terminated(buf: string, cmd: Cmd<Span>): (r: string)
    requires Within(cmd, |buf|)
    ensures |r| == |buf|
    decreases cmd
  {
    match cmd
    case Exec(argv) => EndAll(buf, argv)
    case Redir(c, file, _) => Terminated(buf, c)[file.eq := NUL]
    case PipeCmd(left, right) => Terminated(Terminated(buf, left), right)
    case ListCmd(left, right) => Terminated(Terminated(buf, left), right)
    case Back(c) => Terminated(buf, c)
  }

  /** The string at position q: what comes before the first NUL. */
  function CString(buf: string, q: int): string
    requires 0 <= q <= |buf|
    decreases |buf| - q
  {
    if q == |buf| || buf[q] == NUL then "" else [buf[q]] + CString(buf, q + 1)
  }

  /** A maximal run of word characters. */
  ghost predicate WordAt(line: string, sp: Span)
  {
    && 0 <= sp.q < sp.eq <= |line|
    && (forall k :: sp.q <= k < sp.eq ==> WordChar(line[k]))
    && (sp.eq < |line| ==> !WordChar(line[sp.eq]))
  }

  ghost predicate AllWords<W>(ts: Toks<W>, ok: W -> bool)
  {
    match ts
    case Nil => true
    case Cons(head, tail) => (head.Word? ==> ok(head.w)) && AllWords(tail, ok)
  }

  ghost predicate CmdWords<W>(cmd: Cmd<W>, ok: W -> bool)
  {
    match cmd
    case Exec(argv) => forall i :: 0 <= i < |argv| ==> ok(argv[i])
    case Redir(c, file, _) => CmdWords(c, ok) && ok(file)
    case PipeCmd(left, right) => CmdWords(left, ok) && CmdWords(right, ok)
    case ListCmd(left, right) => CmdWords(left, ok) && CmdWords(right, ok)
    case Back(c) => CmdWords(c, ok)
  }

  lemma {:induction false} RedirWords<W>(cmd: Cmd<W>, ts: Toks<W>, ok: W -> bool)
    requires CmdWords(cmd, ok) && AllWords(ts, ok)
    ensures var r := Redirs(cmd, ts); r.Ok? ==> CmdWords(r.cmd, ok) && AllWords(r.rest, ok)
    decreases ts
  {
    if Peek(ts, "<>+") && ts.tail.Cons? && ts.tail.head.Word? {
      RedirWords(Redir(cmd, ts.tail.head.w, ModeOf(ts.head.c)), ts.tail.tail, ok);
    }
  }

  lemma {:induction false} AddedWord<W>(cmd: Cmd<W>, w: W, ok: W -> bool)
    requires CmdWords(cmd, ok) && ok(w)
    ensures CmdWords(AddWord(cmd, w), ok)
  {
    if cmd.Redir? { AddedWord(cmd.cmd, w, ok); }
  }

  lemma {:induction false} ArgWords<W>(ret: Cmd<W>, argc: int, ts: Toks<W>, ok: W -> bool)
    requires CmdWords(ret, ok) && AllWords(ts, ok)
    ensures var r := Args(ret, argc, ts); r.Ok? ==> CmdWords(r.cmd, ok) && AllWords(r.rest, ok)
    decreases Len(ts)
  {
    if !Peek(ts, "|)&;") && ts != Nil && ts.head.Word? && argc + 1 < MAXARGS {
      AddedWord(ret, ts.head.w, ok);
      RedirWords(AddWord(ret, ts.head.w), ts.tail, ok);
      var r := Redirs(AddWord(ret, ts.head.w), ts.tail);
      if r.Ok? { ArgWords(r.cmd, argc + 1, r.rest, ok); }
    }
  }

  lemma {:induction false} ExecWords<W>(ts: Toks<W>, ok: W -> bool)
    requires AllWords(ts, ok)
    ensures var r := ExecAt(ts); r.Ok? ==> CmdWords(r.cmd, ok) && AllWords(r.rest, ok)
    decreases Len(ts), 1
  {
    if Peek(ts, "(") {
      LineWords(ts.tail, ok);
      var r := LineAt(ts.tail);
      if r.Ok? && Peek(r.rest, ")") { RedirWords(r.cmd, r.rest.tail, ok); }
    } else {
      RedirWords(Exec([]), ts, ok);
      var r := Redirs(Exec([]), ts);
      if r.Ok? { ArgWords(r.cmd, 0, r.rest, ok); }
    }
  }

  lemma {:induction false} PipeWords<W>(ts: Toks<W>, ok: W -> bool)
    requires AllWords(ts, ok)
    ensures var r := PipeAt(ts); r.Ok? ==> CmdWords(r.cmd, ok) && AllWords(r.rest, ok)
    decreases Len(ts), 2
  {
    ExecWords(ts, ok);
    var r := ExecAt(ts);
    if r.Ok? && Peek(r.rest, "|") { PipeWords(r.rest.tail, ok); }
  }

  lemma {:induction false} AmpWords<W>(cmd: Cmd<W>, ts: Toks<W>, ok: W -> bool)
    requires CmdWords(cmd, ok) && AllWords(ts, ok)
    ensures var r := Amps(cmd, ts); CmdWords(r.cmd, ok) && AllWords(r.rest, ok)
    decreases Len(ts)
  {
    if Peek(ts, "&") { AmpWords(Back(cmd), ts.tail, ok); }
  }

  /** The words of a command are words of the line. */
  lemma {:induction false} LineWords<W>(ts: Toks<W>, ok: W -> bool)
    requires AllWords(ts, ok)
    ensures var r := LineAt(ts); r.Ok? ==> CmdWords(r.cmd, ok) && AllWords(r.rest, ok)
    decreases Len(ts), 3
  {
    PipeWords(ts, ok);
    var r := PipeAt(ts);
    if r.Ok? {
      AmpWords(r.cmd, r.rest, ok);
      var amped := Amps(r.cmd, r.rest);
      if Peek(amped.rest, ";") { LineWords(amped.rest.tail, ok); }
    }
  }

  lemma {:induction false} LexWords(line: string, i: int)
    requires Line(line) && 0 <= i <= |line|
    ensures AllWords(Lex(line, i), (sp: Span) => WordAt(line, sp))
    decreases |line| - i
  {
    var s := Skip(line, i);
    if s < |line| {
      if line[s] == '>' && s + 1 < |line| && line[s + 1] == '>' {
        LexWords(line, s + 2);
      } else if Symbol(line[s]) {
        LexWords(line, s + 1);
      } else {
        var e := WordEnd(line, s);
        LexWords(line, e);
        assert forall k :: s <= k < e ==> line[k] in line;
        assert WordAt(line, Span(s, e));
      }
    }
  }

  /** The buffer still has every character of every word of the line, and the NUL. */
  ghost predicate Spared(line: string, buf: string)
  {
    |buf| == |line| + 1 && buf[|line|] == NUL && forall k :: 0 <= k < |line| && WordChar(line[k]) ==> buf[k] == line[k]
  }

  ghost predicate KeepsNuls(buf: string, buf': string)
  {
    |buf'| == |buf| && forall k :: 0 <= k < |buf| && buf[k] == NUL ==> buf'[k] == NUL
  }

  lemma OneEnd(line: string, buf: string, sp: Span)
    requires Spared(line, buf) && WordAt(line, sp)
    ensures Spared(line, buf[sp.eq := NUL]) && KeepsNuls(buf, buf[sp.eq := NUL])
  {
  }

  lemma {:induction false} EndAllKeeps(line: string, buf: string, ws: seq<Span>)
    requires Spared(line, buf) && forall i :: 0 <= i < |ws| ==> WordAt(line, ws[i]) && 0 <= ws[i].eq < |buf|
    ensures Spared(line, EndAll(buf, ws)) && KeepsNuls(buf, EndAll(buf, ws))
    ensures forall i :: 0 <= i < |ws| ==> EndAll(buf, ws)[ws[i].eq] == NUL
    decreases |ws|
  {
    if ws != [] {
      OneEnd(line, buf, ws[0]);
      EndAllKeeps(line, buf[ws[0].eq := NUL], ws[1..]);
    }
  }

  lemma {:induction false} WordsWithin(line: string, cmd: Cmd<Span>)
    requires CmdWords(cmd, (sp: Span) => WordAt(line, sp))
    ensures Within(cmd, |line| + 1)
  {
    match cmd
    case Exec(_) =>
    case Redir(c, _, _) => WordsWithin(line, c);
    case PipeCmd(left, right) => WordsWithin(line, left); WordsWithin(line, right);
    case ListCmd(left, right) => WordsWithin(line, left); WordsWithin(line, right);
    case Back(c) => WordsWithin(line, c);
  }

  /** No NUL lands inside a word, and one lands behind every word. */
  lemma {:induction false} TerminatedKeeps(line: string, buf: string, cmd: Cmd<Span>)
    requires Spared(line, buf) && CmdWords(cmd, (sp: Span) => WordAt(line, sp)) && Within(cmd, |buf|)
    ensures Spared(line, Terminated(buf, cmd)) && KeepsNuls(buf, Terminated(buf, cmd)) && EndsIn(cmd, Terminated(buf, cmd))
    decreases cmd
  {
    match cmd
    case Exec(argv) => EndAllKeeps(line, buf, argv);
    case Redir(c, file, _) =>
      TerminatedKeeps(line, buf, c);
      OneEnd(line, Terminated(buf, c), file);
      EndsStay(c, Terminated(buf, c), Terminated(buf, cmd));
    case PipeCmd(left, right) =>
      TerminatedKeeps(line, buf, left);
      TerminatedKeeps(line, Terminated(buf, left), right);
      EndsStay(left, Terminated(buf, left), Terminated(buf, cmd));
    case ListCmd(left, right) =>
      TerminatedKeeps(line, buf, left);
      TerminatedKeeps(line, Terminated(buf, left), right);
      EndsStay(left, Terminated(buf, left), Terminated(buf, cmd));
    case Back(c) => TerminatedKeeps(line, buf, c);
  }

  /** Behind every word of the command there is a NUL. */
  ghost predicate EndsIn(cmd: Cmd<Span>, buf: string)
  {
    match cmd
    case Exec(argv) => forall i :: 0 <= i < |argv| ==> 0 <= argv[i].eq < |buf| && buf[argv[i].eq] == NUL
    case Redir(c, file, _) => EndsIn(c, buf) && 0 <= file.eq < |buf| && buf[file.eq] == NUL
    case PipeCmd(left, right) => EndsIn(left, buf) && EndsIn(right, buf)
    case ListCmd(left, right) => EndsIn(left, buf) && EndsIn(right, buf)
    case Back(c) => EndsIn(c, buf)
  }

  lemma {:induction false} EndsStay(cmd: Cmd<Span>, buf: string, buf': string)
    requires EndsIn(cmd, buf) && KeepsNuls(buf, buf')
    ensures EndsIn(cmd, buf')
    decreases cmd
  {
    match cmd
    case Exec(_) =>
    case Redir(c, _, _) => EndsStay(c, buf, buf');
    case PipeCmd(left, right) => EndsStay(left, buf, buf'); EndsStay(right, buf, buf');
    case ListCmd(left, right) => EndsStay(left, buf, buf'); EndsStay(right, buf, buf');
    case Back(c) => EndsStay(c, buf, buf');
  }

  lemma {:induction false} ReadsBack(line: string, buf: string, q: int, eq: int)
    requires Spared(line, buf) && 0 <= q <= eq <= |line| && buf[eq] == NUL && forall k :: q <= k < eq ==> WordChar(line[k])
    ensures CString(buf, q) == line[q..eq]
    decreases eq - q
  {
    if q < eq {
      ReadsBack(line, buf, q + 1, eq);
      assert line[q..eq] == [line[q]] + line[q + 1..eq];
    }
  }

  lemma {:induction false} AllReadBack(line: string, buf: string, cmd: Cmd<Span>)
    requires Spared(line, buf) && EndsIn(cmd, buf) && CmdWords(cmd, (sp: Span) => WordAt(line, sp))
    ensures MapCmd(Reading(buf), cmd) == MapCmd(Spelling(line), cmd)
    decreases cmd
  {
    match cmd
    case Exec(argv) =>
      forall i | 0 <= i < |argv| ensures CString(buf, argv[i].q) == line[argv[i].q..argv[i].eq] {
        ReadsBack(line, buf, argv[i].q, argv[i].eq);
      }
      assert MapWords(Reading(buf), argv) == MapWords(Spelling(line), argv);
    case Redir(c, file, _) =>
      AllReadBack(line, buf, c);
      ReadsBack(line, buf, file.q, file.eq);
    case PipeCmd(left, right) => AllReadBack(line, buf, left); AllReadBack(line, buf, right);
    case ListCmd(left, right) => AllReadBack(line, buf, left); AllReadBack(line, buf, right);
    case Back(c) => AllReadBack(line, buf, c);
  }

  /** What a program sees that is handed the pointer to a word. */
  function Reading(buf: string): Span -> string
  {
    (sp: Span) => if 0 <= sp.q <= |buf| then CString(buf, sp.q) else ""
  }

  /** What stands between the two pointers. */
  function Spelling(line: string): Span -> string
  {
    (sp: Span) => if 0 <= sp.q <= sp.eq <= |line| then line[sp.q..sp.eq] else ""
  }

  /** After nulterminate every word and file name reads as exactly what the line spelled. */
  ghost predicate Intact(line: string, cmd: Cmd<Span>)
  {
    && Within(cmd, |line + [NUL]|)
    && MapCmd(Reading(Terminated(line + [NUL], cmd)), cmd) == MapCmd(Spelling(line), cmd)
  }

  lemma CommandReadsBack(line: string, cmd: Cmd<Span>)
    requires Line(line) && CmdWords(cmd, (sp: Span) => WordAt(line, sp))
    ensures Intact(line, cmd)
  {
    WordsWithin(line, cmd);
    TerminatedKeeps(line, line + [NUL], cmd);
    AllReadBack(line, Terminated(line + [NUL], cmd), cmd);
  }

  /** No NUL lands inside another token of a parsed line. */
  lemma WordsReadBack(line: string, cmd: Cmd<Span>)
    requires Line(line) && CmdAt(Lex(line, 0)) == Ok(cmd, Nil)
    ensures Intact(line, cmd)
  {
    LexWords(line, 0);
    LineWords(Lex(line, 0), (sp: Span) => WordAt(line, sp));
    CommandReadsBack(line, cmd) by { hide Lex; }
    hide *;
  }

  // ---- parsing a printed line ----

  function Spelled(t: Tok<string>): string
  {
    match t
    case Word(w) => w
    case Sym(c) => if c == '+' then ">>" else [c]
  }

  /** The text of some tokens: each followed by a blank. */
  function Spell(ts: Toks<string>): string
  {
    if ts == Nil then "" else Spelled(ts.head) + " " + Spell(ts.tail)
  }

  /** A string that can be one word of a line. */
  ghost predicate Plain(w: string)
  {
    |w| > 0 && forall k :: 0 <= k < |w| ==> WordChar(w[k])
  }

  ghost predicate Writable(t: Tok<string>)
  {
    match t
    case Word(w) => Plain(w)
    case Sym(c) => Symbol(c) || c == '+'
  }

  ghost predicate Printable(ts: Toks<string>)
  {
    ts == Nil || (Writable(ts.head) && Printable(ts.tail))
  }

  lemma {:induction false} WordEndsAt(line: string, i: int, e: int)
    requires 0 <= i <= e < |line| && line[e] == ' ' && forall k :: i <= k < e ==> WordChar(line[k])
    ensures WordEnd(line, i) == e
    decreases e - i
  {
    if i < e { WordEndsAt(line, i + 1, e); }
  }

  /** The text w stands at position i, with a blank behind it. */
  ghost predicate TextAt(line: string, i: int, w: string)
  {
    0 <= i && i + |w| < |line| && line[i + |w|] == ' ' && forall k :: 0 <= k < |w| ==> line[i + k] == w[k]
  }

  lemma ScanWord(line: string, i: int, w: string)
    requires Plain(w) && TextAt(line, i, w)
    ensures Lex(line, i) == Cons(Word(Span(i, i + |w|)), Lex(line, i + |w| + 1))
    ensures Spelling(line)(Span(i, i + |w|)) == w
  {
    forall k | i <= k < i + |w| ensures WordChar(line[k]) {
      assert line[i + (k - i)] == w[k - i];
    }
    WordEndsAt(line, i, i + |w|);
    NextBlank(line, i + |w|);
    assert line[i..i + |w|] == w;
  }

  lemma ScanSymbol(line: string, i: int, c: char)
    requires Symbol(c) && TextAt(line, i, [c])
    ensures Lex(line, i) == Cons(Sym(c), Lex(line, i + 2))
  {
    assert [c][0] == c && line[i + 0] == c;
    NextBlank(line, i + 1);
  }

  lemma ScanAppend(line: string, i: int)
    requires TextAt(line, i, ">>")
    ensures Lex(line, i) == Cons(Sym('+'), Lex(line, i + 3))
  {
    assert ">>"[0] == '>' && ">>"[1] == '>' && line[i + 0] == '>' && line[i + 1] == '>';
    NextBlank(line, i + 2);
  }

  lemma NextBlank(line: string, i: int)
    requires 0 <= i < |line| && line[i] == ' '
    ensures Lex(line, i) == Lex(line, i + 1)
  {
    assert Skip(line, i) == Skip(line, i + 1);
  }

  /** What remains of the text begins with w and a blank. */
  lemma Piece(line: string, i: int, w: string, rest: string)
    requires 0 <= i <= |line| && line[i..] == w + " " + rest
    ensures TextAt(line, i, w) && line[i + |w| + 1..] == rest
  {
    var text := line[i..];
    assert text[|w|] == ' ' && text[|w| + 1..] == rest;
    forall k | 0 <= k < |w| ensures line[i + k] == w[k] {
      assert text[k] == w[k];
    }
  }

  /** A token standing in the line is scanned. */
  lemma ScanText(line: string, i: int, t: Tok<string>)
    requires Writable(t) && TextAt(line, i, Spelled(t))
    ensures var j := i + |Spelled(t)| + 1;
            && i < j <= |line| && Lex(line, i).Cons? && Lex(line, i).tail == Lex(line, j)
            && match t
               case Word(w) => Lex(line, i).head.Word? && Spelling(line)(Lex(line, i).head.w) == w
               case Sym(c) => Lex(line, i).head == Sym(c)
  {
    hide Lex, Plain, Symbol, Spelling;
    match t {
      case Word(w) => ScanWord(line, i, w);
      case Sym('+') => ScanAppend(line, i);
      case Sym(c) => ScanSymbol(line, i, c);
    }
  }

  lemma ScanOne(line: string, i: int, ts: Toks<string>) returns (j: int)
    requires Printable(ts) && ts.Cons? && 0 <= i <= |line| && line[i..] == Spell(ts)
    ensures i < j <= |line| && line[j..] == Spell(ts.tail) && Lex(line, i).Cons? && Lex(line, i).tail == Lex(line, j)
    ensures match ts.head
            case Word(w) => Lex(line, i).head.Word? && Spelling(line)(Lex(line, i).head.w) == w
            case Sym(c) => Lex(line, i).head == Sym(c)
  {
    hide Lex, Writable, Spelled, Spelling, TextAt;
    var w, rest := Spelled(ts.head), Spell(ts.tail);
    Piece(line, i, w, rest);
    hide Spell;
    ScanText(line, i, ts.head);
    j := i + |w| + 1;
  }

  /** Scanning the text gives the tokens back. */
  lemma {:induction false} LexSpell(line: string, i: int, ts: Toks<string>)
    requires Printable(ts) && 0 <= i <= |line| && line[i..] == Spell(ts)
    ensures MapToks(Spelling(line), Lex(line, i)) == ts
    decreases ts
  {
    if ts == Nil {
      assert i == |line|;
    } else {
      hide Lex, Writable, Spelling, Spell;
      var j := ScanOne(line, i, ts);
      LexSpell(line, j, ts.tail);
    }
  }

  /** What of a text is not white space. */
  function Ink(s: string): string
  {
    if s == "" then "" else (if White(s[0]) then "" else [s[0]]) + Ink(s[1..])
  }

  function Glued(ts: Toks<string>): string
  {
    if ts == Nil then "" else Spelled(ts.head) + Glued(ts.tail)
  }

  lemma {:induction false} InkSkip(line: string, i: int)
    requires 0 <= i <= |line|
    ensures Ink(line[i..]) == Ink(line[Skip(line, i)..])
    decreases |line| - i
  {
    if i < |line| && White(line[i]) {
      assert line[i..][1..] == line[i + 1..];
      InkSkip(line, i + 1);
    }
  }

  lemma {:induction false} InkWord(line: string, i: int, e: int)
    requires 0 <= i <= e <= |line| && forall k :: i <= k < e ==> !White(line[k])
    ensures Ink(line[i..]) == line[i..e] + Ink(line[e..])
    decreases e - i
  {
    if i < e {
      assert line[i..][1..] == line[i + 1..] && line[i..e] == [line[i]] + line[i + 1..e];
      InkWord(line, i + 1, e);
    }
  }

  /** No character of a line is lost or read twice, whatever the white space. */
  lemma {:induction false} LexInk(line: string, i: int)
    requires 0 <= i <= |line|
    ensures Glued(MapToks(Spelling(line), Lex(line, i))) == Ink(line[i..])
    decreases |line| - i
  {
    hide Lex, Ink, Spelling, MapToks, Glued, Symbol, White;
    var s := Skip(line, i);
    InkSkip(line, i);
    LexAt(line, i, s);
    if s == |line| {
      InkEnd(line);
    } else {
      var e := OneGlued(line, i, s);
      InkWord(line, s, e);
      LexInk(line, e);
    }
  }

  /** The text of one token is what stands in the line. */
  lemma OneGlued(line: string, i: int, s: int) returns (e: int)
    requires 0 <= i <= |line| && s == Skip(line, i) && s < |line|
    ensures s < e <= |line| && forall k :: s <= k < e ==> !White(line[k])
    ensures Glued(MapToks(Spelling(line), Lex(line, i))) == line[s..e] + Glued(MapToks(Spelling(line), Lex(line, e)))
  {
    hide Lex, Skip, WordEnd;
    LexAt(line, i, s);
    if line[s] == '>' && s + 1 < |line| && line[s + 1] == '>' {
      e := s + 2;
      assert line[s..e] == ">>";
    } else if Symbol(line[s]) {
      e := s + 1;
      assert line[s..e] == [line[s]] && line[s] != '+';
    } else {
      e := WordEnd(line, s);
    }
  }

  lemma InkEnd(line: string)
    ensures Ink(line[|line|..]) == "" && Glued(MapToks<Span, string>(Spelling(line), Nil)) == ""
  {
  }

  /** A command whose every word can be written in a line. */
  ghost predicate PlainCmd(t: Cmd<string>)
  {
    CmdWords(t, (w: string) => Plain(w))
  }

  lemma {:induction false} WordsPrintable(ws: seq<string>, k: Toks<string>)
    requires (forall i :: 0 <= i < |ws| ==> Plain(ws[i])) && Printable(k)
    ensures Printable(Words(ws, k))
    decreases |ws|
  {
    if ws != [] { WordsPrintable(ws[1..], k); }
  }

  lemma {:induction false} ExecPrintable(t: Cmd<string>, k: Toks<string>)
    requires PlainCmd(t) && Printable(k)
    ensures Printable(PrintExec(t, k)) && Printable(PrintPipe(t, k)) && Printable(PrintAmps(t, k))
    decreases t, 1
  {
    var close := Cons(Sym(')'), k);
    LinePrintable(t, close);
    LinePrintable(t, k);
  }

  lemma {:induction false} LinePrintable(t: Cmd<string>, k: Toks<string>)
    requires PlainCmd(t) && Printable(k)
    ensures Printable(PrintLine(t, k))
    decreases t, 0
  {
    match t
    case Exec(argv) => WordsPrintable(argv, k);
    case Redir(cmd, file, mode) => ExecPrintable(cmd, Cons(Sym(ModeSym(mode)), Cons(Word(file), k)));
    case PipeCmd(left, right) =>
      ExecPrintable(right, k);
      ExecPrintable(left, Cons(Sym('|'), PrintPipe(right, k)));
    case ListCmd(left, right) =>
      LinePrintable(right, k);
      ExecPrintable(left, Cons(Sym(';'), PrintLine(right, k)));
    case Back(cmd) => ExecPrintable(cmd, Cons(Sym('&'), k));
  }

  lemma {:induction false} SpellLine(ts: Toks<string>)
    requires Printable(ts)
    ensures Line(Spell(ts))
  {
    if ts != Nil {
      SpellLine(ts.tail);
      assert NUL !in Spelled(ts.head);
    }
  }

  /** The canonical text of a command. */
  function Text(t: Cmd<string>): string
  {
    Spell(PrintLine(t, Nil))
  }

  lemma {:induction false} MapNil<W, V>(f: W -> V, ts: Toks<W>)
    ensures MapToks(f, ts) == Nil <==> ts == Nil
  {
  }

  lemma TextScans(t: Cmd<string>)
    requires PlainCmd(t)
    ensures Line(Text(t)) && MapToks(Spelling(Text(t)), Lex(Text(t), 0)) == PrintLine(t, Nil)
  {
    hide Lex, PrintLine, PlainCmd, Line;
    var ts := PrintLine(t, Nil);
    LinePrintable(t, Nil);
    SpellLine(ts);
    assert Text(t)[0..] == Spell(ts);
    LexSpell(Text(t), 0, ts);
  }

  lemma TextParses(t: Cmd<string>, ts: Toks<Span>, f: Span -> string)
    requires MapToks(f, ts) == PrintLine(t, Nil)
    ensures CmdAt(ts).Ok? <==> Fits(t)
    ensures CmdAt(ts).Ok? ==> CmdAt(ts).rest == Nil && MapCmd(f, CmdAt(ts).cmd) == t
  {
    MapLineAt(f, ts);
    if Fits(t) {
      LineBack(t, Nil);
      MapNil(f, LineAt(ts).rest);
    } else {
      LineFails(t, Nil);
    }
  }

  /** Parsing the line gives t back, and its words survive nulterminate. */
  ghost predicate Rebuilds(line: string, r: Result<Span>, t: Cmd<string>)
  {
    r.Ok? && r.rest == Nil && MapCmd(Spelling(line), r.cmd) == t && Intact(line, r.cmd)
  }

  lemma Rebuilt(line: string, ts: Toks<Span>, t: Cmd<string>)
    requires Line(line) && ts == Lex(line, 0) && MapToks(Spelling(line), ts) == PrintLine(t, Nil)
    ensures if Fits(t) then Rebuilds(line, CmdAt(ts), t) else CmdAt(ts) == Syntax
  {
    TextParses(t, ts, Spelling(line));
    hide CmdAt, Lex, Fits, Intact, Line, MapCmd, MapToks, PrintLine;
    if CmdAt(ts).Ok? { WordsReadBack(line, CmdAt(ts).cmd); }
  }

  /** parsecmd accepts the text of a tree exactly when no command in it has more than nine words,
      and then it rebuilds the tree. */
  lemma ParseUndoesPrint(t: Cmd<string>)
    requires PlainCmd(t)
    ensures Line(Text(t))
    ensures if Fits(t) then Rebuilds(Text(t), CmdAt(Lex(Text(t), 0)), t) else CmdAt(Lex(Text(t), 0)) == Syntax
  {
    hide *;
    TextScans(t);
    Rebuilt(Text(t), Lex(Text(t), 0), t);
  }
}
