/** The grammar of command lines, told apart from the parser, and that the parser accepts exactly
    its sentences and builds the tree that each of them means (user/sh.c 500-590). */
module ShellSyntax {
  import opened Shell
  import opened ShellGrammar

  /** A simple command: words and redirections in any order. */
  datatype Pieces<W> = End | Arg(w: W, more: Pieces<W>) | Into(file: W, mode: Mode, more: Pieces<W>)

  datatype Unit<W> = Simple(pieces: Pieces<W>) | Block(inside: Sentence<W>, files: Files<W>)

  datatype Pipeline<W> = Last(unit: Unit<W>) | Bar(unit: Unit<W>, rest: Pipeline<W>)

  /** A pipeline with some number of & behind it, alone or in front of ; and a sentence. */
  datatype Sentence<W> = Only(pipe: Pipeline<W>, amps: nat) | Then(pipe: Pipeline<W>, amps: nat, rest: Sentence<W>)

  // ---- the tokens of a sentence, followed by k ----

  function PiecesToks<W>(ps: Pieces<W>, k: Toks<W>): Toks<W>
  {
    match ps
    case End => k
    case Arg(w, more) => Cons(Word(w), PiecesToks(more, k))
    case Into(file, mode, more) => Cons(Sym(ModeSym(mode)), Cons(Word(file), PiecesToks(more, k)))
  }

  function UnitToks<W>(u: Unit<W>, k: Toks<W>): Toks<W>
  {
    match u
    case Simple(pieces) => PiecesToks(pieces, k)
    case Block(inside, files) => Cons(Sym('('), SentenceToks(inside, Cons(Sym(')'), PrintFiles(files, k))))
  }

  function PipelineToks<W>(p: Pipeline<W>, k: Toks<W>): Toks<W>
  {
    match p
    case Last(unit) => UnitToks(unit, k)
    case Bar(unit, rest) => UnitToks(unit, Cons(Sym('|'), PipelineToks(rest, k)))
  }

  function AmpToks<W>(n: nat, k: Toks<W>): Toks<W>
  {
    if n == 0 then k else Cons(Sym('&'), AmpToks(n - 1, k))
  }

  function SentenceToks<W>(s: Sentence<W>, k: Toks<W>): Toks<W>
  {
    match s
    case Only(pipe, amps) => PipelineToks(pipe, AmpToks(amps, k))
    case Then(pipe, amps, rest) => PipelineToks(pipe, AmpToks(amps, Cons(Sym(';'), SentenceToks(rest, k))))
  }

  // ---- the tree it means ----

  /** The words of a simple command in order, wherever redirections stand between them. */
  function WordsOf<W>(ps: Pieces<W>): seq<W>
  {
    match ps
    case End => []
    case Arg(w, more) => [w] + WordsOf(more)
    case Into(_, _, more) => WordsOf(more)
  }

  /** Its redirections in order, the first one innermost. */
  function FilesOf<W>(ps: Pieces<W>): Files<W>
  {
    match ps
    case End => NoFile
    case Arg(_, more) => FilesOf(more)
    case Into(file, mode, more) => File(file, mode, FilesOf(more))
  }

  function UnitTree<W>(u: Unit<W>): Cmd<W>
  {
    match u
    case Simple(pieces) => Wrap(Exec(WordsOf(pieces)), FilesOf(pieces))
    case Block(inside, files) => Wrap(SentenceTree(inside), files)
  }

  function PipelineTree<W>(p: Pipeline<W>): Cmd<W>
  {
    match p
    case Last(unit) => UnitTree(unit)
    case Bar(unit, rest) => PipeCmd(UnitTree(unit), PipelineTree(rest))
  }

  function Backs<W>(n: nat, t: Cmd<W>): Cmd<W>
  {
    if n == 0 then t else Backs(n - 1, Back(t))
  }

  function SentenceTree<W>(s: Sentence<W>): Cmd<W>
  {
    match s
    case Only(pipe, amps) => Backs(amps, PipelineTree(pipe))
    case Then(pipe, amps, rest) => ListCmd(Backs(amps, PipelineTree(pipe)), SentenceTree(rest))
  }

  // ---- at most nine words a command ----

  predicate UnitFits<W>(u: Unit<W>)
  {
    match u
    case Simple(pieces) => |WordsOf(pieces)| < MAXARGS
    case Block(inside, _) => SentenceFits(inside)
  }

  predicate PipelineFits<W>(p: Pipeline<W>)
  {
    UnitFits(p.unit) && (p.Bar? ==> PipelineFits(p.rest))
  }

  predicate SentenceFits<W>(s: Sentence<W>)
  {
    PipelineFits(s.pipe) && (s.Then? ==> SentenceFits(s.rest))
  }

  // ---- redirections around a command ----

  /** A word behind a redirection still goes to the exec node at the bottom. */
  lemma {:induction false} AddWrap<W>(cmd: Cmd<W>, fs: Files<W>, w: W)
    ensures AddWord(Wrap(cmd, fs), w) == Wrap(AddWord(cmd, w), fs)
    decreases fs
  {
    if fs.File? { AddWrap(Redir(cmd, fs.file, fs.mode), fs.others, w); }
  }

  function Joined<W>(fs: Files<W>, gs: Files<W>): Files<W>
  {
    if fs.NoFile? then gs else File(fs.file, fs.mode, Joined(fs.others, gs))
  }

  lemma {:induction false} WrapOne<W>(cmd: Cmd<W>, fs: Files<W>, file: W, mode: Mode)
    ensures Redir(Wrap(cmd, fs), file, mode) == Wrap(cmd, Joined(fs, File(file, mode, NoFile)))
    decreases fs
  {
    if fs.File? { WrapOne(Redir(cmd, fs.file, fs.mode), fs.others, file, mode); }
  }

  lemma {:induction false} JoinedOne<W>(fs: Files<W>, file: W, mode: Mode, gs: Files<W>)
    ensures Joined(Joined(fs, File(file, mode, NoFile)), gs) == Joined(fs, File(file, mode, gs))
    decreases fs
  {
    if fs.File? { JoinedOne(fs.others, file, mode, gs); }
  }

  lemma {:induction false} JoinedNone<W>(fs: Files<W>)
    ensures Joined(fs, NoFile) == fs && Joined(NoFile, fs) == fs
    decreases fs
  {
    if fs.File? { JoinedNone(fs.others); }
  }

  // ---- every sentence is parsed as what it means, or rejected for a command too long ----

  /** The rest of a simple command, behind the words ws and the redirections fs, is parsed. */
  ghost predicate Parsed<W>(ws: seq<W>, fs: Files<W>, ps: Pieces<W>, k: Toks<W>)
  {
    var r := Redirs(Wrap(Exec(ws), fs), PiecesToks(ps, k));
    r.Ok? && Args(r.cmd, |ws|, r.rest) ==
      if |ws| + |WordsOf(ps)| < MAXARGS then Ok(Wrap(Exec(ws + WordsOf(ps)), Joined(fs, FilesOf(ps))), k) else Syntax
  }

  lemma EndParsed<W>(ws: seq<W>, fs: Files<W>, k: Toks<W>)
    requires Follows(k, "|)&;") && |ws| < MAXARGS
    ensures Parsed(ws, fs, End, k)
  {
    assert ws + WordsOf<W>(End) == ws;
    JoinedNone(fs);
    hide Wrap, Joined;
  }

  lemma ArgParsed<W>(ws: seq<W>, fs: Files<W>, w: W, more: Pieces<W>, k: Toks<W>)
    requires |ws| < MAXARGS && (|ws| + 1 < MAXARGS ==> Parsed(ws + [w], fs, more, k))
    ensures Parsed(ws, fs, Arg(w, more), k)
  {
    var ps, ret := Arg(w, more), Wrap(Exec(ws), fs);
    assert ws + WordsOf(ps) == ws + [w] + WordsOf(more);
    AddWrap(Exec(ws), fs, w);
    assert AddWord(Exec(ws), w) == Exec(ws + [w]);
    var ts := PiecesToks(more, k);
    assert PiecesToks(ps, k) == Cons(Word(w), ts);
    hide Wrap, Joined, AddWord, PiecesToks;
    assert Redirs(ret, Cons(Word(w), ts)) == Ok(ret, Cons(Word(w), ts));
  }

  lemma IntoParsed<W>(ws: seq<W>, fs: Files<W>, file: W, mode: Mode, more: Pieces<W>, k: Toks<W>)
    requires Parsed(ws, Joined(fs, File(file, mode, NoFile)), more, k)
    ensures Parsed(ws, fs, Into(file, mode, more), k)
  {
    WrapOne(Exec(ws), fs, file, mode);
    JoinedOne(fs, file, mode, FilesOf(more));
    hide Wrap, Joined, Args;
  }

  lemma {:induction false} PiecesParsed<W>(ws: seq<W>, fs: Files<W>, ps: Pieces<W>, k: Toks<W>)
    requires Follows(k, "|)&;") && |ws| < MAXARGS
    ensures Parsed(ws, fs, ps, k)
    decreases ps
  {
    hide *;
    match ps
    case End => EndParsed(ws, fs, k);
    case Arg(w, more) =>
      if |ws| + 1 < MAXARGS { PiecesParsed(ws + [w], fs, more, k); }
      ArgParsed(ws, fs, w, more, k);
    case Into(file, mode, more) =>
      PiecesParsed(ws, Joined(fs, File(file, mode, NoFile)), more, k);
      IntoParsed(ws, fs, file, mode, more, k);
  }

  function Meant<W>(fits: bool, t: Cmd<W>, k: Toks<W>): Result<W>
  {
    if fits then Ok(t, k) else Syntax
  }

  lemma {:induction false} UnitParsed<W>(u: Unit<W>, k: Toks<W>)
    requires Follows(k, "|)&;")
    ensures ExecAt(UnitToks(u, k)) == Meant(UnitFits(u), UnitTree(u), k)
    decreases u
  {
    match u
    case Simple(pieces) =>
      PiecesParsed([], NoFile, pieces, k);
      JoinedNone(FilesOf(pieces));
      assert [] + WordsOf(pieces) == WordsOf(pieces);
    case Block(inside, files) =>
      SentenceParsed(inside, Cons(Sym(')'), PrintFiles(files, k)));
      RedirsBack(SentenceTree(inside), files, k);
  }

  lemma {:induction false} PipelineParsed<W>(p: Pipeline<W>, k: Toks<W>)
    requires Follows(k, ")&;")
    ensures PipeAt(PipelineToks(p, k)) == Meant(PipelineFits(p), PipelineTree(p), k)
    decreases p
  {
    match p
    case Last(unit) => UnitParsed(unit, k);
    case Bar(unit, rest) =>
      UnitParsed(unit, Cons(Sym('|'), PipelineToks(rest, k)));
      PipelineParsed(rest, k);
  }

  lemma {:induction false} AmpsParsed<W>(t: Cmd<W>, n: nat, k: Toks<W>)
    requires !Peek(k, "&")
    ensures Amps(t, AmpToks(n, k)) == Ok(Backs(n, t), k)
    decreases n
  {
    if n > 0 { AmpsParsed(Back(t), n - 1, k); }
  }

  lemma AmpsFollow<W>(n: nat, k: Toks<W>)
    requires Follows(k, ");")
    ensures Follows(AmpToks(n, k), ")&;")
  {
  }

  /** parseline on the tokens of a sentence. */
  lemma {:induction false} SentenceParsed<W>(s: Sentence<W>, k: Toks<W>)
    requires Follows(k, ")")
    ensures LineAt(SentenceToks(s, k)) == Meant(SentenceFits(s), SentenceTree(s), k)
    decreases s
  {
    var k' := if s.Then? then Cons(Sym(';'), SentenceToks(s.rest, k)) else k;
    AmpsFollow(s.amps, k');
    PipelineParsed(s.pipe, AmpToks(s.amps, k'));
    AmpsParsed(PipelineTree(s.pipe), s.amps, k');
    if s.Then? { SentenceParsed(s.rest, k); }
  }

  // ---- and nothing else is accepted ----

  lemma {:induction false} FilesFound<W>(cmd: Cmd<W>, ts: Toks<W>) returns (fs: Files<W>)
    requires Redirs(cmd, ts).Ok?
    ensures PrintFiles(fs, Redirs(cmd, ts).rest) == ts && Redirs(cmd, ts).cmd == Wrap(cmd, fs)
    decreases ts
  {
    if Peek(ts, "<>+") {
      var others := FilesFound(Redir(cmd, ts.tail.head.w, ModeOf(ts.head.c)), ts.tail.tail);
      fs := File(ts.tail.head.w, ModeOf(ts.head.c), others);
    } else {
      fs := NoFile;
    }
  }

  /** Redirections in front of a simple command. */
  function Led<W>(fs: Files<W>, ps: Pieces<W>): Pieces<W>
  {
    if fs.NoFile? then ps else Into(fs.file, fs.mode, Led(fs.others, ps))
  }

  lemma {:induction false} LedPieces<W>(fs: Files<W>, ps: Pieces<W>, k: Toks<W>)
    ensures PiecesToks(Led(fs, ps), k) == PrintFiles(fs, PiecesToks(ps, k))
    ensures WordsOf(Led(fs, ps)) == WordsOf(ps) && FilesOf(Led(fs, ps)) == Joined(fs, FilesOf(ps))
    decreases fs
  {
    if fs.File? { LedPieces(fs.others, ps, k); }
  }

  lemma {:induction false} WrapJoined<W>(cmd: Cmd<W>, fs: Files<W>, gs: Files<W>)
    ensures Wrap(Wrap(cmd, fs), gs) == Wrap(cmd, Joined(fs, gs))
    decreases fs
  {
    if fs.File? { WrapJoined(Redir(cmd, fs.file, fs.mode), fs.others, gs); }
  }

  lemma {:induction false} JoinedTwice<W>(fs: Files<W>, gs: Files<W>, hs: Files<W>)
    ensures Joined(Joined(fs, gs), hs) == Joined(fs, Joined(gs, hs))
    decreases fs
  {
    if fs.File? { JoinedTwice(fs.others, gs, hs); }
  }

  lemma {:induction false} PiecesFound<W>(ws: seq<W>, fs: Files<W>, ts: Toks<W>) returns (ps: Pieces<W>)
    requires |ws| < MAXARGS && Args(Wrap(Exec(ws), fs), |ws|, ts).Ok?
    ensures var r := Args(Wrap(Exec(ws), fs), |ws|, ts);
      && PiecesToks(ps, r.rest) == ts && |ws| + |WordsOf(ps)| < MAXARGS
      && r.cmd == Wrap(Exec(ws + WordsOf(ps)), Joined(fs, FilesOf(ps)))
    decreases Len(ts)
  {
    var ret := Wrap(Exec(ws), fs);
    if Peek(ts, "|)&;") || ts == Nil {
      ps := End;
      JoinedNone(fs);
      assert ws + WordsOf(ps) == ws;
    } else {
      var w := ts.head.w;
      AddWrap(Exec(ws), fs, w);
      var gs := FilesFound(AddWord(ret, w), ts.tail);
      WrapJoined(Exec(ws + [w]), fs, gs);
      var more := PiecesFound(ws + [w], Joined(fs, gs), Redirs(AddWord(ret, w), ts.tail).rest);
      ps := Arg(w, Led(gs, more));
      LedPieces(gs, more, Args(ret, |ws|, ts).rest);
      JoinedTwice(fs, gs, FilesOf(more));
      assert ws + WordsOf(ps) == ws + [w] + WordsOf(more);
    }
  }

  lemma {:induction false} UnitFound<W>(ts: Toks<W>) returns (u: Unit<W>)
    requires ExecAt(ts).Ok?
    ensures UnitToks(u, ExecAt(ts).rest) == ts && UnitFits(u) && UnitTree(u) == ExecAt(ts).cmd
    decreases Len(ts), 1
  {
    if Peek(ts, "(") {
      var r := LineAt(ts.tail);
      var inside := SentenceFound(ts.tail);
      var files := FilesFound(r.cmd, r.rest.tail);
      u := Block(inside, files);
    } else {
      var fs := FilesFound(Exec([]), ts);
      var more := PiecesFound([], fs, Redirs(Exec([]), ts).rest);
      LedPieces(fs, more, ExecAt(ts).rest);
      assert [] + WordsOf(more) == WordsOf(more);
      u := Simple(Led(fs, more));
    }
  }

  lemma {:induction false} PipelineFound<W>(ts: Toks<W>) returns (p: Pipeline<W>)
    requires PipeAt(ts).Ok?
    ensures PipelineToks(p, PipeAt(ts).rest) == ts && PipelineFits(p) && PipelineTree(p) == PipeAt(ts).cmd
    decreases Len(ts), 2
  {
    var unit := UnitFound(ts);
    var r := ExecAt(ts);
    if Peek(r.rest, "|") {
      var rest := PipelineFound(r.rest.tail);
      p := Bar(unit, rest);
    } else {
      p := Last(unit);
    }
  }

  lemma {:induction false} AmpsFound<W>(t: Cmd<W>, ts: Toks<W>) returns (n: nat)
    ensures AmpToks(n, Amps(t, ts).rest) == ts && Backs(n, t) == Amps(t, ts).cmd
    decreases Len(ts)
  {
    n := 0;
    if Peek(ts, "&") {
      var m := AmpsFound(Back(t), ts.tail);
      n := m + 1;
    }
  }

  /** What parseline accepts is a sentence, and the tree is what that means. */
  lemma {:induction false} SentenceFound<W>(ts: Toks<W>) returns (s: Sentence<W>)
    requires LineAt(ts).Ok?
    ensures SentenceToks(s, LineAt(ts).rest) == ts && SentenceFits(s) && SentenceTree(s) == LineAt(ts).cmd
    decreases Len(ts), 3
  {
    var pipe := PipelineFound(ts);
    var r := PipeAt(ts);
    var amps := AmpsFound(r.cmd, r.rest);
    var amped := Amps(r.cmd, r.rest);
    if Peek(amped.rest, ";") {
      var rest := SentenceFound(amped.rest.tail);
      s := Then(pipe, amps, rest);
    } else {
      s := Only(pipe, amps);
    }
  }

  /** These tokens are a sentence with at most nine words a command that means the tree t. */
  ghost predicate Means<W(!new)>(ts: Toks<W>, t: Cmd<W>)
  {
    exists s: Sentence<W> :: SentenceToks(s, Nil) == ts && SentenceFits(s) && SentenceTree(s) == t
  }

  /** A line is accepted if and only if its tokens are such a sentence, and with its tree. */
  lemma AcceptsSentences<W(!new)>(ts: Toks<W>, t: Cmd<W>)
    ensures LineAt(ts) == Ok(t, Nil) <==> Means(ts, t)
  {
    if LineAt(ts) == Ok(t, Nil) {
      var s := SentenceFound(ts);
      assert SentenceToks(s, Nil) == ts && SentenceFits(s) && SentenceTree(s) == t;
    }
    if Means(ts, t) {
      var s: Sentence<W> :| SentenceToks(s, Nil) == ts && SentenceFits(s) && SentenceTree(s) == t;
      SentenceParsed(s, Nil);
    }
  }

  // ---- lines of characters ----

  /** parsecmd on any line: it is accepted, and with the tree t, if and only if the tokens in it,
      read as strings, are a sentence that means t; and then its words survive nulterminate. */
  lemma AcceptsLines(line: string, t: Cmd<string>)
    requires Line(line)
    ensures Rebuilds(line, CmdAt(Lex(line, 0)), t) <==> Means(MapToks(Spelling(line), Lex(line, 0)), t)
  {
    var ts, f := Lex(line, 0), Spelling(line);
    MapLineAt(f, ts);
    AcceptsSentences(MapToks(f, ts), t);
    if LineAt(ts).Ok? { MapNil(f, LineAt(ts).rest); }
    hide Lex, LineAt, Means, Intact, MapCmd, MapToks, Spelling;
    if CmdAt(ts).Ok? { WordsReadBack(line, CmdAt(ts).cmd); }
  }

  /** The text of a sentence: parsecmd rebuilds its tree, or rejects it exactly for a command of
      more than nine words. */
  lemma SentenceRebuilt(s: Sentence<string>)
    requires Printable(SentenceToks(s, Nil))
    ensures var line := Spell(SentenceToks(s, Nil));
      Line(line) && if SentenceFits(s) then Rebuilds(line, CmdAt(Lex(line, 0)), SentenceTree(s)) else CmdAt(Lex(line, 0)) == Syntax
  {
    hide Lex, SentenceToks, SentenceTree, SentenceFits, Printable, Intact, MapToks, Line;
    var ts := SentenceToks(s, Nil);
    var line := Spell(ts);
    SpellLine(ts);
    assert line[0..] == Spell(ts);
    LexSpell(line, 0, ts);
    SentenceParsed(s, Nil);
    MapLineAt(Spelling(line), Lex(line, 0));
    if SentenceFits(s) {
      assert SentenceToks(s, Nil) == ts && SentenceFits(s) && SentenceTree(s) == SentenceTree(s);
      AcceptsLines(line, SentenceTree(s));
    }
  }
}
