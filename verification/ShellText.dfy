/** user/sh.c: what the characters of a line say, without tokens: which stretches of the text spell which commands. */
module ShellText {
  import opened ShellSpec
  import opened ShellGrammar

  predicate White(c: char) {
    c in " \t\r\n\U{0B}"
  }

  predicate Plain(c: char) {
    !White(c) && c !in "<|>&;()"
  }

  ghost predicate Blanks(line: Line, a: nat, b: nat) {
    a <= b <= |line| && forall k :: a <= k < b ==> White(line[k])
  }

  /** A word: plain characters, up to one that is not. */
  ghost predicate WordAt(line: Line, w: Span) {
    && w.q < w.e <= |line| && (forall k :: w.q <= k < w.e ==> Plain(line[k]))
    && (w.e == |line| || !Plain(line[w.e]))
  }

  /** line[m..b] is the word w between blanks. */
  ghost predicate ArgAt(line: Line, m: nat, b: nat, w: Span) {
    Blanks(line, m, w.q) && WordAt(line, w) && Blanks(line, w.e, b)
  }

  /** At o: < for reading on descriptor 0, or > or >> for writing on descriptor 1, and blanks up to q. */
  ghost predicate OpAt(line: Line, o: nat, q: nat, mode: Mode, fd: nat) {
    && o < |line|
    && if line[o] == '<' then mode == ReadOnly && fd == 0 && Blanks(line, o + 1, q)
       else
         && line[o] == '>' && mode == WriteCreate && fd == 1
         && Blanks(line, if o + 1 < |line| && line[o + 1] == '>' then o + 2 else o + 1, q)
  }

  /** line[m..b] is a redirection between blanks. */
  ghost predicate RedirAt(line: Line, m: nat, b: nat, file: Span, mode: Mode, fd: nat) {
    exists o :: && m <= o && Blanks(line, m, o) && OpAt(line, o, file.q, mode, fd)
                && WordAt(line, file) && Blanks(line, file.e, b)
  }

  /** The arguments of a command inside its redirections. */
  function Argv(c: Cmd): seq<Span> {
    match c
    case Exec(argv) => argv
    case Redir(sub, _, _, _) => Argv(sub)
    case _ => []
  }

  /** The command without its last argument. */
  function Shorter(c: Cmd): Cmd {
    match c
    case Exec(argv) => if argv == [] then c else Exec(argv[..|argv| - 1])
    case Redir(sub, file, mode, fd) => Redir(Shorter(sub), file, mode, fd)
    case _ => c
  }

  /** line[a..b] is a simple command: nothing, or one followed by an argument or by a redirection; the later a
      redirection, the further outside it is. */
  ghost predicate SpellsSimple(line: Line, c: Cmd, a: nat, b: nat)
    decreases b - a
  {
    || (c == Exec([]) && Blanks(line, a, b))
    || (c.Redir? && exists m :: && a <= m < b && SpellsSimple(line, c.sub, a, m)
                                && RedirAt(line, m, b, c.file, c.mode, c.fd))
    || (Argv(c) != [] && exists m :: && a <= m < b && SpellsSimple(line, Shorter(c), a, m)
                                     && ArgAt(line, m, b, Argv(c)[|Argv(c)| - 1]))
  }

  /** line[a..b] is a line in parentheses, or that and redirections. */
  ghost predicate SpellsBlock(line: Line, c: Cmd, a: nat, b: nat)
    decreases b - a, 0
  {
    || (exists i, m :: && a < i <= m < b <= |line| && Blanks(line, a, i - 1) && line[i - 1] == '('
                       && SpellsLine(line, c, i, m) && line[m] == ')' && Blanks(line, m + 1, b))
    || (c.Redir? && exists m :: && a <= m < b && SpellsBlock(line, c.sub, a, m)
                                && RedirAt(line, m, b, c.file, c.mode, c.fd))
  }

  ghost predicate SpellsCommand(line: Line, c: Cmd, a: nat, b: nat)
    decreases b - a, 1
  {
    SpellsSimple(line, c, a, b) || SpellsBlock(line, c, a, b)
  }

  /** line[a..b] is commands with bars between them; the pipe of the first bar is outside. */
  ghost predicate SpellsChain(line: Line, c: Cmd, a: nat, b: nat)
    decreases b - a, 2
  {
    || SpellsCommand(line, c, a, b)
    || (c.Pipe? && exists m :: && a <= m < b <= |line| && SpellsCommand(line, c.left, a, m) && line[m] == '|'
                               && SpellsChain(line, c.right, m + 1, b))
  }

  /** line[a..b] is a chain with an & for each Back. */
  ghost predicate SpellsBacks(line: Line, c: Cmd, a: nat, b: nat)
    decreases b - a, 3
  {
    || SpellsChain(line, c, a, b)
    || (c.Back? && exists m :: && a <= m < b <= |line| && SpellsBacks(line, c.sub, a, m) && line[m] == '&'
                               && Blanks(line, m + 1, b))
  }

  /** line[a..b] is such with semicolons between them; the list of the first semicolon is outside. */
  ghost predicate SpellsLine(line: Line, c: Cmd, a: nat, b: nat)
    decreases b - a, 4
  {
    || SpellsBacks(line, c, a, b)
    || (c.List? && exists m :: && a <= m < b <= |line| && SpellsBacks(line, c.left, a, m) && line[m] == ';'
                               && SpellsLine(line, c.right, m + 1, b))
  }

  // ----- tokens as text

  /** There is no blank at p. */
  predicate Settled(line: Line, p: nat) {
    p == |line| || (p < |line| && !White(line[p]))
  }

  lemma TokenText(line: Line, p: nat)
    requires p <= |line|
    ensures var t := Lex(line, p);
            && Blanks(line, p, t.span.q) && Blanks(line, t.span.e, t.next) && Settled(line, t.next)
            && (Settled(line, p) ==> t.span.q == p)
            && (t.kind == 'a' ==> WordAt(line, t.span))
            && (t.kind in "|&;()<" ==> t.span.q < |line| && line[t.span.q] == t.kind && t.span.e == t.span.q + 1)
            && (t.kind in ">+" ==> t.span.q < |line| && line[t.span.q] == '>'
                                   && t.span.e == if t.kind == '>' then t.span.q + 1 else t.span.q + 2)
            && (t.kind == '>' ==> t.span.e == |line| || line[t.span.e] != '>')
            && (t.kind == '+' ==> t.span.q + 1 < |line| && line[t.span.q + 1] == '>')
  {
    hide Skip, WordEnd;
  }

  lemma NextToken(line: Line, p: nat)
    requires p <= |line|
    ensures var t := Lex(line, p);
            TokensFrom(line, p) == if t.kind == '\0' then End else Next(Tok(t.kind, t.span), TokensFrom(line, t.next))
  {
    hide Lex;
  }

  // ----- what the parser reads is spelled there

  lemma {:induction false} WrappedMore(c: Cmd, ws: seq<Wrap>, more: seq<Wrap>)
    ensures Wrapped(c, ws + more) == Wrapped(Wrapped(c, ws), more)
    decreases |more|
  {
    if more == [] {
      assert ws + more == ws;
    } else {
      var n := |more| - 1;
      WrappedMore(c, ws, more[..n]);
      assert (ws + more)[..|ws + more| - 1] == ws + more[..n];
    }
  }

  lemma WrappedOne(c: Cmd, w: Wrap)
    ensures Wrapped(c, [w]) == Redir(c, w.file, w.mode, w.fd)
  {
    assert [w][..0] == [];
  }

  /** line[a..b] is these redirections, in this order. */
  ghost predicate SpellsRedirs(line: Line, ws: seq<Wrap>, a: nat, b: nat)
    decreases |ws|
  {
    if ws == [] then Blanks(line, a, b)
    else
      var n := |ws| - 1;
      exists m :: && a <= m < b && SpellsRedirs(line, ws[..n], a, m)
                  && RedirAt(line, m, b, ws[n].file, ws[n].mode, ws[n].fd)
  }

  lemma SpellsMore(line: Line, ws: seq<Wrap>, w: Wrap, a: nat, m: nat, b: nat)
    requires a <= m < b && SpellsRedirs(line, ws, a, m) && RedirAt(line, m, b, w.file, w.mode, w.fd)
    ensures SpellsRedirs(line, ws + [w], a, b)
  {
    hide RedirAt, Blanks;
    assert (ws + [w])[..|ws|] == ws;
  }

  /** An operator and a word, token by token. */
  lemma RedirLex(line: Line, p: nat)
    requires p <= |line|
    ensures var t := Lex(line, p);
            var u := Lex(line, t.next);
            t.kind in "<>+" && u.kind == 'a' ==>
              && p < u.next && Settled(line, u.next)
              && if t.kind == '<' then RedirAt(line, p, u.next, u.span, ReadOnly, 0)
                 else RedirAt(line, p, u.next, u.span, WriteCreate, 1)
  {
    hide Lex, White, Plain;
    TokenText(line, p);
    var t := Lex(line, p);
    TokenText(line, t.next);
    var u := Lex(line, t.next);
    if t.kind in "<>+" && u.kind == 'a' {
      BlanksJoin(line, t.span.e, t.next, u.span.q);
      assert if t.kind == '<' then OpAt(line, t.span.q, u.span.q, ReadOnly, 0)
             else OpAt(line, t.span.q, u.span.q, WriteCreate, 1);
    }
  }

  /** A redirection operator, a word, and the blanks after it. */
  lemma RedirText(line: Line, p: nat, op: Tok, file: Tok, rest: Toks) returns (e: nat)
    requires p <= |line| && TokensFrom(line, p) == Next(op, Next(file, rest)) && op.kind in "<>+" && file.kind == 'a'
    ensures p < e <= |line| && TokensFrom(line, e) == rest && Settled(line, e)
    ensures var w := WrapOf(op, file); RedirAt(line, p, e, w.file, w.mode, w.fd)
  {
    hide Lex, TokensFrom, RedirAt;
    NextToken(line, p);
    NextToken(line, Lex(line, p).next);
    RedirLex(line, p);
    e := Lex(line, Lex(line, p).next).next;
  }

  lemma BlanksJoin(line: Line, a: nat, m: nat, b: nat)
    requires Blanks(line, a, m) && Blanks(line, m, b)
    ensures Blanks(line, a, b)
  {
  }

  lemma {:induction false} RedirsText(line: Line, a: nat, p: nat, c: Cmd, r: Redirs, k: Toks) returns (e: nat)
    requires a <= p <= |line| && TokensFrom(line, p) == RedirsToks(r, k) && OkRedirs(r) && Settled(line, p)
    ensures p <= e <= |line| && TokensFrom(line, e) == k && Settled(line, e)
    ensures SpellsSimple(line, c, a, p) ==> SpellsSimple(line, Wrapped(c, RedirWraps(r)), a, e)
    ensures SpellsBlock(line, c, a, p) ==> SpellsBlock(line, Wrapped(c, RedirWraps(r)), a, e)
    decreases r
  {
    hide TokensFrom, RedirAt, WrapOf, SpellsLine, Blanks, ArgAt;
    if r.NoRedir? { return p; }
    var m := RedirText(line, p, r.op, r.file, RedirsToks(r.more, k));
    var w := WrapOf(r.op, r.file);
    var d := Redir(c, w.file, w.mode, w.fd);
    assert SpellsSimple(line, c, a, p) ==> SpellsSimple(line, d, a, m);
    assert SpellsBlock(line, c, a, p) ==> SpellsBlock(line, d, a, m);
    hide SpellsSimple, SpellsBlock;
    WrappedOne(c, w);
    WrappedMore(c, [w], RedirWraps(r.more));
    e := RedirsText(line, a, m, d, r.more, k);
  }

  lemma {:induction false} WrappedArgs(argv: seq<Span>, w: Span, ws: seq<Wrap>)
    ensures Argv(Wrapped(Exec(argv + [w]), ws)) == argv + [w]
    ensures Shorter(Wrapped(Exec(argv + [w]), ws)) == Wrapped(Exec(argv), ws)
    decreases |ws|
  {
    if ws != [] { WrappedArgs(argv, w, ws[..|ws| - 1]); } else { assert (argv + [w])[..|argv|] == argv; }
  }

  /** One argument more. */
  lemma ArgText(line: Line, a: nat, p: nat, argv: seq<Span>, ws: seq<Wrap>, word: Tok, rest: Toks) returns (e: nat)
    requires a <= p <= |line| && TokensFrom(line, p) == Next(word, rest) && word.kind == 'a'
    requires SpellsSimple(line, Wrapped(Exec(argv), ws), a, p)
    ensures p < e <= |line| && TokensFrom(line, e) == rest && Settled(line, e)
    ensures SpellsSimple(line, Wrapped(Exec(argv + [word.span]), ws), a, e)
  {
    hide Lex, TokensFrom, White, Plain;
    NextToken(line, p);
    TokenText(line, p);
    e := Lex(line, p).next;
    var c := Wrapped(Exec(argv + [word.span]), ws);
    WrappedArgs(argv, word.span, ws);
    hide Wrapped, Blanks, WordAt;
    assert ArgAt(line, p, e, Argv(c)[|Argv(c)| - 1]);
  }

  lemma {:induction false} ArgsText(line: Line, a: nat, p: nat, argv: seq<Span>, ws: seq<Wrap>, args: Args, k: Toks)
    returns (e: nat)
    requires a <= p <= |line| && TokensFrom(line, p) == ArgsToks(args, k) && OkArgs(args) && Settled(line, p)
    requires SpellsSimple(line, Wrapped(Exec(argv), ws), a, p)
    ensures p <= e <= |line| && TokensFrom(line, e) == k && Settled(line, e)
    ensures SpellsSimple(line, Wrapped(Exec(argv + ArgWords(args)), ws + ArgWraps(args)), a, e)
    decreases args
  {
    hide TokensFrom, SpellsSimple, SpellsBlock, Wrapped;
    if args.NoArg? {
      assert argv + [] == argv && ws + [] == ws;
      return p;
    }
    var more, w := argv + [args.word.span], RedirWraps(args.redirs);
    var m := ArgText(line, a, p, argv, ws, args.word, RedirsToks(args.redirs, ArgsToks(args.more, k)));
    var n := RedirsText(line, a, m, Wrapped(Exec(more), ws), args.redirs, ArgsToks(args.more, k));
    WrappedMore(Exec(more), ws, w);
    e := ArgsText(line, a, n, more, ws + w, args.more, k);
    assert more + ArgWords(args.more) == argv + ([args.word.span] + ArgWords(args.more));
    assert (ws + w) + ArgWraps(args.more) == ws + (w + ArgWraps(args.more));
  }

  /** One symbol, and the blanks around it. */
  lemma SymbolText(line: Line, p: nat, t: Tok, rest: Toks) returns (q: nat, e: nat)
    requires p <= |line| && TokensFrom(line, p) == Next(t, rest) && t.kind in "|&;()"
    ensures p <= q < e <= |line| && line[q] == t.kind && TokensFrom(line, e) == rest && Settled(line, e)
    ensures Blanks(line, p, q) && Blanks(line, q + 1, e) && (Settled(line, p) ==> q == p)
    ensures TokensFrom(line, q + 1) == rest
  {
    hide Lex, TokensFrom, White;
    NextToken(line, p);
    TokenText(line, p);
    q, e := Lex(line, p).span.q, Lex(line, p).next;
    SameTokens(line, q + 1, e);
  }

  lemma SameTokens(line: Line, p: nat, e: nat)
    requires Blanks(line, p, e)
    ensures TokensFrom(line, p) == TokensFrom(line, e)
  {
    hide Lex, WordsFrom;
    BlanksSkipped(line, p, e);
  }

  lemma ToText(line: Line, p: nat) returns (e: nat)
    requires p <= |line|
    ensures p <= e <= |line| && Blanks(line, p, e) && Settled(line, e) && TokensFrom(line, e) == TokensFrom(line, p)
  {
    hide Lex, TokensFrom;
    e := Skip(line, p);
    SameTokens(line, p, e);
  }

  lemma {:induction false} CommandText(line: Line, p: nat, c: Command, k: Toks) returns (e: nat)
    requires p <= |line| && TokensFrom(line, p) == CommandToks(c, k) && OkCommand(c)
    ensures p <= e <= |line| && TokensFrom(line, e) == k && Settled(line, e)
    ensures SpellsCommand(line, CommandTree(c), p, e)
    decreases c
  {
    hide TokensFrom, RedirAt, ArgAt, Blanks, Settled, Wrapped;
    match c
    case Simple(redirs, args) =>
      var q := ToText(line, p);
      assert SpellsSimple(line, Exec([]), p, q);
      hide SpellsSimple, SpellsBlock;
      var m := RedirsText(line, p, q, Exec([]), redirs, ArgsToks(args, k));
      e := ArgsText(line, p, m, [], RedirWraps(redirs), args, k);
      assert [] + ArgWords(args) == ArgWords(args);
    case Block(open, body, close, redirs) =>
      var m := BlockText(line, p, c, RedirsToks(redirs, k));
      hide SpellsSimple, SpellsBlock;
      e := RedirsText(line, p, m, SequenceTree(body), redirs, k);
  }

  lemma {:induction false} BlockText(line: Line, p: nat, c: Command, k: Toks) returns (e: nat)
    requires p <= |line| && c.Block? && OkCommand(c)
    requires TokensFrom(line, p) == Next(c.open, SequenceToks(c.body, Next(c.close, k)))
    ensures p <= e <= |line| && TokensFrom(line, e) == k && Settled(line, e)
    ensures SpellsBlock(line, SequenceTree(c.body), p, e)
    decreases c, 0
  {
    hide TokensFrom, RedirAt, ArgAt, Blanks, Settled, SpellsLine;
    var q, _ := SymbolText(line, p, c.open, SequenceToks(c.body, Next(c.close, k)));
    var m := SequenceText(line, q + 1, c.body, Next(c.close, k));
    var r;
    r, e := SymbolText(line, m, c.close, k);
  }

  lemma {:induction false} ChainText(line: Line, p: nat, c: Chain, k: Toks) returns (e: nat)
    requires p <= |line| && TokensFrom(line, p) == ChainToks(c, k) && OkChain(c)
    ensures p <= e <= |line| && TokensFrom(line, e) == k && Settled(line, e)
    ensures SpellsChain(line, ChainTree(c), p, e)
    decreases c
  {
    hide TokensFrom, SpellsCommand, Blanks, Settled;
    match c
    case Single(x) => e := CommandText(line, p, x, k);
    case Piped(x, bar, rest) =>
      var m := CommandText(line, p, x, Next(bar, ChainToks(rest, k)));
      var q, _ := SymbolText(line, m, bar, ChainToks(rest, k));
      e := ChainText(line, q + 1, rest, k);
  }

  lemma {:induction false} AmpsText(line: Line, a: nat, p: nat, c: Cmd, amps: Amps, k: Toks) returns (e: nat)
    requires a <= p <= |line| && TokensFrom(line, p) == AmpsToks(amps, k) && OkAmps(amps) && Settled(line, p)
    requires SpellsBacks(line, c, a, p)
    ensures p <= e <= |line| && TokensFrom(line, e) == k && Settled(line, e)
    ensures SpellsBacks(line, Backs(c, amps), a, e)
    decreases amps
  {
    hide TokensFrom, Blanks, Settled, SpellsChain;
    if amps.NoAmp? { return p; }
    var q, m := SymbolText(line, p, amps.tok, AmpsToks(amps.more, k));
    assert SpellsBacks(line, Back(c), a, m);
    e := AmpsText(line, a, m, Back(c), amps.more, k);
  }

  lemma {:induction false} SequenceText(line: Line, p: nat, s: Sequence, k: Toks) returns (e: nat)
    requires p <= |line| && TokensFrom(line, p) == SequenceToks(s, k) && OkSequence(s)
    ensures p <= e <= |line| && TokensFrom(line, e) == k && Settled(line, e)
    ensures SpellsLine(line, SequenceTree(s), p, e)
    decreases s
  {
    hide TokensFrom, Blanks, Settled, SpellsChain, SpellsBacks;
    match s
    case Final(c, amps) =>
      var m := ChainText(line, p, c, AmpsToks(amps, k));
      ChainIsBacks(line, ChainTree(c), p, m);
      e := AmpsText(line, p, m, ChainTree(c), amps, k);
    case Then(c, amps, semi, rest) =>
      var m := ChainText(line, p, c, AmpsToks(amps, Next(semi, SequenceToks(rest, k))));
      ChainIsBacks(line, ChainTree(c), p, m);
      var n := AmpsText(line, p, m, ChainTree(c), amps, Next(semi, SequenceToks(rest, k)));
      var q, _ := SymbolText(line, n, semi, SequenceToks(rest, k));
      e := SequenceText(line, q + 1, rest, k);
  }

  lemma ChainIsBacks(line: Line, c: Cmd, a: nat, b: nat)
    requires SpellsChain(line, c, a, b)
    ensures SpellsBacks(line, c, a, b)
  {
  }

  /** The characters of the line spell the command it is parsed to. */
  lemma LineSpellsTree(line: Line, s: Sequence)
    requires Derives(TokensFrom(line, 0), s)
    ensures SpellsLine(line, SequenceTree(s), 0, |line|)
  {
    hide TokensFrom, SpellsLine;
    var e := SequenceText(line, 0, s, End);
    NoTokens(line, e);
  }

  lemma NoTokens(line: Line, e: nat)
    requires e <= |line| && TokensFrom(line, e) == End && Settled(line, e)
    ensures e == |line|
  {
    hide Lex;
    TokenText(line, e);
  }

  // ----- what that says about redirections

  /** The last character before q that is not blank is <, for reading on descriptor 0, or >, for writing on 1. */
  ghost predicate OpBefore(line: Line, q: nat, mode: Mode, fd: nat) {
    exists o :: && 0 <= o < q <= |line| && Blanks(line, o + 1, q)
                && (|| (line[o] == '<' && mode == ReadOnly && fd == 0)
                    || (line[o] == '>' && mode == WriteCreate && fd == 1))
  }

  /** Every redirection has its operator before its file name, and of two redirections of one command the later is
      outside. */
  ghost predicate RedirsRight(line: Line, c: Cmd) {
    match c
    case Exec(_) => true
    case Redir(sub, file, mode, fd) =>
      && OpBefore(line, file.q, mode, fd) && RedirsRight(line, sub)
      && (sub.Redir? ==> sub.file.e < file.q)
    case Pipe(l, r) => RedirsRight(line, l) && RedirsRight(line, r)
    case List(l, r) => RedirsRight(line, l) && RedirsRight(line, r)
    case Back(sub) => RedirsRight(line, sub)
  }

  /** A command all of whose redirections end by b. */
  ghost predicate RightBy(line: Line, c: Cmd, b: nat) {
    RedirsRight(line, c) && (c.Redir? ==> c.file.e <= b)
  }

  lemma RedirRight(line: Line, c: Cmd, m: nat, b: nat)
    requires c.Redir? && RightBy(line, c.sub, m) && RedirAt(line, m, b, c.file, c.mode, c.fd)
    ensures RightBy(line, c, b)
  {
    var o :| && m <= o && Blanks(line, m, o) && OpAt(line, o, c.file.q, c.mode, c.fd)
             && WordAt(line, c.file) && Blanks(line, c.file.e, b);
    var n := if line[o] == '>' && o + 1 < |line| && line[o + 1] == '>' then o + 1 else o;
    assert Blanks(line, n + 1, c.file.q);
    assert OpBefore(line, c.file.q, c.mode, c.fd);
  }

  lemma {:induction false} LongerRight(line: Line, c: Cmd, b: nat)
    requires RightBy(line, Shorter(c), b)
    ensures RightBy(line, c, b)
  {
    hide OpBefore;
    match c
    case Redir(sub, file, mode, fd) => LongerRight(line, sub, if Shorter(sub).Redir? then Shorter(sub).file.e else b);
    case _ =>
  }

  lemma {:induction false} SimpleRight(line: Line, c: Cmd, a: nat, b: nat)
    requires SpellsSimple(line, c, a, b)
    ensures RightBy(line, c, b)
    decreases b - a
  {
    hide RedirAt, RedirsRight, Blanks;
    if c == Exec([]) {
      ExecRight(line);
    } else if m :| && c.Redir? && a <= m < b && SpellsSimple(line, c.sub, a, m)
                   && RedirAt(line, m, b, c.file, c.mode, c.fd)
    {
      SimpleRight(line, c.sub, a, m);
      RedirRight(line, c, m, b);
    } else {
      var m :| a <= m < b && SpellsSimple(line, Shorter(c), a, m) && ArgAt(line, m, b, Argv(c)[|Argv(c)| - 1]);
      SimpleRight(line, Shorter(c), a, m);
      LongerRight(line, c, m);
    }
  }

  lemma ExecRight(line: Line)
    ensures RedirsRight(line, Exec([]))
  {
  }

  lemma {:induction false} BlockRight(line: Line, c: Cmd, a: nat, b: nat)
    requires SpellsBlock(line, c, a, b)
    ensures RightBy(line, c, b)
    decreases b - a, 0
  {
    hide RedirAt, RedirsRight, Blanks;
    if i, m :| && a < i <= m < b <= |line| && Blanks(line, a, i - 1) && line[i - 1] == '('
               && SpellsLine(line, c, i, m) && line[m] == ')' && Blanks(line, m + 1, b)
    {
      LineRight(line, c, i, m);
    } else {
      var m :| && a <= m < b && SpellsBlock(line, c.sub, a, m) && RedirAt(line, m, b, c.file, c.mode, c.fd);
      BlockRight(line, c.sub, a, m);
      RedirRight(line, c, m, b);
    }
  }

  lemma {:induction false} ChainRight(line: Line, c: Cmd, a: nat, b: nat)
    requires SpellsChain(line, c, a, b)
    ensures RightBy(line, c, b)
    decreases b - a, 2
  {
    hide SpellsSimple, SpellsBlock;
    if SpellsSimple(line, c, a, b) {
      SimpleRight(line, c, a, b);
    } else if SpellsBlock(line, c, a, b) {
      BlockRight(line, c, a, b);
    } else {
      var m :| && a <= m < b <= |line| && SpellsCommand(line, c.left, a, m) && line[m] == '|'
               && SpellsChain(line, c.right, m + 1, b);
      ChainRight(line, c.left, a, m);
      ChainRight(line, c.right, m + 1, b);
    }
  }

  lemma {:induction false} BacksRight(line: Line, c: Cmd, a: nat, b: nat)
    requires SpellsBacks(line, c, a, b)
    ensures RightBy(line, c, b)
    decreases b - a, 3
  {
    hide SpellsChain, Blanks;
    if SpellsChain(line, c, a, b) {
      ChainRight(line, c, a, b);
    } else {
      var m :| a <= m < b <= |line| && SpellsBacks(line, c.sub, a, m) && line[m] == '&' && Blanks(line, m + 1, b);
      BacksRight(line, c.sub, a, m);
    }
  }

  lemma {:induction false} LineRight(line: Line, c: Cmd, a: nat, b: nat)
    requires SpellsLine(line, c, a, b)
    ensures RightBy(line, c, b)
    decreases b - a, 4
  {
    hide SpellsBacks;
    if SpellsBacks(line, c, a, b) {
      BacksRight(line, c, a, b);
    } else {
      var m :| && a <= m < b <= |line| && SpellsBacks(line, c.left, a, m) && line[m] == ';'
               && SpellsLine(line, c.right, m + 1, b);
      BacksRight(line, c.left, a, m);
      LineRight(line, c.right, m + 1, b);
    }
  }
}
