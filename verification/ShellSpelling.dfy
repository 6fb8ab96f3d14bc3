/** user/sh.c: a line spells at most one command, and the parser finds it. */
module ShellSpelling {
  import opened ShellSpec
  import opened ShellGrammar
  import opened ShellText

  /** Nowhere ten arguments or more. */
  predicate FewArgs(c: Cmd) {
    match c
    case Exec(argv) => |argv| < 10
    case Redir(sub, _, _, _) => FewArgs(sub)
    case Pipe(l, r) => FewArgs(l) && FewArgs(r)
    case List(l, r) => FewArgs(l) && FewArgs(r)
    case Back(sub) => FewArgs(sub)
  }

  lemma {:induction false} OrderedFewArgs(c: Cmd)
    requires InLineOrder(c)
    ensures FewArgs(c)
  {
    hide Before;
    match c
    case Exec(_) =>
    case Redir(sub, _, _, _) => OrderedFewArgs(sub);
    case Pipe(l, r) => OrderedFewArgs(l); OrderedFewArgs(r);
    case List(l, r) => OrderedFewArgs(l); OrderedFewArgs(r);
    case Back(sub) => OrderedFewArgs(sub);
  }

  // ----- from text to tokens

  lemma SkipTo(line: Line, m: nat, q: nat)
    requires Blanks(line, m, q) && Settled(line, q)
    ensures Skip(line, m) == q
  {
    SkipTwice(line, m, q);
  }

  lemma WordTo(line: Line, w: Span)
    requires WordAt(line, w)
    ensures WordEnd(line, w.q) == w.e && Settled(line, w.q)
  {
    var e := WordEnd(line, w.q);
    assert e < w.e ==> Plain(line[e]);
    assert w.e < e ==> InWord(line[w.e]);
  }

  lemma WordToken(line: Line, m: nat, b: nat, w: Span)
    requires ArgAt(line, m, b, w)
    ensures TokensFrom(line, m) == Next(Tok('a', w), TokensFrom(line, b))
  {
    hide Skip, WordEnd, TokensFrom, WordsFrom, Blanks;
    WordTo(line, w);
    SkipTo(line, m, w.q);
    NextToken(line, m);
    SameTokens(line, w.e, b);
    assert Lex(line, m).kind == 'a' && Lex(line, m).span == w;
    hide Lex;
    var n := Lex(line, m).next;
    TokenText(line, m);
    SameTokens(line, w.e, n);
  }

  /** A symbol that is no redirection. */
  lemma SymbolToken(line: Line, m: nat, q: nat)
    requires Blanks(line, m, q) && q < |line| && line[q] in "|&;()"
    ensures TokensFrom(line, m) == Next(Tok(line[q], Span(q, q + 1)), TokensFrom(line, q + 1))
  {
    hide Skip, WordEnd, TokensFrom, WordsFrom, Blanks;
    SkipTo(line, m, q);
    NextToken(line, m);
    assert Lex(line, m).kind == line[q] && Lex(line, m).span == Span(q, q + 1);
    hide Lex;
    TokenText(line, m);
    SameTokens(line, q + 1, Lex(line, m).next);
  }

  /** A redirection operator. */
  lemma OpToken(line: Line, m: nat, o: nat) returns (op: Tok)
    requires Blanks(line, m, o) && o < |line| && line[o] in "<>"
    ensures op.kind in "<>+" && (op.kind == '<' <==> line[o] == '<')
    ensures var n := if line[o] == '>' && o + 1 < |line| && line[o + 1] == '>' then o + 2 else o + 1;
            n <= |line| && TokensFrom(line, m) == Next(op, TokensFrom(line, n))
  {
    hide Skip, WordEnd, TokensFrom, WordsFrom, Blanks;
    SkipTo(line, m, o);
    NextToken(line, m);
    var t := Lex(line, m);
    op := Tok(t.kind, t.span);
    var n := if line[o] == '>' && o + 1 < |line| && line[o + 1] == '>' then o + 2 else o + 1;
    assert t.span == Span(o, n) && t.kind == if line[o] == '<' then '<' else if n == o + 2 then '+' else '>';
    hide Lex;
    TokenText(line, m);
    SameTokens(line, n, t.next);
  }

  lemma RedirTokens(line: Line, m: nat, b: nat, file: Span, mode: Mode, fd: nat) returns (op: Tok)
    requires RedirAt(line, m, b, file, mode, fd)
    ensures op.kind in "<>+" && WrapOf(op, Tok('a', file)) == Wrap(file, mode, fd)
    ensures b <= |line| && m <= |line| && TokensFrom(line, m) == Next(op, Next(Tok('a', file), TokensFrom(line, b)))
  {
    hide TokensFrom;
    var o :| && m <= o && Blanks(line, m, o) && OpAt(line, o, file.q, mode, fd)
             && WordAt(line, file) && Blanks(line, file.e, b);
    op := OpToken(line, m, o);
    var n := if line[o] == '>' && o + 1 < |line| && line[o + 1] == '>' then o + 2 else o + 1;
    assert ArgAt(line, n, b, file);
    WordToken(line, n, b, file);
  }

  // ----- one item more at the end of a simple command

  function RedirLast(r: Redirs, op: Tok, file: Tok): Redirs {
    if r.NoRedir? then Redirect(op, file, NoRedir) else r.(more := RedirLast(r.more, op, file))
  }

  lemma {:induction false} RedirLastIs(r: Redirs, op: Tok, file: Tok, k: Toks)
    requires OkRedirs(r) && op.kind in "<>+" && file.kind == 'a'
    ensures OkRedirs(RedirLast(r, op, file))
    ensures RedirsToks(RedirLast(r, op, file), k) == RedirsToks(r, Next(op, Next(file, k)))
    ensures RedirWraps(RedirLast(r, op, file)) == RedirWraps(r) + [WrapOf(op, file)]
  {
    hide WrapOf;
    if r.Redirect? { RedirLastIs(r.more, op, file, k); }
  }

  /** The redirection goes to the last argument. */
  function ArgsRedir(a: Args, op: Tok, file: Tok): Args
    requires a.Arg?
  {
    if a.more.NoArg? then a.(redirs := RedirLast(a.redirs, op, file)) else a.(more := ArgsRedir(a.more, op, file))
  }

  lemma {:induction false} ArgsRedirIs(a: Args, op: Tok, file: Tok, k: Toks)
    requires a.Arg? && OkArgs(a) && op.kind in "<>+" && file.kind == 'a'
    ensures OkArgs(ArgsRedir(a, op, file))
    ensures ArgsToks(ArgsRedir(a, op, file), k) == ArgsToks(a, Next(op, Next(file, k)))
    ensures ArgWords(ArgsRedir(a, op, file)) == ArgWords(a)
    ensures ArgWraps(ArgsRedir(a, op, file)) == ArgWraps(a) + [WrapOf(op, file)]
  {
    hide WrapOf;
    if a.more.NoArg? {
      RedirLastIs(a.redirs, op, file, k);
      assert ArgWraps(a.more) == [];
    } else {
      ArgsRedirIs(a.more, op, file, k);
    }
  }

  function ArgsLast(a: Args, word: Tok): Args {
    if a.NoArg? then Arg(word, NoRedir, NoArg) else a.(more := ArgsLast(a.more, word))
  }

  lemma {:induction false} ArgsLastIs(a: Args, word: Tok, k: Toks)
    requires OkArgs(a) && word.kind == 'a'
    ensures OkArgs(ArgsLast(a, word)) && ArgsToks(ArgsLast(a, word), k) == ArgsToks(a, Next(word, k))
    ensures ArgWords(ArgsLast(a, word)) == ArgWords(a) + [word.span] && ArgWraps(ArgsLast(a, word)) == ArgWraps(a)
  {
    if a.Arg? { ArgsLastIs(a.more, word, k); }
  }

  /** Putting the last argument back. */
  lemma {:induction false} LongerIs(c: Cmd, argv: seq<Span>, ws: seq<Wrap>)
    requires Argv(c) != [] && Shorter(c) == Wrapped(Exec(argv), ws)
    ensures c == Wrapped(Exec(argv + [Argv(c)[|Argv(c)| - 1]]), ws)
    decreases |ws|
  {
    if ws == [] {
      assert c.Exec? && c.argv == c.argv[..|c.argv| - 1] + [c.argv[|c.argv| - 1]];
    } else {
      LongerIs(c.sub, argv, ws[..|ws| - 1]);
    }
  }

  lemma {:induction false} FewArgsInside(argv: seq<Span>, ws: seq<Wrap>)
    ensures FewArgs(Wrapped(Exec(argv), ws)) <==> |argv| < 10
    decreases |ws|
  {
    if ws != [] { FewArgsInside(argv, ws[..|ws| - 1]); }
  }

  lemma {:induction false} CountArgs(a: Args)
    ensures |ArgWords(a)| == ArgCount(a)
  {
    if a.Arg? { CountArgs(a.more); }
  }

  // ----- from text to syntax

  /** line[p..] begins with the tokens of x, which stands for c, and goes on at b. */
  ghost predicate ReadsAs(line: Line, p: nat, b: nat, redirs: Redirs, args: Args, c: Cmd) {
    && p <= |line| && b <= |line| && OkRedirs(redirs) && OkArgs(args)
    && TokensFrom(line, p) == RedirsToks(redirs, ArgsToks(args, TokensFrom(line, b)))
    && c == Wrapped(Exec(ArgWords(args)), RedirWraps(redirs) + ArgWraps(args))
  }

  lemma {:induction false} SimpleSyntax(line: Line, c: Cmd, a: nat, b: nat) returns (redirs: Redirs, args: Args)
    requires SpellsSimple(line, c, a, b)
    ensures ReadsAs(line, a, b, redirs, args, c)
    decreases b - a
  {
    hide TokensFrom, RedirAt, ArgAt, RedirsToks, ArgsToks, OkRedirs, OkArgs, Wrapped, RedirWraps, ArgWraps, ArgWords;
    hide ReadsAs;
    if c == Exec([]) && Blanks(line, a, b) {
      EmptySyntax(line, a, b);
      return NoRedir, NoArg;
    }
    if m :| c.Redir? && a <= m < b && SpellsSimple(line, c.sub, a, m) && RedirAt(line, m, b, c.file, c.mode, c.fd) {
      redirs, args := SimpleSyntax(line, c.sub, a, m);
      redirs, args := OneRedirMore(line, c, a, m, b, redirs, args);
    } else {
      var m :| a <= m < b && SpellsSimple(line, Shorter(c), a, m) && ArgAt(line, m, b, Argv(c)[|Argv(c)| - 1]);
      redirs, args := SimpleSyntax(line, Shorter(c), a, m);
      args := OneArgMore(line, c, a, m, b, redirs, args);
    }
  }

  lemma EmptySyntax(line: Line, a: nat, b: nat)
    requires Blanks(line, a, b)
    ensures ReadsAs(line, a, b, NoRedir, NoArg, Exec([]))
  {
    hide TokensFrom;
    SameTokens(line, a, b);
  }

  lemma OneRedirMore(line: Line, c: Cmd, a: nat, m: nat, b: nat, redirs: Redirs, args: Args)
    returns (redirs': Redirs, args': Args)
    requires c.Redir? && ReadsAs(line, a, m, redirs, args, c.sub) && RedirAt(line, m, b, c.file, c.mode, c.fd)
    ensures ReadsAs(line, a, b, redirs', args', c)
  {
    hide TokensFrom, RedirAt, Wrapped;
    var op := RedirTokens(line, m, b, c.file, c.mode, c.fd);
    hide WrapOf, OkRedirs, OkArgs, RedirsToks, ArgsToks, RedirWraps, ArgWraps, ArgWords;
    var w, file, k := Wrap(c.file, c.mode, c.fd), Tok('a', c.file), TokensFrom(line, b);
    var ws := RedirWraps(redirs) + ArgWraps(args);
    WrappedMore(Exec(ArgWords(args)), ws, [w]);
    WrappedOne(c.sub, w);
    if args.NoArg? {
      RedirLastIs(redirs, op, file, k);
      NoArgs(k);
      NoArgs(Next(op, Next(file, k)));
      redirs', args' := RedirLast(redirs, op, file), args;
      assert RedirWraps(redirs') + [] == RedirWraps(redirs') && RedirWraps(redirs) + [] == RedirWraps(redirs);
    } else {
      ArgsRedirIs(args, op, file, k);
      redirs', args' := redirs, ArgsRedir(args, op, file);
      assert RedirWraps(redirs) + ArgWraps(args') == ws + [w];
    }
  }

  lemma NoArgs(k: Toks)
    ensures ArgsToks(NoArg, k) == k && ArgWraps(NoArg) == [] && ArgWords(NoArg) == [] && OkArgs(NoArg)
  {
  }

  lemma OneArgMore(line: Line, c: Cmd, a: nat, m: nat, b: nat, redirs: Redirs, args: Args) returns (args': Args)
    requires Argv(c) != [] && ReadsAs(line, a, m, redirs, args, Shorter(c))
    requires ArgAt(line, m, b, Argv(c)[|Argv(c)| - 1])
    ensures ReadsAs(line, a, b, redirs, args', c)
  {
    var w := Argv(c)[|Argv(c)| - 1];
    hide TokensFrom, Wrapped, Argv, Shorter, OkRedirs, OkArgs, RedirsToks, ArgsToks, RedirWraps, ArgWraps, ArgWords;
    WordToken(line, m, b, w);
    ArgsLastIs(args, Tok('a', w), TokensFrom(line, b));
    args' := ArgsLast(args, Tok('a', w));
    LongerIs(c, ArgWords(args), RedirWraps(redirs) + ArgWraps(args));
  }

  /** line[p..b] is the command x, which stands for c. */
  ghost predicate CommandIs(line: Line, p: nat, b: nat, x: Command, c: Cmd) {
    && p <= |line| && b <= |line| && OkCommand(x) && CommandTree(x) == c
    && TokensFrom(line, p) == CommandToks(x, TokensFrom(line, b))
  }

  ghost predicate ChainIs(line: Line, p: nat, b: nat, x: Chain, c: Cmd) {
    && p <= |line| && b <= |line| && OkChain(x) && ChainTree(x) == c
    && TokensFrom(line, p) == ChainToks(x, TokensFrom(line, b))
  }

  ghost predicate BacksIs(line: Line, p: nat, b: nat, x: Chain, amps: Amps, c: Cmd) {
    && p <= |line| && b <= |line| && OkChain(x) && OkAmps(amps) && Backs(ChainTree(x), amps) == c
    && TokensFrom(line, p) == ChainToks(x, AmpsToks(amps, TokensFrom(line, b)))
  }

  ghost predicate SequenceIs(line: Line, p: nat, b: nat, x: Sequence, c: Cmd) {
    && p <= |line| && b <= |line| && OkSequence(x) && SequenceTree(x) == c
    && TokensFrom(line, p) == SequenceToks(x, TokensFrom(line, b))
  }

  lemma SimpleCommand(line: Line, c: Cmd, a: nat, b: nat) returns (x: Command)
    requires SpellsSimple(line, c, a, b) && FewArgs(c)
    ensures CommandIs(line, a, b, x, c)
  {
    hide TokensFrom, SpellsSimple, Wrapped;
    var redirs, args := SimpleSyntax(line, c, a, b);
    FewArgsInside(ArgWords(args), RedirWraps(redirs) + ArgWraps(args));
    CountArgs(args);
    x := Simple(redirs, args);
  }

  lemma {:induction false} BlockSyntax(line: Line, c: Cmd, a: nat, b: nat) returns (x: Command)
    requires SpellsBlock(line, c, a, b) && FewArgs(c)
    ensures x.Block? && CommandIs(line, a, b, x, c)
    decreases b - a, 0
  {
    hide TokensFrom, RedirAt, CommandIs;
    if i, m :| && a < i <= m < b <= |line| && Blanks(line, a, i - 1) && line[i - 1] == '('
               && SpellsLine(line, c, i, m) && line[m] == ')' && Blanks(line, m + 1, b)
    {
      var body := LineSyntax(line, c, i, m);
      x := NewBlock(line, c, a, i, m, b, body);
    } else {
      var m :| a <= m < b && SpellsBlock(line, c.sub, a, m) && RedirAt(line, m, b, c.file, c.mode, c.fd);
      x := BlockSyntax(line, c.sub, a, m);
      x := BlockRedir(line, c, a, m, b, x);
    }
  }

  lemma NewBlock(line: Line, c: Cmd, a: nat, i: nat, m: nat, b: nat, body: Sequence) returns (x: Command)
    requires a < i <= m < b <= |line| && Blanks(line, a, i - 1) && line[i - 1] == '('
    requires SequenceIs(line, i, m, body, c) && line[m] == ')' && Blanks(line, m + 1, b)
    ensures x.Block? && CommandIs(line, a, b, x, c)
  {
    hide TokensFrom, OkSequence, SequenceTree, SequenceToks;
    SymbolToken(line, a, i - 1);
    assert Blanks(line, m, m);
    SymbolToken(line, m, m);
    SameTokens(line, m + 1, b);
    x := Block(Tok('(', Span(i - 1, i)), body, Tok(')', Span(m, m + 1)), NoRedir);
  }

  lemma BlockRedir(line: Line, c: Cmd, a: nat, m: nat, b: nat, x: Command) returns (x': Command)
    requires c.Redir? && x.Block? && CommandIs(line, a, m, x, c.sub) && RedirAt(line, m, b, c.file, c.mode, c.fd)
    ensures x'.Block? && CommandIs(line, a, b, x', c)
  {
    hide TokensFrom, RedirAt, Wrapped, OkSequence, SequenceTree, SequenceToks, OkRedirs, RedirsToks, RedirWraps;
    var op := RedirTokens(line, m, b, c.file, c.mode, c.fd);
    hide WrapOf;
    var w, file := Wrap(c.file, c.mode, c.fd), Tok('a', c.file);
    RedirLastIs(x.redirs, op, file, TokensFrom(line, b));
    WrappedMore(SequenceTree(x.body), RedirWraps(x.redirs), [w]);
    WrappedOne(c.sub, w);
    x' := Block(x.open, x.body, x.close, RedirLast(x.redirs, op, file));
  }

  lemma {:induction false} ChainSyntax(line: Line, c: Cmd, a: nat, b: nat) returns (x: Chain)
    requires SpellsChain(line, c, a, b) && FewArgs(c)
    ensures ChainIs(line, a, b, x, c)
    decreases b - a, 2
  {
    hide TokensFrom, SpellsSimple, SpellsBlock, OkCommand, CommandTree, CommandToks;
    if SpellsCommand(line, c, a, b) {
      var y := CommandSyntax(line, c, a, b);
      return Single(y);
    }
    var m :| && a <= m < b <= |line| && SpellsCommand(line, c.left, a, m) && line[m] == '|'
             && SpellsChain(line, c.right, m + 1, b);
    var y := CommandSyntax(line, c.left, a, m);
    var rest := ChainSyntax(line, c.right, m + 1, b);
    assert Blanks(line, m, m);
    SymbolToken(line, m, m);
    x := Piped(y, Tok('|', Span(m, m + 1)), rest);
  }

  lemma {:induction false} CommandSyntax(line: Line, c: Cmd, a: nat, b: nat) returns (x: Command)
    requires SpellsCommand(line, c, a, b) && FewArgs(c)
    ensures CommandIs(line, a, b, x, c)
    decreases b - a, 1
  {
    hide CommandIs, SpellsSimple, SpellsBlock;
    if SpellsSimple(line, c, a, b) { x := SimpleCommand(line, c, a, b); } else { x := BlockSyntax(line, c, a, b); }
  }

  function AmpsLast(a: Amps, t: Tok): Amps {
    if a.NoAmp? then Amp(t, NoAmp) else a.(more := AmpsLast(a.more, t))
  }

  lemma {:induction false} AmpsLastIs(a: Amps, t: Tok, k: Toks, c: Cmd)
    requires OkAmps(a) && t.kind == '&'
    ensures OkAmps(AmpsLast(a, t)) && AmpsToks(AmpsLast(a, t), k) == AmpsToks(a, Next(t, k))
    ensures Backs(c, AmpsLast(a, t)) == Back(Backs(c, a))
    decreases a
  {
    if a.Amp? { AmpsLastIs(a.more, t, k, Back(c)); }
  }

  lemma {:induction false} BacksSyntax(line: Line, c: Cmd, a: nat, b: nat) returns (x: Chain, amps: Amps)
    requires SpellsBacks(line, c, a, b) && FewArgs(c)
    ensures BacksIs(line, a, b, x, amps, c)
    decreases b - a, 3
  {
    hide TokensFrom, SpellsChain, OkChain, ChainTree, ChainToks;
    if SpellsChain(line, c, a, b) {
      x := ChainSyntax(line, c, a, b);
      return x, NoAmp;
    }
    var m :| a <= m < b <= |line| && SpellsBacks(line, c.sub, a, m) && line[m] == '&' && Blanks(line, m + 1, b);
    x, amps := BacksSyntax(line, c.sub, a, m);
    assert Blanks(line, m, m);
    SymbolToken(line, m, m);
    SameTokens(line, m + 1, b);
    AmpsLastIs(amps, Tok('&', Span(m, m + 1)), TokensFrom(line, b), ChainTree(x));
    amps := AmpsLast(amps, Tok('&', Span(m, m + 1)));
  }

  lemma {:induction false} LineSyntax(line: Line, c: Cmd, a: nat, b: nat) returns (x: Sequence)
    requires SpellsLine(line, c, a, b) && FewArgs(c)
    ensures SequenceIs(line, a, b, x, c)
    decreases b - a, 4
  {
    hide TokensFrom, SpellsBacks, OkChain, ChainTree, ChainToks, OkAmps, AmpsToks, Backs;
    if SpellsBacks(line, c, a, b) {
      var y, amps := BacksSyntax(line, c, a, b);
      return Final(y, amps);
    }
    var m :| && a <= m < b <= |line| && SpellsBacks(line, c.left, a, m) && line[m] == ';'
             && SpellsLine(line, c.right, m + 1, b);
    var y, amps := BacksSyntax(line, c.left, a, m);
    var rest := LineSyntax(line, c.right, m + 1, b);
    assert Blanks(line, m, m);
    SymbolToken(line, m, m);
    x := Then(y, amps, Tok(';', Span(m, m + 1)), rest);
  }

  /** A command that a line spells is what a syntax tree of the line stands for. */
  lemma SpelledIsParsed(line: Line, c: Cmd)
    requires SpellsLine(line, c, 0, |line|) && FewArgs(c)
    ensures exists s :: Derives(TokensFrom(line, 0), s) && SequenceTree(s) == c
  {
    hide SpellsLine, Lex;
    var s := LineSyntax(line, c, 0, |line|);
    assert TokensFrom(line, |line|) == End;
    hide TokensFrom;
    assert Derives(TokensFrom(line, 0), s);
  }

  /** A line that cannot be parsed spells no command. */
  lemma NothingSpelled(line: Line, c: Cmd)
    requires forall s :: !Derives(TokensFrom(line, 0), s)
    ensures !(SpellsLine(line, c, 0, |line|) && FewArgs(c))
  {
    hide SpellsLine, TokensFrom, Derives, FewArgs;
    if SpellsLine(line, c, 0, |line|) && FewArgs(c) { SpelledIsParsed(line, c); }
  }

  /** No line spells two commands. */
  lemma SpelledOnce(line: Line, c: Cmd, d: Cmd)
    requires SpellsLine(line, c, 0, |line|) && FewArgs(c) && SpellsLine(line, d, 0, |line|) && FewArgs(d)
    ensures c == d
  {
    hide SpellsLine, TokensFrom, Derives, ReadSequence;
    SpelledIsParsed(line, c);
    SpelledIsParsed(line, d);
    var s :| Derives(TokensFrom(line, 0), s) && SequenceTree(s) == c;
    var t :| Derives(TokensFrom(line, 0), t) && SequenceTree(t) == d;
    GrammarIsParsed(TokensFrom(line, 0), s);
    GrammarIsParsed(TokensFrom(line, 0), t);
  }
}
