/** user/sh.c: the grammar of command lines, as syntax trees with their tokens, and the parser as a function. */
module ShellGrammar {
  import opened ShellSpec

  /** kind: 'a' for a word, '+' for >>, otherwise the symbol itself. */
  datatype Tok = Tok(kind: char, span: Span)

  datatype Toks = End | Next(tok: Tok, rest: Toks)

  function TokensFrom(line: Line, p: nat): Toks
    requires p <= |line|
    decreases |line| - p
  {
    var t := Lex(line, p);
    if t.kind == '\0' then End else Next(Tok(t.kind, t.span), TokensFrom(line, t.next))
  }

  predicate Starts(ts: Toks, kinds: string) {
    ts.Next? && ts.tok.kind in kinds
  }

  // ----- syntax trees: which tokens belong together

  datatype Redirs = NoRedir | Redirect(op: Tok, file: Tok, more: Redirs)

  datatype Args = NoArg | Arg(word: Tok, redirs: Redirs, more: Args)

  datatype Amps = NoAmp | Amp(tok: Tok, more: Amps)

  datatype Command = Simple(redirs: Redirs, args: Args) | Block(open: Tok, body: Sequence, close: Tok, redirs: Redirs)

  datatype Chain = Single(c: Command) | Piped(c: Command, bar: Tok, rest: Chain)

  datatype Sequence = Final(chain: Chain, amps: Amps) | Then(chain: Chain, amps: Amps, semi: Tok, rest: Sequence)

  predicate OkRedirs(r: Redirs) {
    r.Redirect? ==> r.op.kind in "<>+" && r.file.kind == 'a' && OkRedirs(r.more)
  }

  predicate OkArgs(a: Args) {
    a.Arg? ==> a.word.kind == 'a' && OkRedirs(a.redirs) && OkArgs(a.more)
  }

  predicate OkAmps(a: Amps) {
    a.Amp? ==> a.tok.kind == '&' && OkAmps(a.more)
  }

  function ArgCount(a: Args): nat {
    if a.NoArg? then 0 else 1 + ArgCount(a.more)
  }

  predicate OkCommand(c: Command) {
    match c
    case Simple(redirs, args) => OkRedirs(redirs) && OkArgs(args) && ArgCount(args) < MAXARGS
    case Block(open, body, close, redirs) =>
      open.kind == '(' && OkSequence(body) && close.kind == ')' && OkRedirs(redirs)
  }

  predicate OkChain(c: Chain) {
    match c
    case Single(x) => OkCommand(x)
    case Piped(x, bar, rest) => OkCommand(x) && bar.kind == '|' && OkChain(rest)
  }

  predicate OkSequence(s: Sequence) {
    match s
    case Final(c, amps) => OkChain(c) && OkAmps(amps)
    case Then(c, amps, semi, rest) => OkChain(c) && OkAmps(amps) && semi.kind == ';' && OkSequence(rest)
  }

  // ----- the tokens of a syntax tree in order, followed by k

  function RedirsToks(r: Redirs, k: Toks): Toks {
    match r
    case NoRedir => k
    case Redirect(op, file, more) => Next(op, Next(file, RedirsToks(more, k)))
  }

  function ArgsToks(a: Args, k: Toks): Toks {
    match a
    case NoArg => k
    case Arg(w, redirs, more) => Next(w, RedirsToks(redirs, ArgsToks(more, k)))
  }

  function AmpsToks(a: Amps, k: Toks): Toks {
    match a
    case NoAmp => k
    case Amp(t, more) => Next(t, AmpsToks(more, k))
  }

  function CommandToks(c: Command, k: Toks): Toks
    decreases c
  {
    match c
    case Simple(redirs, args) => RedirsToks(redirs, ArgsToks(args, k))
    case Block(open, body, close, redirs) => Next(open, SequenceToks(body, Next(close, RedirsToks(redirs, k))))
  }

  function ChainToks(c: Chain, k: Toks): Toks
    decreases c
  {
    match c
    case Single(x) => CommandToks(x, k)
    case Piped(x, bar, rest) => CommandToks(x, Next(bar, ChainToks(rest, k)))
  }

  function SequenceToks(s: Sequence, k: Toks): Toks
    decreases s
  {
    match s
    case Final(c, amps) => ChainToks(c, AmpsToks(amps, k))
    case Then(c, amps, semi, rest) => ChainToks(c, AmpsToks(amps, Next(semi, SequenceToks(rest, k))))
  }

  // ----- the command a syntax tree stands for

  function WrapOf(op: Tok, file: Tok): Wrap {
    if op.kind == '<' then Wrap(file.span, ReadOnly, 0) else Wrap(file.span, WriteCreate, 1)
  }

  function RedirWraps(r: Redirs): seq<Wrap> {
    if r.NoRedir? then [] else [WrapOf(r.op, r.file)] + RedirWraps(r.more)
  }

  function ArgWraps(a: Args): seq<Wrap> {
    if a.NoArg? then [] else RedirWraps(a.redirs) + ArgWraps(a.more)
  }

  function ArgWords(a: Args): seq<Span> {
    if a.NoArg? then [] else [a.word.span] + ArgWords(a.more)
  }

  function Backs(c: Cmd, a: Amps): Cmd
    decreases a
  {
    if a.NoAmp? then c else Backs(Back(c), a.more)
  }

  function CommandTree(c: Command): Cmd {
    match c
    case Simple(redirs, args) => Wrapped(Exec(ArgWords(args)), RedirWraps(redirs) + ArgWraps(args))
    case Block(_, body, _, redirs) => Wrapped(SequenceTree(body), RedirWraps(redirs))
  }

  function ChainTree(c: Chain): Cmd {
    match c
    case Single(x) => CommandTree(x)
    case Piped(x, _, rest) => Pipe(CommandTree(x), ChainTree(rest))
  }

  function SequenceTree(s: Sequence): Cmd {
    match s
    case Final(c, amps) => Backs(ChainTree(c), amps)
    case Then(c, amps, _, rest) => List(Backs(ChainTree(c), amps), SequenceTree(rest))
  }

  // ----- the parser as a function of the tokens

  datatype Got<T> = Got(value: T, rest: Toks) | Fail(why: string)

  function Length(ts: Toks): nat {
    if ts.End? then 0 else 1 + Length(ts.rest)
  }

  function ReadRedirs(ts: Toks): (r: Got<Redirs>)
    ensures r.Got? ==> Length(r.rest) <= Length(ts)
  {
    if !Starts(ts, "<>+") then Got(NoRedir, ts)
    else if !Starts(ts.rest, "a") then Fail("missing file for redirection")
    else
      match ReadRedirs(ts.rest.rest)
      case Fail(why) => Fail(why)
      case Got(more, rest) => Got(Redirect(ts.tok, ts.rest.tok, more), rest)
  }

  /** Arguments, each followed by redirections; argc have been read before. */
  function ReadArgs(ts: Toks, argc: nat): (r: Got<Args>)
    ensures r.Got? ==> Length(r.rest) <= Length(ts)
    decreases Length(ts)
  {
    if ts.End? || Starts(ts, "|)&;") then Got(NoArg, ts)
    else if ts.tok.kind != 'a' then Fail("syntax")
    else if argc + 1 >= MAXARGS then Fail("too many args")
    else
      match ReadRedirs(ts.rest)
      case Fail(why) => Fail(why)
      case Got(redirs, mid) =>
        match ReadArgs(mid, argc + 1)
        case Fail(why) => Fail(why)
        case Got(more, rest) => Got(Arg(ts.tok, redirs, more), rest)
  }

  function ReadCommand(ts: Toks): (r: Got<Command>)
    ensures r.Got? ==> Length(r.rest) <= Length(ts)
    decreases Length(ts), 1
  {
    if Starts(ts, "(") then ReadBlock(ts)
    else
      match ReadRedirs(ts)
      case Fail(why) => Fail(why)
      case Got(redirs, mid) =>
        match ReadArgs(mid, 0)
        case Fail(why) => Fail(why)
        case Got(args, rest) => Got(Simple(redirs, args), rest)
  }

  function ReadBlock(ts: Toks): (r: Got<Command>)
    requires Starts(ts, "(")
    ensures r.Got? ==> Length(r.rest) <= Length(ts)
    decreases Length(ts), 0
  {
    match ReadSequence(ts.rest)
    case Fail(why) => Fail(why)
    case Got(body, mid) =>
      if !Starts(mid, ")") then Fail("syntax - missing )")
      else
        match ReadRedirs(mid.rest)
        case Fail(why) => Fail(why)
        case Got(redirs, rest) => Got(Block(ts.tok, body, mid.tok, redirs), rest)
  }

  function ReadChain(ts: Toks): (r: Got<Chain>)
    ensures r.Got? ==> Length(r.rest) <= Length(ts)
    decreases Length(ts), 2
  {
    match ReadCommand(ts)
    case Fail(why) => Fail(why)
    case Got(c, mid) =>
      if !Starts(mid, "|") then Got(Single(c), mid)
      else
        match ReadChain(mid.rest)
        case Fail(why) => Fail(why)
        case Got(more, rest) => Got(Piped(c, mid.tok, more), rest)
  }

  function ReadAmps(ts: Toks): Amps {
    if Starts(ts, "&") then Amp(ts.tok, ReadAmps(ts.rest)) else NoAmp
  }

  function AfterAmps(ts: Toks): (r: Toks)
    ensures Length(r) <= Length(ts)
  {
    if Starts(ts, "&") then AfterAmps(ts.rest) else ts
  }

  function ReadSequence(ts: Toks): (r: Got<Sequence>)
    ensures r.Got? ==> Length(r.rest) <= Length(ts)
    decreases Length(ts), 3
  {
    match ReadChain(ts)
    case Fail(why) => Fail(why)
    case Got(c, mid) =>
      var left := AfterAmps(mid);
      if !Starts(left, ";") then Got(Final(c, ReadAmps(mid)), left)
      else
        match ReadSequence(left.rest)
        case Fail(why) => Fail(why)
        case Got(more, rest) => Got(Then(c, ReadAmps(mid), left.tok, more), rest)
  }

  // ----- soundness: what was read is the tokens of the tree

  lemma {:induction false} RedirsSound(ts: Toks)
    requires ReadRedirs(ts).Got?
    ensures var r := ReadRedirs(ts); OkRedirs(r.value) && RedirsToks(r.value, r.rest) == ts
  {
    if Starts(ts, "<>+") { RedirsSound(ts.rest.rest); }
  }

  lemma {:induction false} ArgsSound(ts: Toks, argc: nat)
    requires ReadArgs(ts, argc).Got? && argc < MAXARGS
    ensures var r := ReadArgs(ts, argc);
            OkArgs(r.value) && argc + ArgCount(r.value) < MAXARGS && ArgsToks(r.value, r.rest) == ts
    decreases Length(ts)
  {
    if ts.Next? && !Starts(ts, "|)&;") {
      RedirsSound(ts.rest);
      ArgsSound(ReadRedirs(ts.rest).rest, argc + 1);
    }
  }

  lemma {:induction false} AmpsSound(ts: Toks)
    ensures OkAmps(ReadAmps(ts)) && AmpsToks(ReadAmps(ts), AfterAmps(ts)) == ts
  {
    if Starts(ts, "&") { AmpsSound(ts.rest); }
  }

  lemma {:induction false} CommandSound(ts: Toks)
    requires ReadCommand(ts).Got?
    ensures var r := ReadCommand(ts); OkCommand(r.value) && CommandToks(r.value, r.rest) == ts
    decreases Length(ts), 1
  {
    if Starts(ts, "(") {
      BlockSound(ts);
    } else {
      RedirsSound(ts);
      ArgsSound(ReadRedirs(ts).rest, 0);
    }
  }

  lemma {:induction false} BlockSound(ts: Toks)
    requires Starts(ts, "(") && ReadBlock(ts).Got?
    ensures var r := ReadBlock(ts); OkCommand(r.value) && CommandToks(r.value, r.rest) == ts
    decreases Length(ts), 0
  {
    SequenceSound(ts.rest);
    RedirsSound(ReadSequence(ts.rest).rest.rest);
  }

  lemma {:induction false} ChainSound(ts: Toks)
    requires ReadChain(ts).Got?
    ensures var r := ReadChain(ts); OkChain(r.value) && ChainToks(r.value, r.rest) == ts
    decreases Length(ts), 2
  {
    CommandSound(ts);
    var mid := ReadCommand(ts).rest;
    if Starts(mid, "|") { ChainSound(mid.rest); }
  }

  lemma {:induction false} SequenceSound(ts: Toks)
    requires ReadSequence(ts).Got?
    ensures var r := ReadSequence(ts); OkSequence(r.value) && SequenceToks(r.value, r.rest) == ts
    decreases Length(ts), 3
  {
    ChainSound(ts);
    var mid := ReadChain(ts).rest;
    AmpsSound(mid);
    if Starts(AfterAmps(mid), ";") { SequenceSound(AfterAmps(mid).rest); }
  }

  // ----- completeness: the tokens of a tree are read as that tree, if what follows cannot belong to it

  lemma {:induction false} RedirsComplete(r: Redirs, k: Toks)
    requires OkRedirs(r) && !Starts(k, "<>+")
    ensures ReadRedirs(RedirsToks(r, k)) == Got(r, k)
  {
    if r.Redirect? { RedirsComplete(r.more, k); }
  }

  lemma {:induction false} ArgsComplete(a: Args, k: Toks, argc: nat)
    requires OkArgs(a) && argc + ArgCount(a) < MAXARGS && (k.End? || Starts(k, "|)&;"))
    ensures ReadArgs(ArgsToks(a, k), argc) == Got(a, k) && !Starts(ArgsToks(a, k), "<>+(")
  {
    if a.Arg? {
      ArgsComplete(a.more, k, argc + 1);
      RedirsComplete(a.redirs, ArgsToks(a.more, k));
    }
  }

  lemma {:induction false} AmpsComplete(a: Amps, k: Toks)
    requires OkAmps(a) && !Starts(k, "&")
    ensures ReadAmps(AmpsToks(a, k)) == a && AfterAmps(AmpsToks(a, k)) == k
  {
    if a.Amp? { AmpsComplete(a.more, k); }
  }

  lemma {:induction false} CommandComplete(c: Command, k: Toks)
    requires OkCommand(c) && (k.End? || Starts(k, "|)&;"))
    ensures ReadCommand(CommandToks(c, k)) == Got(c, k)
    decreases c
  {
    match c
    case Simple(redirs, args) =>
      ArgsComplete(args, k, 0);
      RedirsComplete(redirs, ArgsToks(args, k));
    case Block(open, body, close, redirs) =>
      RedirsComplete(redirs, k);
      SequenceComplete(body, Next(close, RedirsToks(redirs, k)));
  }

  lemma {:induction false} ChainComplete(c: Chain, k: Toks)
    requires OkChain(c) && (k.End? || Starts(k, ")&;"))
    ensures ReadChain(ChainToks(c, k)) == Got(c, k)
    decreases c
  {
    match c
    case Single(x) => CommandComplete(x, k);
    case Piped(x, bar, rest) =>
      ChainComplete(rest, k);
      CommandComplete(x, Next(bar, ChainToks(rest, k)));
  }

  lemma {:induction false} SequenceComplete(s: Sequence, k: Toks)
    requires OkSequence(s) && (k.End? || Starts(k, ")"))
    ensures ReadSequence(SequenceToks(s, k)) == Got(s, k)
    decreases s
  {
    match s
    case Final(c, amps) =>
      AmpsComplete(amps, k);
      AmpsStop(amps, k);
      ChainComplete(c, AmpsToks(amps, k));
    case Then(c, amps, semi, rest) =>
      var more := Next(semi, SequenceToks(rest, k));
      SequenceComplete(rest, k);
      AmpsComplete(amps, more);
      AmpsStop(amps, more);
      ChainComplete(c, AmpsToks(amps, more));
  }

  lemma AmpsStop(a: Amps, k: Toks)
    requires OkAmps(a) && (k.End? || Starts(k, ");"))
    ensures AmpsToks(a, k).End? || Starts(AmpsToks(a, k), ")&;")
  {
  }

  /** The tokens are those of a command line with this syntax tree. */
  ghost predicate Derives(ts: Toks, s: Sequence) {
    OkSequence(s) && SequenceToks(s, End) == ts
  }

  /** The parser accepts exactly the command lines of the grammar, each of which has one syntax tree. */
  lemma GrammarIsParsed(ts: Toks, s: Sequence)
    ensures Derives(ts, s) <==> ReadSequence(ts) == Got(s, End)
  {
    if Derives(ts, s) { SequenceComplete(s, End); }
    if ReadSequence(ts) == Got(s, End) { SequenceSound(ts); }
  }

  // ----- the words of a syntax tree, in the order of the line

  function RedirFiles(r: Redirs): seq<Span> {
    if r.NoRedir? then [] else [r.file.span] + RedirFiles(r.more)
  }

  function ArgsLine(a: Args): seq<Span> {
    if a.NoArg? then [] else [a.word.span] + (RedirFiles(a.redirs) + ArgsLine(a.more))
  }

  function CommandWords(c: Command): seq<Span> {
    match c
    case Simple(redirs, args) => RedirFiles(redirs) + ArgsLine(args)
    case Block(_, body, _, redirs) => SequenceWords(body) + RedirFiles(redirs)
  }

  function ChainWords(c: Chain): seq<Span> {
    match c
    case Single(x) => CommandWords(x)
    case Piped(x, _, rest) => CommandWords(x) + ChainWords(rest)
  }

  function SequenceWords(s: Sequence): seq<Span> {
    match s
    case Final(c, _) => ChainWords(c)
    case Then(c, _, _, rest) => ChainWords(c) + SequenceWords(rest)
  }

  function WordSpans(ts: Toks): seq<Span> {
    if ts.End? then [] else (if ts.tok.kind == 'a' then [ts.tok.span] else []) + WordSpans(ts.rest)
  }

  lemma Regroup(a: seq<Span>, b: seq<Span>, c: seq<Span>)
    ensures a + (b + c) == (a + b) + c
  {
  }

  lemma {:induction false} WordsAreTokens(line: Line, p: nat)
    requires p <= |line|
    ensures WordsFrom(line, p) == WordSpans(TokensFrom(line, p))
    decreases |line| - p
  {
    hide Lex;
    var t := Lex(line, p);
    if t.kind != '\0' { WordsAreTokens(line, t.next); }
  }

  lemma {:induction false} RedirsWords(r: Redirs, k: Toks)
    requires OkRedirs(r)
    ensures WordSpans(RedirsToks(r, k)) == RedirFiles(r) + WordSpans(k)
  {
    if r.Redirect? {
      RedirsWords(r.more, k);
      Regroup([r.file.span], RedirFiles(r.more), WordSpans(k));
    }
  }

  lemma {:induction false} ArgsWords(a: Args, k: Toks)
    requires OkArgs(a)
    ensures WordSpans(ArgsToks(a, k)) == ArgsLine(a) + WordSpans(k)
  {
    if a.Arg? {
      ArgsWords(a.more, k);
      RedirsWords(a.redirs, ArgsToks(a.more, k));
      var f, m := RedirFiles(a.redirs), ArgsLine(a.more);
      Regroup(f, m, WordSpans(k));
      Regroup([a.word.span], f + m, WordSpans(k));
    }
  }

  lemma {:induction false} AmpsWords(a: Amps, k: Toks)
    requires OkAmps(a)
    ensures WordSpans(AmpsToks(a, k)) == WordSpans(k)
  {
    if a.Amp? { AmpsWords(a.more, k); }
  }

  lemma {:induction false} CommandTokWords(c: Command, k: Toks)
    requires OkCommand(c)
    ensures WordSpans(CommandToks(c, k)) == CommandWords(c) + WordSpans(k)
    decreases c
  {
    match c
    case Simple(redirs, args) =>
      ArgsWords(args, k);
      RedirsWords(redirs, ArgsToks(args, k));
      Regroup(RedirFiles(redirs), ArgsLine(args), WordSpans(k));
    case Block(open, body, close, redirs) =>
      RedirsWords(redirs, k);
      SequenceTokWords(body, Next(close, RedirsToks(redirs, k)));
      Regroup(SequenceWords(body), RedirFiles(redirs), WordSpans(k));
  }

  lemma {:induction false} ChainTokWords(c: Chain, k: Toks)
    requires OkChain(c)
    ensures WordSpans(ChainToks(c, k)) == ChainWords(c) + WordSpans(k)
    decreases c
  {
    match c
    case Single(x) => CommandTokWords(x, k);
    case Piped(x, bar, rest) =>
      ChainTokWords(rest, k);
      CommandTokWords(x, Next(bar, ChainToks(rest, k)));
      Regroup(CommandWords(x), ChainWords(rest), WordSpans(k));
  }

  lemma {:induction false} SequenceTokWords(s: Sequence, k: Toks)
    requires OkSequence(s)
    ensures WordSpans(SequenceToks(s, k)) == SequenceWords(s) + WordSpans(k)
    decreases s
  {
    match s
    case Final(c, amps) =>
      AmpsWords(amps, k);
      ChainTokWords(c, AmpsToks(amps, k));
    case Then(c, amps, semi, rest) =>
      var more := Next(semi, SequenceToks(rest, k));
      SequenceTokWords(rest, k);
      AmpsWords(amps, more);
      ChainTokWords(c, AmpsToks(amps, more));
      Regroup(ChainWords(c), SequenceWords(rest), WordSpans(k));
  }

  // ----- the words of the command are those of the line

  /** In an ordered line, what is read first stands before what is read next. */
  lemma OrderedParts(a: seq<Span>, b: seq<Span>, lo: nat, hi: nat)
    requires Ordered(a + b, lo, hi)
    ensures Ordered(a, lo, hi) && Ordered(b, lo, hi) && Before(a, b)
  {
    var all := a + b;
    assert forall i :: 0 <= i < |a| ==> all[i] == a[i];
    assert forall j :: 0 <= j < |b| ==> all[|a| + j] == b[j];
  }

  lemma SameElements(a: seq<Span>, b: seq<Span>, i: nat) returns (k: nat)
    requires i < |a| && multiset(a) <= multiset(b)
    ensures k < |b| && b[k] == a[i]
  {
    assert a[i] in multiset(a);
    k :| 0 <= k < |b| && b[k] == a[i];
  }

  lemma BeforeElements(a: seq<Span>, a': seq<Span>, b: seq<Span>, b': seq<Span>)
    requires Before(a, b) && multiset(a') <= multiset(a) && multiset(b') <= multiset(b)
    ensures Before(a', b')
  {
    forall i, j | 0 <= i < |a'| && 0 <= j < |b'| ensures a'[i].e < b'[j].q {
      var k := SameElements(a', a, i);
      var m := SameElements(b', b, j);
    }
  }

  lemma {:induction false} RedirWrapFiles(r: Redirs)
    ensures Files(RedirWraps(r)) == RedirFiles(r)
  {
    if r.Redirect? {
      RedirWrapFiles(r.more);
      FilesJoin([WrapOf(r.op, r.file)], RedirWraps(r.more));
    }
  }

  lemma FilesJoin(a: seq<Wrap>, b: seq<Wrap>)
    ensures Files(a + b) == Files(a) + Files(b)
  {
  }

  lemma {:induction false} ArgsMultiset(a: Args)
    ensures multiset(ArgsLine(a)) == multiset(ArgWords(a)) + multiset(Files(ArgWraps(a)))
    ensures |ArgWords(a)| == ArgCount(a)
  {
    if a.Arg? {
      hide Files, RedirFiles;
      ArgsMultiset(a.more);
      RedirWrapFiles(a.redirs);
      FilesJoin(RedirWraps(a.redirs), ArgWraps(a.more));
    }
  }

  lemma {:induction false} ArgsRising(a: Args, lo: nat, hi: nat)
    requires Ordered(ArgsLine(a), lo, hi)
    ensures Rising(ArgWords(a))
  {
    if a.Arg? {
      hide Ordered, Files, Before, RedirFiles, Rising;
      var w, f, m := [a.word.span], RedirFiles(a.redirs), ArgsLine(a.more);
      OrderedParts(w, f + m, lo, hi);
      OrderedParts(f, m, lo, hi);
      ArgsRising(a.more, lo, hi);
      ArgsMultiset(a.more);
      assert multiset(f + m) == multiset(f) + multiset(m);
      BeforeElements(w, w, f + m, ArgWords(a.more));
      RisingCons(a.word.span, ArgWords(a.more));
    }
  }

  ghost predicate Rising(argv: seq<Span>) {
    forall i, j :: 0 <= i < j < |argv| ==> argv[i].e < argv[j].q
  }

  lemma RisingCons(w: Span, argv: seq<Span>)
    requires Rising(argv) && Before([w], argv)
    ensures Rising([w] + argv)
  {
    forall j | 0 <= j < |argv| ensures w.e < argv[j].q { assert [w][0] == w; }
  }

  ghost predicate Faithful(c: Cmd, words: seq<Span>) {
    multiset(Words(c)) == multiset(words) && InLineOrder(c)
  }

  lemma {:induction false} CommandFaithful(c: Command, lo: nat, hi: nat)
    requires OkCommand(c) && Ordered(CommandWords(c), lo, hi)
    ensures Faithful(CommandTree(c), CommandWords(c))
    decreases c
  {
    hide Ordered, Before, Files, Words;
    match c
    case Simple(redirs, args) =>
      OrderedParts(RedirFiles(redirs), ArgsLine(args), lo, hi);
      ArgsRising(args, lo, hi);
      ArgsMultiset(args);
      RedirWrapFiles(redirs);
      FilesJoin(RedirWraps(redirs), ArgWraps(args));
      WrappedWords(Exec(ArgWords(args)), RedirWraps(redirs) + ArgWraps(args));
      ExecWords(ArgWords(args));
    case Block(open, body, close, redirs) =>
      OrderedParts(SequenceWords(body), RedirFiles(redirs), lo, hi);
      SequenceFaithful(body, lo, hi);
      RedirWrapFiles(redirs);
      WrappedWords(SequenceTree(body), RedirWraps(redirs));
  }

  lemma ExecWords(argv: seq<Span>)
    ensures Words(Exec(argv)) == argv
  {
  }

  lemma PairFaithful(l: Cmd, lw: seq<Span>, r: Cmd, rw: seq<Span>, lo: nat, hi: nat)
    requires Faithful(l, lw) && Faithful(r, rw) && Ordered(lw + rw, lo, hi)
    ensures Faithful(Pipe(l, r), lw + rw) && Faithful(List(l, r), lw + rw)
  {
    hide Ordered;
    OrderedParts(lw, rw, lo, hi);
    BeforeElements(lw, Words(l), rw, Words(r));
  }

  lemma {:induction false} BacksFaithful(c: Cmd, a: Amps, words: seq<Span>)
    requires Faithful(c, words)
    ensures Faithful(Backs(c, a), words)
    decreases a
  {
    if a.Amp? { BacksFaithful(Back(c), a.more, words); }
  }

  lemma {:induction false} ChainFaithful(c: Chain, lo: nat, hi: nat)
    requires OkChain(c) && Ordered(ChainWords(c), lo, hi)
    ensures Faithful(ChainTree(c), ChainWords(c))
    decreases c
  {
    hide Ordered, Before, Faithful;
    match c
    case Single(x) => CommandFaithful(x, lo, hi);
    case Piped(x, bar, rest) =>
      OrderedParts(CommandWords(x), ChainWords(rest), lo, hi);
      CommandFaithful(x, lo, hi);
      ChainFaithful(rest, lo, hi);
      PairFaithful(CommandTree(x), CommandWords(x), ChainTree(rest), ChainWords(rest), lo, hi);
  }

  lemma {:induction false} SequenceFaithful(s: Sequence, lo: nat, hi: nat)
    requires OkSequence(s) && Ordered(SequenceWords(s), lo, hi)
    ensures Faithful(SequenceTree(s), SequenceWords(s))
    decreases s
  {
    hide Ordered, Before, Faithful;
    match s
    case Final(c, amps) =>
      ChainFaithful(c, lo, hi);
      BacksFaithful(ChainTree(c), amps, ChainWords(c));
    case Then(c, amps, semi, rest) =>
      OrderedParts(ChainWords(c), SequenceWords(rest), lo, hi);
      ChainFaithful(c, lo, hi);
      BacksFaithful(ChainTree(c), amps, ChainWords(c));
      SequenceFaithful(rest, lo, hi);
      PairFaithful(Backs(ChainTree(c), amps), ChainWords(c), SequenceTree(rest), SequenceWords(rest), lo, hi);
  }

  /** The command a line is parsed to has exactly the words of the line, in their order. */
  lemma TreeHasLineWords(line: Line, s: Sequence)
    requires Derives(TokensFrom(line, 0), s)
    ensures Faithful(SequenceTree(s), WordsFrom(line, 0))
  {
    hide WordsFrom, Ordered, TokensFrom;
    WordsAreTokens(line, 0);
    SequenceTokWords(s, End);
    assert SequenceWords(s) + [] == SequenceWords(s);
    WordsOrdered(line, 0);
    SequenceFaithful(s, 0, |line|);
  }
}
