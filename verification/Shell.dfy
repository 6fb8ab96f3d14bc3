/** user/sh.c: the recursive-descent parser with its cursor, and the in-place termination of the words it found. */
module Shell {
  import opened CStrings
  import opened ShellSpec
  import opened ShellGrammar
  import opened ShellText
  import opened ShellSpelling

  datatype Parse = Ok(cmd: Cmd) | Panic(why: string)
  datatype Redirections = Found(wraps: seq<Wrap>) | NoFile

  // ----- what the parser functions deliver to the code: commands, words and redirections

  function RedirsOut(ts: Toks): Got<seq<Wrap>> {
    match ReadRedirs(ts)
    case Fail(why) => Fail(why)
    case Got(r, rest) => Got(RedirWraps(r), rest)
  }

  function ArgsOut(ts: Toks, argc: nat): Got<(seq<Span>, seq<Wrap>)> {
    match ReadArgs(ts, argc)
    case Fail(why) => Fail(why)
    case Got(a, rest) => Got((ArgWords(a), ArgWraps(a)), rest)
  }

  function CommandOut(ts: Toks): Got<Cmd> {
    match ReadCommand(ts)
    case Fail(why) => Fail(why)
    case Got(c, rest) => Got(CommandTree(c), rest)
  }

  function ChainOut(ts: Toks): Got<Cmd> {
    match ReadChain(ts)
    case Fail(why) => Fail(why)
    case Got(c, rest) => Got(ChainTree(c), rest)
  }

  function SequenceOut(ts: Toks): Got<Cmd> {
    match ReadSequence(ts)
    case Fail(why) => Fail(why)
    case Got(s, rest) => Got(SequenceTree(s), rest)
  }

  /** The result and the cursor are what the function on the tokens gives. */
  ghost predicate Parsed(line: Line, r: Parse, s: nat, got: Got<Cmd>) {
    match got
    case Fail(why) => r == Panic(why)
    case Got(c, rest) => r == Ok(c) && s <= |line| && TokensFrom(line, s) == rest
  }

  function Prepend(ws: seq<Wrap>, g: Got<seq<Wrap>>): Got<seq<Wrap>> {
    if g.Fail? then g else Got(ws + g.value, g.rest)
  }

  lemma RedirsStep(ws: seq<Wrap>, ts: Toks)
    ensures !Starts(ts, "<>+") ==> Prepend(ws, RedirsOut(ts)) == Got(ws, ts)
    ensures Starts(ts, "<>+") && Starts(ts.rest, "a") ==>
              Prepend(ws, RedirsOut(ts)) == Prepend(ws + [WrapOf(ts.tok, ts.rest.tok)], RedirsOut(ts.rest.rest))
    ensures Starts(ts, "<>+") && !Starts(ts.rest, "a") ==> RedirsOut(ts) == Fail("missing file for redirection")
  {
    if Starts(ts, "<>+") && Starts(ts.rest, "a") && RedirsOut(ts.rest.rest).Got? {
      var w, more := WrapOf(ts.tok, ts.rest.tok), RedirsOut(ts.rest.rest).value;
      assert ws + ([w] + more) == (ws + [w]) + more;
    }
    assert ws + [] == ws;
  }

  function Join(argv: seq<Span>, ws: seq<Wrap>, g: Got<(seq<Span>, seq<Wrap>)>): Got<(seq<Span>, seq<Wrap>)> {
    if g.Fail? then g else Got((argv + g.value.0, ws + g.value.1), g.rest)
  }

  /** One turn of parseexec's loop. */
  lemma ArgsStep(argv: seq<Span>, ws: seq<Wrap>, ts: Toks)
    ensures var n := |argv|;
            && (ts.End? || Starts(ts, "|)&;") ==> Join(argv, ws, ArgsOut(ts, n)) == Got((argv, ws), ts))
            && (ts.Next? && !Starts(ts, "|)&;") ==>
                  if ts.tok.kind != 'a' then ArgsOut(ts, n) == Fail("syntax")
                  else if n + 1 >= MAXARGS then ArgsOut(ts, n) == Fail("too many args")
                  else if RedirsOut(ts.rest).Fail? then ArgsOut(ts, n) == Fail(RedirsOut(ts.rest).why)
                  else Join(argv, ws, ArgsOut(ts, n)) ==
                       Join(argv + [ts.tok.span], ws + RedirsOut(ts.rest).value,
                            ArgsOut(RedirsOut(ts.rest).rest, n + 1)))
  {
    var n := |argv|;
    assert argv + [] == argv && ws + [] == ws;
    if ts.Next? && ts.tok.kind == 'a' && RedirsOut(ts.rest).Got? {
      var more := ArgsOut(RedirsOut(ts.rest).rest, n + 1);
      if more.Got? {
        assert argv + ([ts.tok.span] + more.value.0) == (argv + [ts.tok.span]) + more.value.0;
        assert ws + (RedirsOut(ts.rest).value + more.value.1) == (ws + RedirsOut(ts.rest).value) + more.value.1;
      }
    }
  }

  /** parseexec outside a block: redirections, then arguments. */
  lemma SimpleOut(ts: Toks)
    requires !Starts(ts, "(")
    ensures var rs := RedirsOut(ts);
            if rs.Fail? then CommandOut(ts) == Fail(rs.why)
            else
              var more := Join([], rs.value, ArgsOut(rs.rest, 0));
              CommandOut(ts) == if more.Fail? then Fail(more.why)
                                else Got(Wrapped(Exec(more.value.0), more.value.1), more.rest)
  {
    var rs := ReadRedirs(ts);
    if rs.Got? {
      var args := ReadArgs(rs.rest, 0);
      if args.Got? { assert [] + ArgWords(args.value) == ArgWords(args.value); }
    }
  }

  lemma BlockOut(ts: Toks)
    requires Starts(ts, "(")
    ensures var body := SequenceOut(ts.rest);
            CommandOut(ts) == if body.Fail? then Fail(body.why)
                              else if !Starts(body.rest, ")") then Fail("syntax - missing )")
                              else
                                var rs := RedirsOut(body.rest.rest);
                                if rs.Fail? then Fail(rs.why) else Got(Wrapped(body.value, rs.value), rs.rest)
  {
    assert ReadCommand(ts) == ReadBlock(ts);
    var body := ReadSequence(ts.rest);
    if body.Got? && Starts(body.rest, ")") {
      assert RedirsOut(body.rest.rest).Fail? == ReadRedirs(body.rest.rest).Fail?;
    }
  }

  lemma ChainStep(ts: Toks)
    ensures var c := CommandOut(ts);
            ChainOut(ts) == if c.Fail? || !Starts(c.rest, "|") then c
                            else
                              var more := ChainOut(c.rest.rest);
                              if more.Fail? then more else Got(Pipe(c.value, more.value), more.rest)
  {
  }

  lemma SequenceStep(ts: Toks)
    ensures var c := ChainOut(ts);
            SequenceOut(ts) == if c.Fail? then c
                               else
                                 var left, rest := Backs(c.value, ReadAmps(c.rest)), AfterAmps(c.rest);
                                 if !Starts(rest, ";") then Got(left, rest)
                                 else
                                   var more := SequenceOut(rest.rest);
                                   if more.Fail? then more else Got(List(left, more.value), more.rest)
  {
  }

  /** The next token begins at the cursor: which one it is can be told from the character there. */
  lemma HeadToken(line: Line, s: nat)
    requires s <= |line| && Skip(line, s) == s
    ensures s == |line| ==> TokensFrom(line, s) == End
    ensures s < |line| ==>
              var ts, c := TokensFrom(line, s), line[s];
              && ts.Next? && (Symbol(c) && c != '>' ==> ts.tok.kind == c) && (c == '>' ==> ts.tok.kind in ">+")
              && (!Symbol(c) ==> ts.tok.kind == 'a')
              && s < Lex(line, s).next && ts.rest == TokensFrom(line, Lex(line, s).next)
  {
    hide Skip, WordEnd, TokensFrom;
    FirstToken(line, s);
  }

  lemma FirstToken(line: Line, s: nat)
    requires s <= |line|
    ensures var t := Lex(line, s);
            TokensFrom(line, s) == if t.kind == '\0' then End else Next(Tok(t.kind, t.span), TokensFrom(line, t.next))
  {
    hide Lex;
  }

  lemma TokensSkip(line: Line, p: nat, r: nat)
    requires p <= r <= |line| && Lex(line, p) == Lex(line, r)
    ensures TokensFrom(line, p) == TokensFrom(line, r)
  {
    hide Lex;
  }

  class Parser {
    const line: Line
    var s: nat

    constructor (line: Line)
      ensures this.line == line && s == 0
    {
      this.line, s := line, 0;
    }

    method SkipBlanks(from: nat) returns (p: nat)
      requires from <= |line|
      ensures p == Skip(line, from)
    {
      p := from;
      while p < |line| && Blank(line[p])
        invariant from <= p <= |line| && Skip(line, from) == Skip(line, p)
      {
        p := p + 1;
      }
    }

    /** gettoken. */
    method GetToken() returns (kind: char, span: Span)
      requires s <= |line|
      modifies this
      ensures Token(kind, span, s) == Lex(line, old(s)) && s <= |line|
      ensures TokensFrom(line, old(s)) == if kind == '\0' then End else Next(Tok(kind, span), TokensFrom(line, s))
    {
      hide WordEnd, Skip;
      var q := SkipBlanks(s);
      var p := q;
      kind := At(line, p);
      if kind == '\0' {
      } else if kind == '|' || kind == '(' || kind == ')' || kind == ';' || kind == '&' || kind == '<' {
        p := p + 1;
      } else if kind == '>' {
        p := p + 1;
        if At(line, p) == '>' {
          kind := '+';
          p := p + 1;
        }
      } else {
        kind := 'a';
        p := SkipWord(q);
      }
      span := Span(q, p);
      s := SkipBlanks(p);
    }

    method SkipWord(from: nat) returns (p: nat)
      requires from <= |line|
      ensures p == WordEnd(line, from)
    {
      p := from;
      while p < |line| && !Blank(line[p]) && !Symbol(line[p])
        invariant from <= p <= |line| && WordEnd(line, from) == WordEnd(line, p)
      {
        p := p + 1;
      }
    }

    method Peek(toks: string) returns (r: bool)
      requires s <= |line|
      modifies this
      ensures s == Skip(line, old(s)) && (r <==> At(line, s) != '\0' && At(line, s) in toks)
      ensures Skip(line, s) == s && TokensFrom(line, s) == TokensFrom(line, old(s))
    {
      hide Blank, Lex, WordsFrom, TokensFrom;
      var p := SkipBlanks(s);
      BlanksSkipped(line, s, p);
      TokensSkip(line, s, p);
      SkipTwice(line, s, p);
      s := p;
      r := At(line, s) != '\0' && At(line, s) in toks;
    }

    /** parseredirs: the redirections at the cursor. */
    method ParseRedirs() returns (r: Redirections)
      requires s <= |line|
      modifies this
      ensures old(s) <= s <= |line|
      ensures match RedirsOut(TokensFrom(line, old(s)))
              case Fail(why) => r == NoFile && why == "missing file for redirection"
              case Got(ws, rest) => r == Found(ws) && TokensFrom(line, s) == rest
      ensures r.Found? ==> SpellsRedirs(line, r.wraps, old(s), s)
    {
      hide Lex, TokensFrom, RedirsOut, Skip, InWord, Blank, Prepend, SpellsRedirs, RedirAt;
      ghost var out := RedirsOut(TokensFrom(line, s));
      PrependNone(out);
      var wraps: seq<Wrap> := [];
      var more := Peek("<>");
      SpellsNone(line, old(s), s);
      while more
        invariant SpellsRedirs(line, wraps, old(s), s)
        invariant old(s) <= s <= |line| && out == Prepend(wraps, RedirsOut(TokensFrom(line, s)))
        invariant Skip(line, s) == s && (more <==> At(line, s) != '\0' && At(line, s) in "<>")
        decreases |line| - s
      {
        ghost var ts, at := TokensFrom(line, s), s;
        HeadToken(line, s);
        RedirsStep(wraps, ts);
        RedirLex(line, s);
        var tok, _ := GetToken();
        var kind, file := GetToken();
        if kind != 'a' {
          PrependFails(wraps, RedirsOut(ts));
          return NoFile;
        }
        var w := if tok == '<' then Wrap(file, ReadOnly, 0) else Wrap(file, WriteCreate, 1);
        SpellsMore(line, wraps, w, old(s), at, s);
        wraps := wraps + [w];
        SettledSkip(line, s);
        more := Peek("<>");
      }
      HeadToken(line, s);
      RedirsStep(wraps, TokensFrom(line, s));
      return Found(wraps);
    }

    /** parseexec. */
    method ParseExec() returns (r: Parse)
      requires s <= |line|
      modifies this
      ensures old(s) <= s <= |line| && Parsed(line, r, s, CommandOut(TokensFrom(line, old(s))))
      decreases |line| - s, 1
    {
      hide Lex, TokensFrom, Skip, InWord, Blank, CommandOut, RedirsOut, ArgsOut, Wrapped, Join, SpellsRedirs;
      ghost var all := TokensFrom(line, s);
      var block := Peek("(");
      HeadToken(line, s);
      if block {
        r := ParseBlock();
        return;
      }
      SimpleOut(all);
      var argv: seq<Span> := [];
      var found := ParseRedirs();
      if found.NoFile? { return Panic("missing file for redirection"); }
      var wraps := found.wraps;
      ghost var out := Join([], wraps, ArgsOut(TokensFrom(line, s), 0));
      var stop := Peek("|)&;");
      while !stop
        invariant old(s) <= s <= |line| && |argv| < MAXARGS
        invariant out == Join(argv, wraps, ArgsOut(TokensFrom(line, s), |argv|))
        invariant Skip(line, s) == s && (stop <==> At(line, s) != '\0' && At(line, s) in "|)&;")
        decreases |line| - s
      {
        HeadToken(line, s);
        ArgsStep(argv, wraps, TokensFrom(line, s));
        JoinFails(argv, wraps, ArgsOut(TokensFrom(line, s), |argv|));
        var tok, span := GetToken();
        if tok == '\0' { break; }
        if tok != 'a' { return Panic("syntax"); }
        argv := argv + [span];
        if |argv| >= MAXARGS { return Panic("too many args"); }
        found := ParseRedirs();
        if found.NoFile? { return Panic("missing file for redirection"); }
        wraps := wraps + found.wraps;
        stop := Peek("|)&;");
      }
      ArgsDone(line, s, argv, wraps, stop);
      return Ok(Wrapped(Exec(argv), wraps));
    }

    /** parseblock. */
    method ParseBlock() returns (r: Parse)
      requires s <= |line|
      modifies this
      ensures old(s) <= s <= |line|
      ensures var ts := TokensFrom(line, old(s));
              if Starts(ts, "(") then Parsed(line, r, s, CommandOut(ts)) else r == Panic("parseblock")
      decreases |line| - s, 0
    {
      hide Lex, TokensFrom, Skip, InWord, Blank, CommandOut, SequenceOut, RedirsOut, Wrapped, SpellsRedirs;
      ghost var ts := TokensFrom(line, s);
      var open := Peek("(");
      HeadToken(line, s);
      if !open { return Panic("parseblock"); }
      BlockOut(ts);
      var _, _ := GetToken();
      r := ParseLine();
      if r.Panic? { return; }
      var close := Peek(")");
      HeadToken(line, s);
      if !close { return Panic("syntax - missing )"); }
      var _, _ := GetToken();
      var found := ParseRedirs();
      if found.NoFile? { return Panic("missing file for redirection"); }
      return Ok(Wrapped(r.cmd, found.wraps));
    }

    /** parsepipe. */
    method ParsePipe() returns (r: Parse)
      requires s <= |line|
      modifies this
      ensures old(s) <= s <= |line| && Parsed(line, r, s, ChainOut(TokensFrom(line, old(s))))
      decreases |line| - s, 2
    {
      hide Lex, TokensFrom, Skip, InWord, Blank, CommandOut, ChainOut;
      ChainStep(TokensFrom(line, s));
      r := ParseExec();
      if r.Panic? { return; }
      var bar := Peek("|");
      HeadToken(line, s);
      if bar {
        var _, _ := GetToken();
        var right := ParsePipe();
        if right.Panic? { return right; }
        return Ok(Pipe(r.cmd, right.cmd));
      }
    }

    /** parseline. */
    method ParseLine() returns (r: Parse)
      requires s <= |line|
      modifies this
      ensures old(s) <= s <= |line| && Parsed(line, r, s, SequenceOut(TokensFrom(line, old(s))))
      decreases |line| - s, 3
    {
      hide Lex, TokensFrom, Skip, InWord, Blank, ChainOut, SequenceOut, ReadAmps, AfterAmps, Backs;
      SequenceStep(TokensFrom(line, s));
      r := ParsePipe();
      if r.Panic? { return; }
      ghost var cmd, rest := r.cmd, TokensFrom(line, s);
      var amp := Peek("&");
      while amp
        invariant old(s) <= s <= |line| && r.Ok?
        invariant Backs(r.cmd, ReadAmps(TokensFrom(line, s))) == Backs(cmd, ReadAmps(rest))
        invariant AfterAmps(TokensFrom(line, s)) == AfterAmps(rest)
        invariant Skip(line, s) == s && (amp <==> At(line, s) != '\0' && At(line, s) in "&")
        decreases |line| - s
      {
        HeadToken(line, s);
        AmpStep(r.cmd, TokensFrom(line, s));
        var _, _ := GetToken();
        r := Ok(Back(r.cmd));
        amp := Peek("&");
      }
      HeadToken(line, s);
      AmpStep(r.cmd, TokensFrom(line, s));
      var semi := Peek(";");
      HeadToken(line, s);
      if semi {
        var _, _ := GetToken();
        var right := ParseLine();
        if right.Panic? { return right; }
        return Ok(List(r.cmd, right.cmd));
      }
    }
  }

  lemma SpellsNone(line: Line, p: nat, q: nat)
    requires p <= |line| && q == Skip(line, p)
    ensures SpellsRedirs(line, [], p, q)
  {
    hide Skip;
  }

  lemma SettledSkip(line: Line, p: nat)
    requires p <= |line| && Settled(line, p)
    ensures Skip(line, p) == p
  {
  }

  lemma PrependNone(g: Got<seq<Wrap>>)
    ensures Prepend([], g) == g
  {
    if g.Got? { assert [] + g.value == g.value; }
  }

  lemma PrependFails(ws: seq<Wrap>, g: Got<seq<Wrap>>)
    ensures g.Fail? ==> Prepend(ws, g) == g
  {
  }

  lemma JoinFails(argv: seq<Span>, ws: seq<Wrap>, g: Got<(seq<Span>, seq<Wrap>)>)
    ensures g.Fail? ==> Join(argv, ws, g) == g
  {
  }

  lemma AmpStep(c: Cmd, ts: Toks)
    ensures Backs(c, ReadAmps(ts)) == if Starts(ts, "&") then Backs(Back(c), ReadAmps(ts.rest)) else c
    ensures AfterAmps(ts) == if Starts(ts, "&") then AfterAmps(ts.rest) else ts
  {
  }

  /** parseexec's loop ends at a stopping symbol or at the end of the line. */
  lemma ArgsDone(line: Line, s: nat, argv: seq<Span>, ws: seq<Wrap>, stop: bool)
    requires s <= |line| && Skip(line, s) == s && if stop then At(line, s) in "|)&;" else s == |line|
    ensures Join(argv, ws, ArgsOut(TokensFrom(line, s), |argv|)) == Got((argv, ws), TokensFrom(line, s))
  {
    hide TokensFrom, ArgsOut, Lex, Skip, Join;
    HeadToken(line, s);
    ArgsStep(argv, ws, TokensFrom(line, s));
  }

  // ----- nulterminate and parsecmd

  ghost predicate EndsAt(words: seq<Span>, k: int) {
    exists i :: 0 <= i < |words| && words[i].e == k
  }

  lemma EndsAtJoin(a: seq<Span>, b: seq<Span>, k: int)
    ensures EndsAt(a + b, k) <==> EndsAt(a, k) || EndsAt(b, k)
  {
    if i :| 0 <= i < |a| && a[i].e == k { assert (a + b)[i].e == k; }
    if i :| 0 <= i < |b| && b[i].e == k { assert (a + b)[|a| + i].e == k; }
  }

  /** Exactly the words' ends are overwritten. */
  ghost predicate Cut(before: seq<char>, after: seq<char>, words: seq<Span>) {
    |after| == |before| && forall k :: 0 <= k < |before| ==> after[k] == if EndsAt(words, k) then '\0' else before[k]
  }

  lemma CutJoin(a: seq<char>, b: seq<char>, c: seq<char>, v: seq<Span>, w: seq<Span>)
    requires Cut(a, b, v) && Cut(b, c, w)
    ensures Cut(a, c, v + w)
  {
    forall k | 0 <= k < |a| ensures c[k] == if EndsAt(v + w, k) then '\0' else a[k] { EndsAtJoin(v, w, k); }
  }

  lemma CutOne(a: seq<char>, w: Span)
    requires w.e < |a|
    ensures Cut(a, a[w.e := '\0'], [w])
  {
    forall k | 0 <= k < |a| ensures EndsAt([w], k) <==> k == w.e { assert [w][0] == w; }
  }

  ghost predicate Inside(words: seq<Span>, n: nat) {
    forall i :: 0 <= i < |words| ==> words[i].e < n
  }

  method NulTerminate(buf: array<char>, c: Cmd)
    requires Inside(Words(c), buf.Length)
    modifies buf
    ensures Cut(old(buf[..]), buf[..], Words(c))
    decreases c
  {
    hide Cut;
    ghost var was := buf[..];
    match c
    case Exec(argv) =>
      CutNone(was);
      var i := 0;
      while i < |argv|
        invariant 0 <= i <= |argv| && Cut(was, buf[..], argv[..i])
      {
        CutOne(buf[..], argv[i]);
        CutJoin(was, buf[..], buf[..][argv[i].e := '\0'], argv[..i], [argv[i]]);
        buf[argv[i].e] := '\0';
        assert argv[..i + 1] == argv[..i] + [argv[i]];
        i := i + 1;
      }
      assert argv[..i] == argv;
    case Redir(sub, file, _, _) =>
      InsideParts(Words(sub), [file], buf.Length);
      NulTerminate(buf, sub);
      assert [file][0] == file;
      CutOne(buf[..], file);
      CutJoin(was, buf[..], buf[..][file.e := '\0'], Words(sub), [file]);
      buf[file.e] := '\0';
    case Pipe(l, r) =>
      InsideParts(Words(l), Words(r), buf.Length);
      NulTerminate(buf, l);
      ghost var mid := buf[..];
      NulTerminate(buf, r);
      CutJoin(was, mid, buf[..], Words(l), Words(r));
    case List(l, r) =>
      InsideParts(Words(l), Words(r), buf.Length);
      NulTerminate(buf, l);
      ghost var mid := buf[..];
      NulTerminate(buf, r);
      CutJoin(was, mid, buf[..], Words(l), Words(r));
    case Back(sub) =>
      NulTerminate(buf, sub);
  }

  lemma CutNone(a: seq<char>)
    ensures Cut(a, a, [])
  {
  }

  lemma InsideParts(a: seq<Span>, b: seq<Span>, n: nat)
    requires Inside(a + b, n)
    ensures Inside(a, n) && Inside(b, n)
  {
    forall i | 0 <= i < |a| ensures a[i].e < n { assert (a + b)[i] == a[i]; }
    forall i | 0 <= i < |b| ensures b[i].e < n { assert (a + b)[|a| + i] == b[i]; }
  }

  /** A NUL-terminated string at q, equal to the token. */
  predicate IsCString(buf: seq<char>, line: Line, w: Span) {
    w.q < w.e <= |line| < |buf| && buf[w.q..w.e] == line[w.q..w.e] && buf[w.e] == '\0'
  }

  ghost predicate PairwiseDisjoint(words: seq<Span>) {
    forall i, j :: 0 <= i < j < |words| ==> words[i].e < words[j].q || words[j].e < words[i].q
  }

  lemma {:induction false} OnceOnly(s: seq<Span>, n: nat, lo: nat, hi: nat, v: Span)
    requires n <= |s| && Ordered(s, lo, hi)
    ensures multiset(s[..n])[v] <= 1 && (n < |s| && s[n] == v ==> multiset(s[..n])[v] == 0)
  {
    if n > 0 {
      OnceOnly(s, n - 1, lo, hi, v);
      assert s[..n] == s[..n - 1] + [s[n - 1]];
      if n < |s| && s[n] == v {
        assert forall i :: 0 <= i < n ==> s[i] != v;
        assert v !in s[..n];
      }
    }
  }

  lemma Twice(s: seq<Span>, i: nat, j: nat)
    requires i < j < |s| && s[i] == s[j]
    ensures multiset(s)[s[i]] >= 2
  {
    assert s == s[..j] + [s[j]] + s[j + 1..];
    assert s[i] in s[..j];
  }

  /** The words of the tree, whatever their order, are as far apart as the words of the line. */
  lemma TreeWordsApart(all: seq<Span>, words: seq<Span>, lo: nat, hi: nat)
    requires Ordered(all, lo, hi) && multiset(words) == multiset(all)
    ensures PairwiseDisjoint(words)
  {
    assert all[..|all|] == all;
    forall i, j | 0 <= i < j < |words| ensures words[i].e < words[j].q || words[j].e < words[i].q {
      OnceOnly(all, |all|, lo, hi, words[i]);
      var a := SameElements(words, all, i);
      var b := SameElements(words, all, j);
      if a == b { Twice(words, i, j); }
    }
  }

  lemma WordIsCut(line: Line, buf: seq<char>, words: seq<Span>, i: nat)
    requires Cut(line + ['\0'], buf, words) && PairwiseDisjoint(words) && i < |words|
    requires forall k :: 0 <= k < |words| ==> words[k].q < words[k].e <= |line|
    ensures IsCString(buf, line, words[i])
  {
    var w := words[i];
    forall k | w.q <= k < w.e ensures !EndsAt(words, k) {
      forall j | 0 <= j < |words| ensures words[j].e != k {
        assert if i < j then words[i].e < words[j].q || words[j].e < words[i].q
               else if j < i then words[j].e < words[i].q || words[i].e < words[j].q else true;
      }
    }
    assert EndsAt(words, w.e);
    assert forall k :: w.q <= k < w.e ==> buf[k] == line[k];
  }

  /** parsecmd: parse the whole line and terminate its words in place. It accepts exactly the lines of the grammar,
      and `t` is the syntax tree: its tokens are the line's and its command is the result. */
  method ParseCmd(line: Line, buf: array<char>) returns (r: Parse, ghost t: Sequence)
    requires buf[..] == line + ['\0']
    modifies buf
    ensures r.Ok? ==> Derives(TokensFrom(line, 0), t) && r.cmd == SequenceTree(t)
    ensures r.Panic? ==> forall u :: !Derives(TokensFrom(line, 0), u)
    ensures r.Ok? ==> SpellsLine(line, r.cmd, 0, |line|) && FewArgs(r.cmd) && RedirsRight(line, r.cmd)
    ensures r.Panic? ==> forall c :: !(SpellsLine(line, c, 0, |line|) && FewArgs(c))
    ensures r.Ok? ==> multiset(Words(r.cmd)) == multiset(WordsFrom(line, 0)) && InLineOrder(r.cmd)
    ensures r.Ok? ==> PairwiseDisjoint(Words(r.cmd))
    ensures r.Ok? ==> forall i :: 0 <= i < |Words(r.cmd)| ==> IsCString(buf[..], line, Words(r.cmd)[i])
    ensures r.Panic? ==> buf[..] == old(buf[..])
  {
    hide Skip, Lex, WordsFrom, Cut, IsCString, TokensFrom, Derives, ReadSequence, SequenceTree, SpellsLine, RedirsRight;
    hide FewArgs, InLineOrder;
    ghost var ts := TokensFrom(line, 0);
    t := Final(Single(Simple(NoRedir, NoArg)), NoAmp);
    forall u ensures Derives(ts, u) <==> ReadSequence(ts) == Got(u, End) { GrammarIsParsed(ts, u); }
    var p := new Parser(line);
    r := p.ParseLine();
    if r.Panic? {
      NoneSpelled(line);
      return;
    }
    var _ := p.Peek("");
    HeadToken(line, p.s);
    if p.s != |line| {
      NoneSpelled(line);
      return Panic("syntax"), t;
    }
    t := ReadSequence(ts).value;
    TreeHasLineWords(line, t);
    LineSpellsTree(line, t);
    LineRight(line, r.cmd, 0, |line|);
    OrderedFewArgs(r.cmd);
    WordsOrdered(line, 0);
    TreeWordsApart(WordsFrom(line, 0), Words(r.cmd), 0, |line|);
    TreeWordsInside(WordsFrom(line, 0), Words(r.cmd), 0, |line|);
    NulTerminate(buf, r.cmd);
    forall i | 0 <= i < |Words(r.cmd)|
      ensures IsCString(buf[..], line, Words(r.cmd)[i])
    {
      WordIsCut(line, buf[..], Words(r.cmd), i);
    }
  }

  lemma NoneSpelled(line: Line)
    requires forall s :: !Derives(TokensFrom(line, 0), s)
    ensures forall c :: !(SpellsLine(line, c, 0, |line|) && FewArgs(c))
  {
    hide SpellsLine, TokensFrom, Derives, FewArgs;
    forall c ensures !(SpellsLine(line, c, 0, |line|) && FewArgs(c)) { NothingSpelled(line, c); }
  }

  lemma TreeWordsInside(all: seq<Span>, words: seq<Span>, lo: nat, hi: nat)
    requires Ordered(all, lo, hi) && multiset(words) == multiset(all)
    ensures Inside(words, hi + 1) && forall k :: 0 <= k < |words| ==> words[k].q < words[k].e <= hi
  {
    forall k | 0 <= k < |words| ensures words[k].q < words[k].e <= hi { var a := SameElements(words, all, k); }
  }
}
