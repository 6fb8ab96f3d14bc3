/** user/sh.c: the words of a command line, and the command trees whose arguments and file names they become. */
module ShellSpec {
  import opened CStrings

  const MAXARGS := 10

  /** A command line. */
  type Line = CString

  /** line[q..e]: a pointer to its start and one past its end. */
  datatype Span = Span(q: nat, e: nat)

  datatype Mode = ReadOnly | WriteCreate

  datatype Cmd =
    | Exec(argv: seq<Span>)
    | Redir(sub: Cmd, file: Span, mode: Mode, fd: nat)
    | Pipe(left: Cmd, right: Cmd)
    | List(left: Cmd, right: Cmd)
    | Back(sub: Cmd)

  predicate Blank(c: char) {
    c == ' ' || c == '\t' || c == '\r' || c == '\n' || c == '\U{0B}'
  }

  predicate Symbol(c: char) {
    c == '<' || c == '|' || c == '>' || c == '&' || c == ';' || c == '(' || c == ')'
  }

  // ----- tokens

  function Skip(line: Line, p: nat): (r: nat)
    requires p <= |line|
    ensures p <= r <= |line| && !Blank(At(line, r)) && forall k :: p <= k < r ==> Blank(line[k])
    decreases |line| - p
  {
    if p < |line| && Blank(line[p]) then Skip(line, p + 1) else p
  }

  predicate InWord(c: char) {
    !Blank(c) && !Symbol(c)
  }

  function WordEnd(line: Line, p: nat): (r: nat)
    requires p <= |line|
    ensures p <= r <= |line| && (r == |line| || !InWord(line[r])) && forall k :: p <= k < r ==> InWord(line[k])
    decreases |line| - p
  {
    if p < |line| && InWord(line[p]) then WordEnd(line, p + 1) else p
  }

  /** kind: 0 at the end, 'a' for a word, '+' for >>, otherwise the symbol itself. */
  datatype Token = Token(kind: char, span: Span, next: nat)

  function Lex(line: Line, p: nat): (t: Token)
    requires p <= |line|
    ensures p <= t.span.q <= t.span.e <= t.next <= |line|
    ensures t.kind != '\0' ==> t.span.q < t.span.e
    ensures t.kind == '\0' ==> t.next == |line|
    ensures t.span.q == Skip(line, p) && (t.kind == '\0' <==> t.span.q == |line|)
    ensures t.kind == 'a' <==> t.span.q < |line| && InWord(line[t.span.q])
  {
    var q := Skip(line, p);
    var c := At(line, q);
    var kind := if c == '\0' || (Symbol(c) && c != '>') then c
                else if c != '>' then 'a'
                else if At(line, q + 1) == '>' then '+' else '>';
    var e := if c == '\0' then q else if c == '>' then (if At(line, q + 1) == '>' then q + 2 else q + 1)
             else if Symbol(c) then q + 1 else WordEnd(line, q);
    Token(kind, Span(q, e), Skip(line, e))
  }

  /** The words of the line from p on, in order. */
  function WordsFrom(line: Line, p: nat): seq<Span>
    requires p <= |line|
    decreases |line| - p
  {
    var t := Lex(line, p);
    if t.kind == '\0' then [] else (if t.kind == 'a' then [t.span] else []) + WordsFrom(line, t.next)
  }

  lemma {:induction false} SkipTwice(line: Line, p: nat, r: nat)
    requires p <= r <= |line| && forall k :: p <= k < r ==> Blank(line[k])
    ensures Skip(line, p) == Skip(line, r)
    decreases r - p
  {
    hide Blank;
    if p < r { SkipTwice(line, p + 1, r); }
  }

  /** Leading blanks do not matter. */
  lemma BlanksSkipped(line: Line, p: nat, r: nat)
    requires p <= r <= |line| && forall k :: p <= k < r ==> Blank(line[k])
    ensures Lex(line, p) == Lex(line, r) && WordsFrom(line, p) == WordsFrom(line, r)
  {
    hide Blank, Symbol, Skip, WordEnd;
    SkipTwice(line, p, r);
    assert Lex(line, p) == Lex(line, r);
    hide Lex;
  }

  /** Inside the line, non-empty, and with a gap before the next one. */
  ghost predicate Ordered(words: seq<Span>, lo: nat, hi: nat) {
    && (forall i :: 0 <= i < |words| ==> lo <= words[i].q < words[i].e <= hi)
    && (forall i, j :: 0 <= i < j < |words| ==> words[i].e < words[j].q)
  }

  /** A word ends before a blank, a symbol or the end, so the next one starts further on. */
  lemma LexGap(line: Line, p: nat)
    requires p <= |line|
    ensures var t := Lex(line, p);
            && (t.kind == 'a' ==> t.next > t.span.e || t.next == |line| || !InWord(line[t.next]))
            && (p < |line| && !InWord(line[p]) && t.kind == 'a' ==> p < t.span.q)
  {
    hide Skip, WordEnd;
  }

  /** The words of a line have gaps between them. */
  lemma {:induction false} WordsOrdered(line: Line, p: nat)
    requires p <= |line|
    ensures Ordered(WordsFrom(line, p), p, |line|)
    ensures p < |line| && !InWord(line[p]) ==> Ordered(WordsFrom(line, p), p + 1, |line|)
    ensures p == |line| ==> WordsFrom(line, p) == []
    decreases |line| - p
  {
    hide Lex, InWord, Skip, Blank;
    var t := Lex(line, p);
    LexGap(line, p);
    if t.kind != '\0' {
      WordsOrdered(line, t.next);
      var rest := WordsFrom(line, t.next);
      if t.kind == 'a' {
        assert Ordered(rest, t.span.e + 1, |line|);
        ConsOrdered(t.span, rest, p, |line|);
        if p < t.span.q { ConsOrdered(t.span, rest, p + 1, |line|); }
      }
    }
  }

  lemma ConsOrdered(w: Span, rest: seq<Span>, lo: nat, hi: nat)
    requires lo <= w.q < w.e <= hi && Ordered(rest, w.e + 1, hi)
    ensures Ordered([w] + rest, lo, hi)
  {
  }

  // ----- trees

  /** All argument and file-name words of a command. */
  function Words(c: Cmd): seq<Span> {
    match c
    case Exec(argv) => argv
    case Redir(sub, file, _, _) => Words(sub) + [file]
    case Pipe(l, r) => Words(l) + Words(r)
    case List(l, r) => Words(l) + Words(r)
    case Back(sub) => Words(sub)
  }

  ghost predicate Before(a: seq<Span>, b: seq<Span>) {
    forall i, j :: 0 <= i < |a| && 0 <= j < |b| ==> a[i].e < b[j].q
  }

  /** Arguments stand in the order of the line, fewer than MAXARGS of them; the left side of a pipe or list comes
      before the right side. */
  ghost predicate InLineOrder(c: Cmd) {
    match c
    case Exec(argv) => |argv| < MAXARGS && forall i, j :: 0 <= i < j < |argv| ==> argv[i].e < argv[j].q
    case Redir(sub, _, _, _) => InLineOrder(sub)
    case Pipe(l, r) => InLineOrder(l) && InLineOrder(r) && Before(Words(l), Words(r))
    case List(l, r) => InLineOrder(l) && InLineOrder(r) && Before(Words(l), Words(r))
    case Back(sub) => InLineOrder(sub)
  }

  /** Redirections wrapped around a command, in the order they were found. */
  datatype Wrap = Wrap(file: Span, mode: Mode, fd: nat)

  function Wrapped(c: Cmd, wraps: seq<Wrap>): Cmd {
    if wraps == [] then c
    else var n := |wraps| - 1; Redir(Wrapped(c, wraps[..n]), wraps[n].file, wraps[n].mode, wraps[n].fd)
  }

  function Files(wraps: seq<Wrap>): seq<Span> {
    seq(|wraps|, i requires 0 <= i < |wraps| => wraps[i].file)
  }

  lemma {:induction false} WrappedWords(c: Cmd, wraps: seq<Wrap>)
    ensures multiset(Words(Wrapped(c, wraps))) == multiset(Words(c)) + multiset(Files(wraps))
    ensures InLineOrder(Wrapped(c, wraps)) == InLineOrder(c)
  {
    if wraps != [] {
      var n := |wraps| - 1;
      WrappedWords(c, wraps[..n]);
      assert Files(wraps) == Files(wraps[..n]) + [wraps[n].file];
    }
  }
}
