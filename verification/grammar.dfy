/**
 What a command line means, said of its tokens alone, and the proof that the parser accepts exactly the
 lines that mean something and returns what they mean.
 */
module Grammar {

  import opened Shell

  // ---- The tokens of a line ----

  function Lex(s: string, p: nat): (r: seq<Token>)
    requires p <= |s|
    decreases |s| - p
  {
    var t := GetToken(s, p);
    if t.kind == NUL then [] else [t] + Lex(s, t.next)
  }

  predicate Blank(s: string, lo: nat, hi: nat)
    requires lo <= hi <= |s|
  {
    forall k :: lo <= k < hi ==> IsSpace(s[k])
  }

  /** What the line holds at a token: a whole word, `>>`, or a symbol that is not part of `>>`. */
  predicate Reads(s: string, t: Token)
    requires t.lo < t.hi <= |s|
  {
    if t.kind == 'a' then
      && (forall k :: t.lo <= k < t.hi ==> IsWordChar(s[k]))
      && (t.hi < |s| ==> IsSpace(s[t.hi]) || IsSymbol(s[t.hi]))
    else if t.kind == '+' then t.hi == t.lo + 2 && s[t.lo] == '>' && s[t.lo + 1] == '>'
    else t.hi == t.lo + 1 && s[t.lo] == t.kind && IsSymbol(t.kind) && (t.kind == '>' && t.hi < |s| ==> s[t.hi] != '>')
  }

  /** From `p` on, the line is these tokens and white space. */
  predicate Spells(s: string, p: nat, ts: seq<Token>)
    requires p <= |s|
    decreases |ts|
  {
    if ts == [] then Blank(s, p, |s|)
    else
      && p <= ts[0].lo < ts[0].hi <= |s| && Blank(s, p, ts[0].lo) && Reads(s, ts[0]) && Spells(s, ts[0].hi, ts[1..])
  }

  predicate NoNul(s: string) { forall k :: 0 <= k < |s| ==> s[k] != NUL }

  /** The tokens are the line, with nothing but white space between them. */
  lemma {:induction false} LexSpells(s: string, p: nat)
    requires p <= |s| && NoNul(s)
    ensures Spells(s, p, Lex(s, p))
    decreases |s| - p
  {
    var t := GetToken(s, p);
    if t.kind != NUL {
      assert t.lo == SkipSpace(s, p) && t.next == SkipSpace(s, t.hi) && Blank(s, p, t.lo);
      assert Reads(s, t);
      LexSpells(s, t.next);
      SpellsBlank(s, t.hi, t.next, Lex(s, t.next));
    }
  }

  lemma SpellsBlank(s: string, p: nat, q: nat, ts: seq<Token>)
    requires p <= q <= |s| && Blank(s, p, q) && Spells(s, q, ts)
    ensures Spells(s, p, ts)
  {
  }

  /** `<`, `>` or `>>`. */
  predicate IsOp(t: Token) { t.kind == '<' || t.kind == '>' || t.kind == '+' }

  /** The token at `k` is a word right after a redirection sign. */
  predicate NamesFile(ts: seq<Token>, k: nat)
    requires k < |ts|
  {
    ts[k].kind == 'a' && k > 0 && IsOp(ts[k - 1])
  }

  /** The words that do not name a file, in order. */
  function Arguments(ts: seq<Token>): (r: seq<Span>) {
    if ts == [] then [] else
      var k := |ts| - 1;
      Arguments(ts[..k]) + if ts[k].kind == 'a' && !NamesFile(ts, k) then [Span(ts[k].lo, ts[k].hi)] else []
  }

  /** The words that name a file, in order, each with what the sign before it says. */
  function Files(ts: seq<Token>): (r: seq<(Span, How)>) {
    if ts == [] then [] else
      var k := |ts| - 1;
      Files(ts[..k]) + if NamesFile(ts, k) then [(Span(ts[k].lo, ts[k].hi), HowOf(ts[k - 1].kind))] else []
  }

  /** How many tokens are of this kind. */
  function Marks(ts: seq<Token>, kind: char): (r: nat) {
    if ts == [] then 0 else Marks(ts[..|ts| - 1], kind) + if ts[|ts| - 1].kind == kind then 1 else 0
  }

  // ---- The grammar ----

  /** The token at `k` is a word, or a redirection sign with a word after it. */
  predicate Fits(ts: seq<Token>, k: nat)
    requires k < |ts|
  {
    ts[k].kind == 'a' || (IsOp(ts[k]) && k + 1 < |ts| && ts[k + 1].kind == 'a')
  }

  /** Words and redirections only. */
  predicate Simple(ts: seq<Token>) { forall k :: 0 <= k < |ts| ==> Fits(ts, k) }

  /** `c` is `inner` inside these redirections, the last outermost. */
  predicate Inside(c: Cmd<Span>, inner: Cmd<Span>, files: seq<(Span, How)>) {
    if files == [] then c == inner
    else
      var k := |files| - 1;
      c.Redir? && (c.file, c.how) == files[k] && Inside(c.cmd, inner, files[..k])
  }

  /** A program with its arguments. */
  predicate IsProgram(ts: seq<Token>, c: Cmd<Span>) {
    Simple(ts) && |Arguments(ts)| < MAXARGS && Inside(c, Exec(Arguments(ts)), Files(ts))
  }

  /** A line in parentheses, up to the one at `k`, and redirections. */
  ghost predicate IsBlock(ts: seq<Token>, k: nat, inner: Cmd<Span>, c: Cmd<Span>)
    decreases |ts|, 0
  {
    && 0 < k < |ts| && ts[0].kind == '(' && ts[k].kind == ')' && IsLine(ts[1..k], inner)
    && Simple(ts[k + 1..]) && Arguments(ts[k + 1..]) == [] && Inside(c, inner, Files(ts[k + 1..]))
  }

  ghost predicate IsCommand(ts: seq<Token>, c: Cmd<Span>)
    decreases |ts|, 1
  {
    IsProgram(ts, c) || exists k, inner :: IsBlock(ts, k, inner, c)
  }

  /** Commands with `|` between them, grouped to the right. */
  ghost predicate IsPipe(ts: seq<Token>, c: Cmd<Span>)
    decreases |ts|, 2
  {
    || IsCommand(ts, c)
    || (c.Pipe? && exists k ::
          0 <= k < |ts| && ts[k].kind == '|' && IsCommand(ts[..k], c.left) && IsPipe(ts[k + 1..], c.right))
  }

  /** A pipeline with any number of `&` after it. */
  ghost predicate IsJob(ts: seq<Token>, c: Cmd<Span>)
    decreases |ts|, 3
  {
    || IsPipe(ts, c)
    || (c.Back? && ts != [] && ts[|ts| - 1].kind == '&' && IsJob(ts[..|ts| - 1], c.cmd))
  }

  /** Jobs with `;` between them, grouped to the right. */
  ghost predicate IsLine(ts: seq<Token>, c: Cmd<Span>)
    decreases |ts|, 4
  {
    || IsJob(ts, c)
    || (c.List? && exists k ::
          0 <= k < |ts| && ts[k].kind == ';' && IsJob(ts[..k], c.left) && IsLine(ts[k + 1..], c.right))
  }

  // ---- Tokens and positions ----

  predicate Key(u: int) { true }

  /** From position `p` on, the line holds these tokens. */
  ghost predicate Rest(s: string, p: nat, ts: seq<Token>) {
    forall u {:trigger Key(u)} :: Key(u) ==> p <= |s| && Lex(s, p) == ts
  }

  lemma RestNext(s: string, p: nat, ts: seq<Token>)
    requires Rest(s, p, ts) && ts != []
    ensures Rest(s, ts[0].next, ts[1..])
  {
    assert Key(0);
  }

  /** White space does not matter. */
  lemma RestSkip(s: string, p: nat, ts: seq<Token>)
    requires Rest(s, p, ts)
    ensures p <= |s| && Rest(s, SkipSpace(s, p), ts)
  {
    assert Key(0);
    assert GetToken(s, SkipSpace(s, p)) == GetToken(s, p);
  }

  predicate First(ts: seq<Token>, kind: char) { ts != [] && ts[0].kind == kind }

  predicate FirstOp(ts: seq<Token>) { ts != [] && IsOp(ts[0]) }

  /** An argument list ends here. */
  predicate Stops(ts: seq<Token>) {
    ts == [] || ts[0].kind == '|' || ts[0].kind == ')' || ts[0].kind == '&' || ts[0].kind == ';'
  }

  lemma PeekFirst(s: string, p: nat, ts: seq<Token>, c: char)
    requires Rest(s, p, ts) && (c == '|' || c == '(' || c == ')' || c == ';' || c == '&' || c == '<')
    ensures p <= |s| && (Peek(s, p, [c]) <==> First(ts, c)) && (First(ts, c) ==> GetToken(s, p) == ts[0])
  {
    assert Key(0);
  }

  lemma PeekOp(s: string, p: nat, ts: seq<Token>)
    requires Rest(s, p, ts)
    ensures p <= |s| && (Peek(s, p, "<>") <==> FirstOp(ts)) && (FirstOp(ts) ==> GetToken(s, p) == ts[0])
  {
    assert Key(0);
  }

  lemma PeekStop(s: string, p: nat, ts: seq<Token>)
    requires Rest(s, p, ts)
    ensures p <= |s| && (Peek(s, p, "|)&;") <==> ts != [] && Stops(ts))
            && (if ts == [] then GetToken(s, p).kind == NUL else GetToken(s, p) == ts[0] && ts[0].kind != NUL)
  {
    assert Key(0);
  }

  // ---- Words and files of a list cut in two ----

  /** No redirection sign is left over at the end. */
  predicate Closed(ts: seq<Token>) { ts != [] ==> !IsOp(ts[|ts| - 1]) }

  /** One more token. */
  lemma Snoc(ts: seq<Token>, t: Token)
    ensures Arguments(ts + [t]) == Arguments(ts) + if t.kind == 'a' && Closed(ts) then [Span(t.lo, t.hi)] else []
    ensures Files(ts + [t]) ==
            Files(ts) + if t.kind == 'a' && !Closed(ts) then [(Span(t.lo, t.hi), HowOf(ts[|ts| - 1].kind))] else []
  {
    assert (ts + [t])[..|ts|] == ts;
    assert NamesFile(ts + [t], |ts|) <==> t.kind == 'a' && !Closed(ts);
  }

  lemma {:induction false} ArgumentsJoin(us: seq<Token>, vs: seq<Token>)
    requires Closed(us)
    ensures Arguments(us + vs) == Arguments(us) + Arguments(vs) && Files(us + vs) == Files(us) + Files(vs)
    decreases |vs|
  {
    if vs == [] {
      assert us + vs == us;
    } else {
      var k := |vs| - 1;
      var ws, t := vs[..k], vs[k];
      ArgumentsJoin(us, ws);
      Snoc(us + ws, t);
      Snoc(ws, t);
      assert us + (ws + [t]) == us + ws + [t];
      assert Closed(us + ws) == Closed(ws);
      assert vs == ws + [t];
    }
  }

  lemma {:induction false} MarksJoin(us: seq<Token>, vs: seq<Token>, kind: char)
    ensures Marks(us + vs, kind) == Marks(us, kind) + Marks(vs, kind)
  {
    if vs == [] {
      assert us + vs == us;
    } else {
      assert (us + vs)[..|us + vs| - 1] == us + vs[..|vs| - 1];
      MarksJoin(us, vs[..|vs| - 1], kind);
    }
  }

  lemma SimpleJoin(us: seq<Token>, vs: seq<Token>)
    requires Simple(us) && Simple(vs)
    ensures Simple(us + vs) && Closed(us)
  {
    forall k | 0 <= k < |us + vs| ensures Fits(us + vs, k) {
      assert if k < |us| then Fits(us, k) else Fits(vs, k - |us|);
    }
    assert us != [] ==> Fits(us, |us| - 1);
  }

  lemma SimpleTail(ts: seq<Token>, n: nat)
    requires Simple(ts) && n <= |ts|
    ensures Simple(ts[n..])
  {
    forall k | 0 <= k < |ts| - n ensures Fits(ts[n..], k) {
      assert Fits(ts, n + k);
    }
  }

  /** One word. */
  lemma OneWord(t: Token)
    requires t.kind == 'a'
    ensures Simple([t]) && Arguments([t]) == [Span(t.lo, t.hi)] && Files([t]) == []
  {
    assert [t][..0] == [];
  }

  /** One redirection. */
  lemma OneFile(t: Token, f: Token)
    requires IsOp(t) && f.kind == 'a'
    ensures Simple([t, f]) && Arguments([t, f]) == [] && Files([t, f]) == [(Span(f.lo, f.hi), HowOf(t.kind))]
  {
    assert [t, f][..1] == [t] && [t][..0] == [];
    assert !NamesFile([t], 0) && NamesFile([t, f], 1);
    assert Arguments([t]) == Arguments([]) && Files([t]) == Files([]);
  }

  // ---- Redirections around a command ----

  /** Wrapping puts a command inside the redirections. */
  lemma {:induction false} WrapInside(c: Cmd<Span>, files: seq<(Span, How)>)
    ensures Inside(Wrap(c, files), c, files)
    decreases |files|
  {
    if files != [] {
      WrapLast(c, files);
      WrapInside(c, files[..|files| - 1]);
    }
  }

  lemma {:induction false} WrapLast(c: Cmd<Span>, files: seq<(Span, How)>)
    requires files != []
    ensures var k := |files| - 1; Wrap(c, files) == Redir(Wrap(c, files[..k]), files[k].0, files[k].1)
    decreases |files|
  {
    if |files| > 1 {
      WrapLast(Redir(c, files[0].0, files[0].1), files[1..]);
      assert files[1..][..|files| - 2] == files[..|files| - 1][1..];
    } else {
      assert files[1..] == [];
    }
  }

  /** Nothing else is inside them. */
  lemma {:induction false} InsideWraps(c: Cmd<Span>, inner: Cmd<Span>, files: seq<(Span, How)>)
    requires Inside(c, inner, files)
    ensures c == Wrap(inner, files)
    decreases |files|
  {
    if files != [] {
      WrapLast(inner, files);
      InsideWraps(c.cmd, inner, files[..|files| - 1]);
    }
  }

  // ---- The parser, step by step ----

  ghost predicate Redirs(s: string, p: nat, files: seq<(Span, How)>, q: nat) {
    forall u {:trigger Key(u)} :: Key(u) ==> p <= |s| && ParseRedirs(s, p) == Found(files, q)
  }

  ghost predicate Args(s: string, p: nat, args: seq<Span>, files: seq<(Span, How)>, c: Cmd<Span>, q: nat) {
    forall u {:trigger Key(u)} :: Key(u) ==> p <= |s| && ParseArgs(s, p, args, files) == Ok(c, q)
  }

  ghost predicate Execs(s: string, p: nat, c: Cmd<Span>, q: nat) {
    forall u {:trigger Key(u)} :: Key(u) ==> p <= |s| && ParseExec(s, p) == Ok(c, q)
  }

  ghost predicate Pipes(s: string, p: nat, c: Cmd<Span>, q: nat) {
    forall u {:trigger Key(u)} :: Key(u) ==> p <= |s| && ParsePipe(s, p) == Ok(c, q)
  }

  ghost predicate Backs(s: string, p: nat, cmd: Cmd<Span>, c: Cmd<Span>, q: nat) {
    forall u {:trigger Key(u)} :: Key(u) ==> p <= |s| && ParseBacks(s, p, cmd) == Ok(c, q)
  }

  ghost predicate Lines(s: string, p: nat, c: Cmd<Span>, q: nat) {
    forall u {:trigger Key(u)} :: Key(u) ==> p <= |s| && ParseLine(s, p) == Ok(c, q)
  }

  /** The file that two tokens name. */
  function FileOf(t: Token, f: Token): (r: (Span, How)) { (Span(f.lo, f.hi), HowOf(t.kind)) }

  lemma RedirsCase(s: string, p: nat, ts: seq<Token>, files: seq<(Span, How)>, q: nat)
    requires Rest(s, p, ts) && Redirs(s, p, files, q)
    ensures if FirstOp(ts) then |ts| > 1 && ts[1].kind == 'a' && files != [] && files[0] == FileOf(ts[0], ts[1])
            && Redirs(s, ts[1].next, files[1..], q) else files == [] && Rest(s, q, ts)
  {
    PeekOp(s, p, ts);
    RestSkip(s, p, ts);
    if FirstOp(ts) {
      RestNext(s, p, ts);
      PeekStop(s, ts[0].next, ts[1..]);
    }
    assert Key(0);
  }

  lemma RedirsNone(s: string, p: nat, ts: seq<Token>) returns (q: nat)
    requires Rest(s, p, ts) && !FirstOp(ts)
    ensures Redirs(s, p, [], q) && Rest(s, q, ts)
  {
    PeekOp(s, p, ts);
    RestSkip(s, p, ts);
    q := SkipSpace(s, p);
  }

  lemma RedirsOne(s: string, p: nat, ts: seq<Token>, files: seq<(Span, How)>, q: nat)
    requires Rest(s, p, ts) && |ts| > 1 && IsOp(ts[0]) && ts[1].kind == 'a' && Redirs(s, ts[1].next, files, q)
    ensures Redirs(s, p, [FileOf(ts[0], ts[1])] + files, q)
  {
    PeekOp(s, p, ts);
    RestNext(s, p, ts);
    PeekStop(s, ts[0].next, ts[1..]);
    assert Key(0);
  }

  lemma ArgsCase(s: string, p: nat, ts: seq<Token>, args: seq<Span>, files: seq<(Span, How)>, c: Cmd<Span>, q: nat)
    returns (more: seq<(Span, How)>, q1: nat)
    requires Rest(s, p, ts) && Args(s, p, args, files, c, q)
    ensures Stops(ts) ==> c == Wrap(Exec(args), files) && Rest(s, q, ts)
    ensures !Stops(ts) ==>
              && ts[0].kind == 'a' && |args| + 1 < MAXARGS && Redirs(s, ts[0].next, more, q1)
              && Args(s, q1, args + [Span(ts[0].lo, ts[0].hi)], files + more, c, q)
  {
    more, q1 := [], 0;
    RestSkip(s, p, ts);
    var p1 := SkipSpace(s, p);
    PeekStop(s, p1, ts);
    RestSkip(s, p1, ts);
    assert Key(0);
    if !Stops(ts) {
      var r := ParseRedirs(s, ts[0].next);
      more, q1 := r.files, r.after;
    }
  }

  lemma ArgsDone(s: string, p: nat, ts: seq<Token>, args: seq<Span>, files: seq<(Span, How)>) returns (q: nat)
    requires Rest(s, p, ts) && Stops(ts)
    ensures Args(s, p, args, files, Wrap(Exec(args), files), q) && Rest(s, q, ts)
  {
    RestSkip(s, p, ts);
    var p1 := SkipSpace(s, p);
    PeekStop(s, p1, ts);
    RestSkip(s, p1, ts);
    assert Key(0);
    q := ParseArgs(s, p, args, files).next;
  }

  lemma ArgsMore(s: string, p: nat, ts: seq<Token>, args: seq<Span>, files: seq<(Span, How)>, more: seq<(Span, How)>,
                 q1: nat, c: Cmd<Span>, q: nat)
    requires Rest(s, p, ts) && First(ts, 'a') && |args| + 1 < MAXARGS && Redirs(s, ts[0].next, more, q1)
    requires Args(s, q1, args + [Span(ts[0].lo, ts[0].hi)], files + more, c, q)
    ensures Args(s, p, args, files, c, q)
  {
    RestSkip(s, p, ts);
    PeekStop(s, SkipSpace(s, p), ts);
    assert Key(0);
  }

  lemma ExecCase(s: string, p: nat, ts: seq<Token>, c: Cmd<Span>, q: nat) returns (files: seq<(Span, How)>, q1: nat)
    requires Rest(s, p, ts) && !First(ts, '(') && Execs(s, p, c, q)
    ensures Redirs(s, p, files, q1) && Args(s, q1, [], files, c, q)
  {
    PeekFirst(s, p, ts, '(');
    assert Key(0);
    var r := ParseRedirs(s, p);
    files, q1 := r.files, r.after;
  }

  lemma ExecProgram(s: string, p: nat, ts: seq<Token>, files: seq<(Span, How)>, q1: nat, c: Cmd<Span>, q: nat)
    requires Rest(s, p, ts) && !First(ts, '(') && Redirs(s, p, files, q1) && Args(s, q1, [], files, c, q)
    ensures Execs(s, p, c, q)
  {
    PeekFirst(s, p, ts, '(');
    assert Key(0);
  }

  lemma BlockOpens(s: string, p: nat, ts: seq<Token>, c: Cmd<Span>, q: nat) returns (inner: Cmd<Span>, q1: nat)
    requires Rest(s, p, ts) && First(ts, '(') && Execs(s, p, c, q)
    ensures Lines(s, ts[0].next, inner, q1)
  {
    PeekFirst(s, p, ts, '(');
    assert Key(0);
    assert ParseExec(s, p) == ParseBlock(s, p);
    var r := ParseLine(s, ts[0].next);
    inner, q1 := r.cmd, r.next;
  }

  lemma BlockCloses(s: string, p: nat, ts: seq<Token>, c: Cmd<Span>, q: nat, inner: Cmd<Span>, q1: nat, us: seq<Token>)
    returns (files: seq<(Span, How)>)
    requires Rest(s, p, ts) && First(ts, '(') && Execs(s, p, c, q) && Lines(s, ts[0].next, inner, q1) && Rest(s, q1, us)
    ensures First(us, ')') && Redirs(s, us[0].next, files, q) && c == Wrap(inner, files)
  {
    PeekFirst(s, p, ts, '(');
    PeekFirst(s, q1, us, ')');
    assert Key(0);
    assert ParseExec(s, p) == ParseBlock(s, p);
    files := ParseRedirs(s, us[0].next).files;
  }

  lemma ExecBlock(s: string, p: nat, ts: seq<Token>, inner: Cmd<Span>, q1: nat, us: seq<Token>,
                  files: seq<(Span, How)>, q: nat)
    requires Rest(s, p, ts) && First(ts, '(') && Lines(s, ts[0].next, inner, q1) && Rest(s, q1, us) && First(us, ')')
    requires Redirs(s, us[0].next, files, q)
    ensures Execs(s, p, Wrap(inner, files), q)
  {
    PeekFirst(s, p, ts, '(');
    PeekFirst(s, q1, us, ')');
    assert Key(0);
  }

  lemma PipeLeft(s: string, p: nat, c: Cmd<Span>, q: nat) returns (left: Cmd<Span>, q1: nat)
    requires Pipes(s, p, c, q)
    ensures Execs(s, p, left, q1)
  {
    assert Key(0);
    var r := ParseExec(s, p);
    left, q1 := r.cmd, r.next;
  }

  lemma PipeRight(s: string, p: nat, c: Cmd<Span>, q: nat, left: Cmd<Span>, q1: nat, us: seq<Token>)
    requires Pipes(s, p, c, q) && Execs(s, p, left, q1) && Rest(s, q1, us)
    ensures if First(us, '|') then c.Pipe? && c.left == left && Pipes(s, us[0].next, c.right, q)
            else c == left && Rest(s, q, us)
  {
    PeekFirst(s, q1, us, '|');
    RestSkip(s, q1, us);
    assert Key(0);
  }

  lemma PipeLast(s: string, p: nat, c: Cmd<Span>, q1: nat, us: seq<Token>) returns (q: nat)
    requires Execs(s, p, c, q1) && Rest(s, q1, us) && !First(us, '|')
    ensures Pipes(s, p, c, q) && Rest(s, q, us)
  {
    PeekFirst(s, q1, us, '|');
    RestSkip(s, q1, us);
    assert Key(0);
    q := SkipSpace(s, q1);
  }

  lemma PipeMore(s: string, p: nat, left: Cmd<Span>, q1: nat, us: seq<Token>, right: Cmd<Span>, q: nat)
    requires Execs(s, p, left, q1) && Rest(s, q1, us) && First(us, '|') && Pipes(s, us[0].next, right, q)
    ensures Pipes(s, p, Pipe(left, right), q)
  {
    PeekFirst(s, q1, us, '|');
    assert Key(0);
  }

  lemma BacksCase(s: string, p: nat, ts: seq<Token>, cmd: Cmd<Span>, c: Cmd<Span>, q: nat)
    requires Rest(s, p, ts) && Backs(s, p, cmd, c, q)
    ensures if First(ts, '&') then Backs(s, ts[0].next, Back(cmd), c, q) else c == cmd && Rest(s, q, ts)
  {
    PeekFirst(s, p, ts, '&');
    RestSkip(s, p, ts);
    assert Key(0);
  }

  lemma BacksDone(s: string, p: nat, ts: seq<Token>, cmd: Cmd<Span>) returns (q: nat)
    requires Rest(s, p, ts) && !First(ts, '&')
    ensures Backs(s, p, cmd, cmd, q) && Rest(s, q, ts)
  {
    PeekFirst(s, p, ts, '&');
    RestSkip(s, p, ts);
    q := SkipSpace(s, p);
  }

  lemma BacksMore(s: string, p: nat, ts: seq<Token>, cmd: Cmd<Span>, c: Cmd<Span>, q: nat)
    requires Rest(s, p, ts) && First(ts, '&') && Backs(s, ts[0].next, Back(cmd), c, q)
    ensures Backs(s, p, cmd, c, q)
  {
    PeekFirst(s, p, ts, '&');
    assert Key(0);
  }

  lemma LineLeft(s: string, p: nat, c: Cmd<Span>, q: nat)
    returns (piped: Cmd<Span>, q1: nat, left: Cmd<Span>, q2: nat)
    requires Lines(s, p, c, q)
    ensures Pipes(s, p, piped, q1) && Backs(s, q1, piped, left, q2)
  {
    assert Key(0);
    var r := ParsePipe(s, p);
    var b := ParseBacks(s, r.next, r.cmd);
    piped, q1, left, q2 := r.cmd, r.next, b.cmd, b.next;
  }

  lemma LineRight(s: string, p: nat, c: Cmd<Span>, q: nat, piped: Cmd<Span>, q1: nat, left: Cmd<Span>, q2: nat,
                  us: seq<Token>)
    requires Lines(s, p, c, q) && Pipes(s, p, piped, q1) && Backs(s, q1, piped, left, q2) && Rest(s, q2, us)
    ensures if First(us, ';') then c.List? && c.left == left && Lines(s, us[0].next, c.right, q)
            else c == left && Rest(s, q, us)
  {
    PeekFirst(s, q2, us, ';');
    RestSkip(s, q2, us);
    assert Key(0);
  }

  lemma LineLast(s: string, p: nat, piped: Cmd<Span>, q1: nat, c: Cmd<Span>, q2: nat, us: seq<Token>) returns (q: nat)
    requires Pipes(s, p, piped, q1) && Backs(s, q1, piped, c, q2) && Rest(s, q2, us) && !First(us, ';')
    ensures Lines(s, p, c, q) && Rest(s, q, us)
  {
    PeekFirst(s, q2, us, ';');
    RestSkip(s, q2, us);
    assert Key(0);
    q := SkipSpace(s, q2);
  }

  lemma LineMore(s: string, p: nat, piped: Cmd<Span>, q1: nat, left: Cmd<Span>, q2: nat, us: seq<Token>,
                 right: Cmd<Span>, q: nat)
    requires Pipes(s, p, piped, q1) && Backs(s, q1, piped, left, q2) && Rest(s, q2, us) && First(us, ';')
    requires Lines(s, us[0].next, right, q)
    ensures Lines(s, p, List(left, right), q)
  {
    PeekFirst(s, q2, us, ';');
    assert Key(0);
  }

  // ---- What is parsed is what the tokens mean ----

  /** A list of words and redirections goes on. */
  lemma Longer(done: seq<Token>, more: seq<Token>)
    requires Simple(done) && Simple(more)
    ensures Simple(done + more) && Arguments(done + more) == Arguments(done) + Arguments(more)
            && Files(done + more) == Files(done) + Files(more)
  {
    SimpleJoin(done, more);
    ArgumentsJoin(done, more);
  }

  lemma {:induction false} RedirsSound(s: string, p: nat, ts: seq<Token>, files: seq<(Span, How)>, q: nat)
    returns (n: nat)
    requires Rest(s, p, ts) && Redirs(s, p, files, q)
    ensures n <= |ts| && Rest(s, q, ts[n..]) && Simple(ts[..n]) && Arguments(ts[..n]) == [] && Files(ts[..n]) == files
    decreases |ts|
  {
    RedirsCase(s, p, ts, files, q);
    if FirstOp(ts) {
      RestNext(s, p, ts);
      RestNext(s, ts[0].next, ts[1..]);
      assert ts[1..][1..] == ts[2..];
      var m := RedirsSound(s, ts[1].next, ts[2..], files[1..], q);
      OneFile(ts[0], ts[1]);
      Longer([ts[0], ts[1]], ts[2..][..m]);
      n := m + 2;
      assert ts[..n] == [ts[0], ts[1]] + ts[2..][..m] && ts[n..] == ts[2..][m..];
    } else {
      n := 0;
      assert ts[0..] == ts;
    }
  }

  /** A word and redirections join those read before. */
  lemma WordJoins(done: seq<Token>, t: Token, files: seq<Token>)
    requires Simple(done) && t.kind == 'a' && Simple(files) && Arguments(files) == []
    ensures Simple(done + [t] + files) && Arguments(done + [t] + files) == Arguments(done) + [Span(t.lo, t.hi)]
            && Files(done + [t] + files) == Files(done) + Files(files)
  {
    OneWord(t);
    Longer(done, [t]);
    Longer(done + [t], files);
  }

  lemma Regroup(done: seq<Token>, ts: seq<Token>, m: nat, k: nat)
    requires 1 + m + k <= |ts|
    ensures done + ts[..1 + m + k] == done + [ts[0]] + ts[1..][..m] + ts[1..][m..][..k]
    ensures ts[1 + m + k..] == ts[1..][m..][k..]
  {
  }

  lemma {:induction false} ArgsSound(s: string, p: nat, ts: seq<Token>, done: seq<Token>, c: Cmd<Span>, q: nat)
    returns (n: nat)
    requires Rest(s, p, ts) && Simple(done) && |Arguments(done)| < MAXARGS
    requires Args(s, p, Arguments(done), Files(done), c, q)
    ensures n <= |ts| && Rest(s, q, ts[n..]) && IsProgram(done + ts[..n], c)
    decreases |ts|
  {
    var files, q1 := ArgsCase(s, p, ts, Arguments(done), Files(done), c, q);
    if Stops(ts) {
      WrapInside(Exec(Arguments(done)), Files(done));
      n := 0;
      assert ts[0..] == ts && done + ts[..0] == done;
    } else {
      var t := ts[0];
      RestNext(s, p, ts);
      var m := RedirsSound(s, t.next, ts[1..], files, q1);
      WordJoins(done, t, ts[1..][..m]);
      var k := ArgsSound(s, q1, ts[1..][m..], done + [t] + ts[1..][..m], c, q);
      n := 1 + m + k;
      Regroup(done, ts, m, k);
    }
  }

  lemma {:induction false} ExecSound(s: string, p: nat, ts: seq<Token>, c: Cmd<Span>, q: nat) returns (n: nat)
    requires Rest(s, p, ts) && Execs(s, p, c, q)
    ensures n <= |ts| && Rest(s, q, ts[n..]) && IsCommand(ts[..n], c)
    decreases |ts|, 1
  {
    if First(ts, '(') {
      n := BlockSound(s, p, ts, c, q);
    } else {
      var files, q1 := ExecCase(s, p, ts, c, q);
      var m := RedirsSound(s, p, ts, files, q1);
      var k := ArgsSound(s, q1, ts[m..], ts[..m], c, q);
      n := m + k;
      assert ts[..n] == ts[..m] + ts[m..][..k] && ts[n..] == ts[m..][k..];
    }
  }

  lemma {:induction false} BlockSound(s: string, p: nat, ts: seq<Token>, c: Cmd<Span>, q: nat) returns (n: nat)
    requires Rest(s, p, ts) && First(ts, '(') && Execs(s, p, c, q)
    ensures n <= |ts| && Rest(s, q, ts[n..]) && IsCommand(ts[..n], c)
    decreases |ts|, 0
  {
    var inner, q1 := BlockOpens(s, p, ts, c, q);
    RestNext(s, p, ts);
    var m := LineSound(s, ts[0].next, ts[1..], inner, q1);
    var us := ts[1..][m..];
    var files := BlockCloses(s, p, ts, c, q, inner, q1, us);
    RestNext(s, q1, us);
    var k := RedirsSound(s, us[0].next, us[1..], files, q);
    WrapInside(inner, files);
    n := m + k + 2;
    assert ts[..n][1..m + 1] == ts[1..][..m] && ts[..n][m + 2..] == us[1..][..k] && ts[n..] == us[1..][k..];
    assert IsBlock(ts[..n], m + 1, inner, c);
  }

  lemma {:induction false} PipeSound(s: string, p: nat, ts: seq<Token>, c: Cmd<Span>, q: nat) returns (n: nat)
    requires Rest(s, p, ts) && Pipes(s, p, c, q)
    ensures n <= |ts| && Rest(s, q, ts[n..]) && IsPipe(ts[..n], c)
    decreases |ts|, 2
  {
    var left, q1 := PipeLeft(s, p, c, q);
    var k := ExecSound(s, p, ts, left, q1);
    var us := ts[k..];
    PipeRight(s, p, c, q, left, q1, us);
    if First(us, '|') {
      RestNext(s, q1, us);
      var m := PipeSound(s, us[0].next, us[1..], c.right, q);
      n := k + 1 + m;
      assert ts[..n][..k] == ts[..k] && ts[..n][k] == us[0] && ts[..n][k + 1..] == us[1..][..m];
      assert ts[n..] == us[1..][m..];
    } else {
      n := k;
    }
  }

  lemma {:induction false} BacksSound(s: string, p: nat, ts: seq<Token>, done: seq<Token>, cmd: Cmd<Span>, c: Cmd<Span>,
                                      q: nat)
    returns (n: nat)
    requires Rest(s, p, ts) && IsJob(done, cmd) && Backs(s, p, cmd, c, q)
    ensures n <= |ts| && Rest(s, q, ts[n..]) && IsJob(done + ts[..n], c)
    decreases |ts|
  {
    BacksCase(s, p, ts, cmd, c, q);
    if First(ts, '&') {
      RestNext(s, p, ts);
      assert (done + [ts[0]])[..|done|] == done;
      var m := BacksSound(s, ts[0].next, ts[1..], done + [ts[0]], Back(cmd), c, q);
      n := m + 1;
      assert done + ts[..n] == done + [ts[0]] + ts[1..][..m] && ts[n..] == ts[1..][m..];
    } else {
      n := 0;
      assert ts[0..] == ts && done + ts[..0] == done;
    }
  }

  lemma {:induction false} LineSound(s: string, p: nat, ts: seq<Token>, c: Cmd<Span>, q: nat) returns (n: nat)
    requires Rest(s, p, ts) && Lines(s, p, c, q)
    ensures n <= |ts| && Rest(s, q, ts[n..]) && IsLine(ts[..n], c)
    decreases |ts|, 3
  {
    var piped, q1, left, q2 := LineLeft(s, p, c, q);
    var j := PipeSound(s, p, ts, piped, q1);
    var b := BacksSound(s, q1, ts[j..], ts[..j], piped, left, q2);
    var k := j + b;
    var us := ts[k..];
    assert ts[..k] == ts[..j] + ts[j..][..b] && us == ts[j..][b..];
    LineRight(s, p, c, q, piped, q1, left, q2, us);
    if First(us, ';') {
      RestNext(s, q2, us);
      var m := LineSound(s, us[0].next, us[1..], c.right, q);
      n := k + 1 + m;
      assert ts[..n][..k] == ts[..k] && ts[..n][k] == us[0] && ts[..n][k + 1..] == us[1..][..m];
      assert ts[n..] == us[1..][m..];
    } else {
      n := k;
    }
  }

  // ---- What the tokens mean is what is parsed ----

  lemma {:induction false} RedirsParsed(s: string, p: nat, ts: seq<Token>, rest: seq<Token>)
    returns (n: nat, files: seq<(Span, How)>, q: nat)
    requires Rest(s, p, ts + rest) && Simple(ts) && !FirstOp(rest)
    ensures n <= |ts| && Redirs(s, p, files, q) && Rest(s, q, ts[n..] + rest) && (n < |ts| ==> ts[n].kind == 'a')
    ensures Simple(ts[..n]) && Arguments(ts[..n]) == [] && Files(ts[..n]) == files
    decreases |ts|
  {
    assert ts != [] ==> Fits(ts, 0);
    if FirstOp(ts) {
      RestNext(s, p, ts + rest);
      RestNext(s, ts[0].next, (ts + rest)[1..]);
      assert (ts + rest)[1..][1..] == ts[2..] + rest;
      SimpleTail(ts, 2);
      var m, fs;
      m, fs, q := RedirsParsed(s, ts[1].next, ts[2..], rest);
      RedirsOne(s, p, ts + rest, fs, q);
      OneFile(ts[0], ts[1]);
      Longer([ts[0], ts[1]], ts[2..][..m]);
      n, files := m + 2, [FileOf(ts[0], ts[1])] + fs;
      assert ts[..n] == [ts[0], ts[1]] + ts[2..][..m] && ts[n..] == ts[2..][m..];
    } else {
      n, files := 0, [];
      q := RedirsNone(s, p, ts + rest);
      assert ts[0..] == ts;
    }
  }

  /** The first word of `ts` and the redirections up to `n` join those read before. */
  lemma WordMoves(done: seq<Token>, ts: seq<Token>, n: nat) returns (done': seq<Token>)
    requires Simple(done) && Simple(ts) && First(ts, 'a') && n < |ts| && Simple(ts[1..][..n])
             && Arguments(ts[1..][..n]) == []
    ensures Simple(done') && done + ts == done' + ts[1..][n..] && Simple(ts[1..][n..])
    ensures Arguments(done') == Arguments(done) + [Span(ts[0].lo, ts[0].hi)]
            && Files(done') == Files(done) + Files(ts[1..][..n])
    ensures |Arguments(done')| <= |Arguments(done + ts)|
  {
    done' := done + [ts[0]] + ts[1..][..n];
    SimpleTail(ts, 1);
    SimpleTail(ts[1..], n);
    WordJoins(done, ts[0], ts[1..][..n]);
    Longer(done', ts[1..][n..]);
    assert done + ts == done' + ts[1..][n..];
  }

  lemma {:induction false} ArgsParsed(s: string, p: nat, done: seq<Token>, ts: seq<Token>, rest: seq<Token>)
    returns (q: nat)
    requires Rest(s, p, ts + rest) && Stops(rest) && Simple(done) && Simple(ts) && (ts != [] ==> ts[0].kind == 'a')
    requires |Arguments(done + ts)| < MAXARGS
    ensures Args(s, p, Arguments(done), Files(done), Wrap(Exec(Arguments(done + ts)), Files(done + ts)), q)
    ensures Rest(s, q, rest)
    decreases |ts|
  {
    if ts == [] {
      assert done + ts == done && ts + rest == rest;
      q := ArgsDone(s, p, rest, Arguments(done), Files(done));
    } else {
      var t := ts[0];
      RestNext(s, p, ts + rest);
      assert (ts + rest)[1..] == ts[1..] + rest;
      SimpleTail(ts, 1);
      var n, files, q1 := RedirsParsed(s, t.next, ts[1..], rest);
      var us := ts[1..][n..];
      var done' := WordMoves(done, ts, n);
      q := ArgsParsed(s, q1, done', us, rest);
      ArgsMore(s, p, ts + rest, Arguments(done), Files(done), files, q1,
               Wrap(Exec(Arguments(done + ts)), Files(done + ts)), q);
    }
  }

  lemma ProgramParsed(s: string, p: nat, ts: seq<Token>, rest: seq<Token>, c: Cmd<Span>) returns (q: nat)
    requires Rest(s, p, ts + rest) && Stops(rest) && IsProgram(ts, c)
    ensures Execs(s, p, c, q) && Rest(s, q, rest)
  {
    assert ts != [] ==> Fits(ts, 0);
    var n, files, q1 := RedirsParsed(s, p, ts, rest);
    SimpleTail(ts, n);
    assert ts == ts[..n] + ts[n..];
    q := ArgsParsed(s, q1, ts[..n], ts[n..], rest);
    InsideWraps(c, Exec(Arguments(ts)), Files(ts));
    ExecProgram(s, p, ts + rest, files, q1, c, q);
  }

  /** Redirections without arguments are all taken. */
  lemma NoArguments(ts: seq<Token>, n: nat)
    requires Simple(ts) && Arguments(ts) == [] && n <= |ts| && Simple(ts[..n]) && (n < |ts| ==> ts[n].kind == 'a')
    ensures n == |ts|
  {
    if n < |ts| {
      SimpleTail(ts, n + 1);
      assert ts == ts[..n] + [ts[n]] + ts[n + 1..];
      WordCounts(ts[..n], ts[n], ts[n + 1..]);
    }
  }

  lemma WordCounts(us: seq<Token>, t: Token, vs: seq<Token>)
    requires Simple(us) && t.kind == 'a' && Simple(vs)
    ensures Arguments(us + [t] + vs) != []
  {
    WordJoins(us, t, []);
    assert us + [t] + [] == us + [t];
    Longer(us + [t], vs);
  }

  lemma {:induction false} BlockParsed(s: string, p: nat, ts: seq<Token>, rest: seq<Token>, k: nat, inner: Cmd<Span>,
                                       c: Cmd<Span>)
    returns (q: nat)
    requires Rest(s, p, ts + rest) && Stops(rest) && IsBlock(ts, k, inner, c)
    ensures Execs(s, p, c, q) && Rest(s, q, rest)
    decreases |ts|, 0
  {
    var files := ts[k + 1..];
    var us := [ts[k]] + files + rest;
    RestNext(s, p, ts + rest);
    assert (ts + rest)[1..] == ts[1..k] + us;
    var q1 := LineParsed(s, ts[0].next, ts[1..k], us, inner);
    RestNext(s, q1, us);
    assert us[1..] == files + rest;
    var n, fs;
    n, fs, q := RedirsParsed(s, us[0].next, files, rest);
    NoArguments(files, n);
    assert files[..n] == files && files[n..] + rest == rest;
    InsideWraps(c, inner, fs);
    ExecBlock(s, p, ts + rest, inner, q1, us, fs, q);
  }

  lemma {:induction false} CommandParsed(s: string, p: nat, ts: seq<Token>, rest: seq<Token>, c: Cmd<Span>)
    returns (q: nat)
    requires Rest(s, p, ts + rest) && Stops(rest) && IsCommand(ts, c)
    ensures Execs(s, p, c, q) && Rest(s, q, rest)
    decreases |ts|, 1
  {
    if IsProgram(ts, c) {
      q := ProgramParsed(s, p, ts, rest, c);
    } else {
      var k, inner :| IsBlock(ts, k, inner, c);
      q := BlockParsed(s, p, ts, rest, k, inner, c);
    }
  }

  /** The tokens from `k` on, with the rest. */
  lemma Split(ts: seq<Token>, k: nat, rest: seq<Token>)
    requires k < |ts|
    ensures var us := ts[k..] + rest; ts + rest == ts[..k] + us && us[0] == ts[k] && us[1..] == ts[k + 1..] + rest
  {
  }

  lemma {:induction false} PipeParsed(s: string, p: nat, ts: seq<Token>, rest: seq<Token>, c: Cmd<Span>)
    returns (q: nat)
    requires Rest(s, p, ts + rest) && Stops(rest) && !First(rest, '|') && IsPipe(ts, c)
    ensures Pipes(s, p, c, q) && Rest(s, q, rest)
    decreases |ts|, 2
  {
    if IsCommand(ts, c) {
      var q1 := CommandParsed(s, p, ts, rest, c);
      q := PipeLast(s, p, c, q1, rest);
    } else {
      var k :| 0 <= k < |ts| && ts[k].kind == '|' && IsCommand(ts[..k], c.left) && IsPipe(ts[k + 1..], c.right);
      var us := ts[k..] + rest;
      Split(ts, k, rest);
      var q1 := CommandParsed(s, p, ts[..k], us, c.left);
      RestNext(s, q1, us);
      q := PipeParsed(s, us[0].next, ts[k + 1..], rest, c.right);
      PipeMore(s, p, c.left, q1, us, c.right, q);
    }
  }

  /** Whatever the loop over the ampersands makes of `c` and the rest, it makes of the whole. */
  lemma {:induction false} JobParsed(s: string, p: nat, ts: seq<Token>, rest: seq<Token>, c: Cmd<Span>)
    returns (piped: Cmd<Span>, q1: nat, q: nat)
    requires Rest(s, p, ts + rest) && Stops(rest) && !First(rest, '|') && IsJob(ts, c)
    ensures Pipes(s, p, piped, q1) && Rest(s, q, rest)
    ensures forall d, q2 :: Backs(s, q, c, d, q2) ==> Backs(s, q1, piped, d, q2)
    decreases |ts|, 3
  {
    if IsPipe(ts, c) {
      q := PipeParsed(s, p, ts, rest, c);
      piped, q1 := c, q;
    } else {
      var k := |ts| - 1;
      var us := [ts[k]] + rest;
      assert ts + rest == ts[..k] + us;
      var q0;
      piped, q1, q0 := JobParsed(s, p, ts[..k], us, c.cmd);
      RestNext(s, q0, us);
      q := us[0].next;
      assert us[1..] == rest;
      forall d, q2 | Backs(s, q, c, d, q2) ensures Backs(s, q0, c.cmd, d, q2) {
        BacksMore(s, q0, us, c.cmd, d, q2);
      }
    }
  }

  lemma {:induction false} LineParsed(s: string, p: nat, ts: seq<Token>, rest: seq<Token>, c: Cmd<Span>)
    returns (q: nat)
    requires Rest(s, p, ts + rest) && (rest == [] || First(rest, ')')) && IsLine(ts, c)
    ensures Lines(s, p, c, q) && Rest(s, q, rest)
    decreases |ts|, 4
  {
    if IsJob(ts, c) {
      var piped, q1, q0 := JobParsed(s, p, ts, rest, c);
      var q2 := BacksDone(s, q0, rest, c);
      q := LineLast(s, p, piped, q1, c, q2, rest);
    } else {
      var k :| 0 <= k < |ts| && ts[k].kind == ';' && IsJob(ts[..k], c.left) && IsLine(ts[k + 1..], c.right);
      var us := ts[k..] + rest;
      Split(ts, k, rest);
      var piped, q1, q0 := JobParsed(s, p, ts[..k], us, c.left);
      var q2 := BacksDone(s, q0, us, c.left);
      RestNext(s, q2, us);
      q := LineParsed(s, us[0].next, ts[k + 1..], rest, c.right);
      LineMore(s, p, piped, q1, c.left, q2, us, c.right, q);
    }
  }

  // ---- The whole line ----

  lemma AtEnd(s: string, p: nat, ts: seq<Token>)
    requires Rest(s, p, ts) && NoNul(s)
    ensures p <= |s| && (ts == [] <==> SkipSpace(s, p) == |s|)
  {
    assert Key(0);
  }

  lemma MeantIsParsed(s: string, ts: seq<Token>, c: Cmd<Span>)
    requires NoNul(s) && Rest(s, 0, ts) && IsLine(ts, c)
    ensures ParseCmd(s) == Ok(c, |s|)
  {
    assert ts + [] == ts;
    var q := LineParsed(s, 0, ts, [], c);
    AtEnd(s, q, []);
    assert Key(0);
  }

  lemma ParsedIsMeant(s: string, ts: seq<Token>, q: nat)
    requires NoNul(s) && Rest(s, 0, ts) && ParseCmd(s).Ok? && Lines(s, 0, ParseCmd(s).cmd, q) && q <= |s|
    requires SkipSpace(s, q) == |s|
    ensures IsLine(ts, ParseCmd(s).cmd)
  {
    var n := LineSound(s, 0, ts, ParseCmd(s).cmd, q);
    AtEnd(s, q, ts[n..]);
    assert ts[..n] == ts;
  }

  /** The parser accepts a line exactly when its tokens mean a command, and returns that command. */
  lemma ParserMeets(s: string, c: Cmd<Span>)
    requires NoNul(s)
    ensures ParseCmd(s) == Ok(c, |s|) <==> IsLine(Lex(s, 0), c)
    ensures ParseCmd(s).Ok? ==> ParseCmd(s).next == |s|
  {
    if IsLine(Lex(s, 0), c) {
      MeantIsParsed(s, Lex(s, 0), c);
    }
    if ParseCmd(s).Ok? {
      ParsedIsMeant(s, Lex(s, 0), ParseLine(s, 0).next);
    }
  }

  // ---- Lines without parentheses, pipes, lists or jobs ----

  /** Only words and redirection signs. */
  predicate Unstructured(ts: seq<Token>) { forall k :: 0 <= k < |ts| ==> ts[k].kind == 'a' || IsOp(ts[k]) }

  /**
   Such a line is accepted exactly when a word follows each redirection sign and there are not too many
   others.  It means the program named by the others, in order, inside its redirections, the first innermost.
   */
  lemma PlainLine(s: string)
    requires NoNul(s) && Unstructured(Lex(s, 0))
    ensures ParseCmd(s).Ok? <==> Simple(Lex(s, 0)) && |Arguments(Lex(s, 0))| < MAXARGS
    ensures ParseCmd(s).Ok? ==> Inside(ParseCmd(s).cmd, Exec(Arguments(Lex(s, 0))), Files(Lex(s, 0)))
  {
    var ts := Lex(s, 0);
    if ParseCmd(s).Ok? {
      ParserMeets(s, ParseCmd(s).cmd);
      OnlyProgram(ts, ParseCmd(s).cmd);
    }
    if Simple(ts) && |Arguments(ts)| < MAXARGS {
      var c := Wrap(Exec(Arguments(ts)), Files(ts));
      WrapInside(Exec(Arguments(ts)), Files(ts));
      ProgramIsLine(ts, c);
      ParserMeets(s, c);
    }
  }

  lemma ProgramIsLine(ts: seq<Token>, c: Cmd<Span>)
    requires IsProgram(ts, c)
    ensures IsLine(ts, c)
  {
    assert IsCommand(ts, c);
    assert IsPipe(ts, c);
    assert IsJob(ts, c);
  }

  lemma OnlyProgram(ts: seq<Token>, c: Cmd<Span>)
    requires Unstructured(ts) && IsLine(ts, c)
    ensures IsProgram(ts, c)
  {
    assert IsJob(ts, c);
    assert IsPipe(ts, c);
    assert IsCommand(ts, c);
  }

  // ---- Nothing is lost ----

  /** The arguments of all programs of a command, in order. */
  function ArgsOf(c: Cmd<Span>): (r: seq<Span>) {
    match c
    case Exec(args) => args
    case Redir(cmd, _, _) => ArgsOf(cmd)
    case Pipe(left, right) => ArgsOf(left) + ArgsOf(right)
    case List(left, right) => ArgsOf(left) + ArgsOf(right)
    case Back(cmd) => ArgsOf(cmd)
  }

  /** All its redirections, inner before outer. */
  function FilesOf(c: Cmd<Span>): (r: seq<(Span, How)>) {
    match c
    case Exec(args) => []
    case Redir(cmd, file, how) => FilesOf(cmd) + [(file, how)]
    case Pipe(left, right) => FilesOf(left) + FilesOf(right)
    case List(left, right) => FilesOf(left) + FilesOf(right)
    case Back(cmd) => FilesOf(cmd)
  }

  /** How many of its nodes are written with this sign. */
  function Signs(c: Cmd<Span>, kind: char): (r: nat) {
    match c
    case Exec(args) => 0
    case Redir(cmd, _, _) => Signs(cmd, kind)
    case Pipe(left, right) => Signs(left, kind) + Signs(right, kind) + if kind == '|' then 1 else 0
    case List(left, right) => Signs(left, kind) + Signs(right, kind) + if kind == ';' then 1 else 0
    case Back(cmd) => Signs(cmd, kind) + if kind == '&' then 1 else 0
  }

  predicate IsSign(kind: char) { kind == '|' || kind == ';' || kind == '&' }

  /** The command has the words, the files and the signs of the tokens. */
  predicate Holds(ts: seq<Token>, c: Cmd<Span>, kind: char) {
    Closed(ts) && ArgsOf(c) == Arguments(ts) && FilesOf(c) == Files(ts) && Signs(c, kind) == Marks(ts, kind)
  }

  lemma {:induction false} InsideHolds(c: Cmd<Span>, inner: Cmd<Span>, files: seq<(Span, How)>, kind: char)
    requires Inside(c, inner, files)
    ensures ArgsOf(c) == ArgsOf(inner) && FilesOf(c) == FilesOf(inner) + files && Signs(c, kind) == Signs(inner, kind)
    decreases |files|
  {
    if files != [] {
      var k := |files| - 1;
      InsideHolds(c.cmd, inner, files[..k], kind);
      assert FilesOf(inner) + files == FilesOf(inner) + files[..k] + [files[k]];
    } else {
      assert FilesOf(inner) + files == FilesOf(inner);
    }
  }

  lemma {:induction false} NoMarks(ts: seq<Token>, kind: char)
    requires Unstructured(ts) && kind != 'a' && kind != '<' && kind != '>' && kind != '+'
    ensures Marks(ts, kind) == 0
  {
    if ts != [] {
      NoMarks(ts[..|ts| - 1], kind);
    }
  }

  lemma SimpleClosed(ts: seq<Token>)
    requires Simple(ts)
    ensures Closed(ts) && Unstructured(ts)
  {
    assert ts != [] ==> Fits(ts, |ts| - 1);
    forall k | 0 <= k < |ts| ensures ts[k].kind == 'a' || IsOp(ts[k]) {
      assert Fits(ts, k);
    }
  }

  lemma ProgramHolds(ts: seq<Token>, c: Cmd<Span>, kind: char)
    requires IsProgram(ts, c) && IsSign(kind)
    ensures Holds(ts, c, kind)
  {
    SimpleClosed(ts);
    NoMarks(ts, kind);
    InsideHolds(c, Exec(Arguments(ts)), Files(ts), kind);
    assert [] + Files(ts) == Files(ts);
  }

  /** A single token that is neither a word nor a redirection sign. */
  lemma OneSign(t: Token, kind: char)
    requires t.kind != 'a' && !IsOp(t)
    ensures Closed([t]) && Arguments([t]) == [] && Files([t]) == [] && Marks([t], kind) == if t.kind == kind then 1
            else 0
  {
    assert [t][..0] == [];
    assert !NamesFile([t], 0);
    assert Arguments([t]) == Arguments([]) && Files([t]) == Files([]);
  }

  /** Two lists with a sign between them. */
  lemma Joined(us: seq<Token>, t: Token, vs: seq<Token>, kind: char)
    requires Closed(us) && t.kind != 'a' && !IsOp(t) && Closed(vs)
    ensures var ts := us + [t] + vs;
            && Closed(ts) && Arguments(ts) == Arguments(us) + Arguments(vs) && Files(ts) == Files(us) + Files(vs)
            && Marks(ts, kind) == Marks(us, kind) + Marks(vs, kind) + if t.kind == kind then 1 else 0
  {
    OneSign(t, kind);
    ArgumentsJoin(us, [t]);
    ArgumentsJoin(us + [t], vs);
    MarksJoin(us, [t], kind);
    MarksJoin(us + [t], vs, kind);
  }

  lemma OpenJoins(open: Token, ts: seq<Token>, kind: char)
    requires open.kind == '(' && IsSign(kind) && Closed(ts)
    ensures Closed([open] + ts) && Arguments([open] + ts) == Arguments(ts) && Files([open] + ts) == Files(ts)
            && Marks([open] + ts, kind) == Marks(ts, kind)
  {
    OneSign(open, kind);
    ArgumentsJoin([open], ts);
    MarksJoin([open], ts, kind);
  }

  lemma PairHolds(ts: seq<Token>, k: nat, c: Cmd<Span>, kind: char)
    requires k < |ts| && ((c.Pipe? && ts[k].kind == '|') || (c.List? && ts[k].kind == ';'))
    requires Holds(ts[..k], c.left, kind) && Holds(ts[k + 1..], c.right, kind)
    ensures Holds(ts, c, kind)
  {
    Joined(ts[..k], ts[k], ts[k + 1..], kind);
    assert ts == ts[..k] + [ts[k]] + ts[k + 1..];
  }

  lemma InnerHolds(us: seq<Token>, open: Token, close: Token, vs: seq<Token>, inner: Cmd<Span>, c: Cmd<Span>,
                   kind: char)
    requires open.kind == '(' && close.kind == ')' && IsSign(kind) && Holds(us, inner, kind)
    requires Simple(vs) && Arguments(vs) == [] && Inside(c, inner, Files(vs))
    ensures Holds([open] + (us + [close] + vs), c, kind)
  {
    SimpleClosed(vs);
    NoMarks(vs, kind);
    Joined(us, close, vs, kind);
    OpenJoins(open, us + [close] + vs, kind);
    InsideHolds(c, inner, Files(vs), kind);
  }

  lemma {:induction false} BlockHolds(ts: seq<Token>, k: nat, inner: Cmd<Span>, c: Cmd<Span>, kind: char)
    requires IsBlock(ts, k, inner, c) && IsSign(kind)
    ensures Holds(ts, c, kind)
    decreases |ts|, 0
  {
    var us, vs := ts[1..k], ts[k + 1..];
    LineHolds(us, inner, kind);
    InnerHolds(us, ts[0], ts[k], vs, inner, c, kind);
    assert ts == [ts[0]] + (us + [ts[k]] + vs);
  }

  lemma {:induction false} CommandHolds(ts: seq<Token>, c: Cmd<Span>, kind: char)
    requires IsCommand(ts, c) && IsSign(kind)
    ensures Holds(ts, c, kind)
    decreases |ts|, 1
  {
    if IsProgram(ts, c) {
      ProgramHolds(ts, c, kind);
    } else {
      var k, inner :| IsBlock(ts, k, inner, c);
      BlockHolds(ts, k, inner, c, kind);
    }
  }

  lemma {:induction false} PipeHolds(ts: seq<Token>, c: Cmd<Span>, kind: char)
    requires IsPipe(ts, c) && IsSign(kind)
    ensures Holds(ts, c, kind)
    decreases |ts|, 2
  {
    if IsCommand(ts, c) {
      CommandHolds(ts, c, kind);
    } else {
      var k :| 0 <= k < |ts| && ts[k].kind == '|' && IsCommand(ts[..k], c.left) && IsPipe(ts[k + 1..], c.right);
      CommandHolds(ts[..k], c.left, kind);
      PipeHolds(ts[k + 1..], c.right, kind);
      PairHolds(ts, k, c, kind);
    }
  }

  lemma {:induction false} JobHolds(ts: seq<Token>, c: Cmd<Span>, kind: char)
    requires IsJob(ts, c) && IsSign(kind)
    ensures Holds(ts, c, kind)
    decreases |ts|, 3
  {
    if IsPipe(ts, c) {
      PipeHolds(ts, c, kind);
    } else {
      var k := |ts| - 1;
      JobHolds(ts[..k], c.cmd, kind);
      Joined(ts[..k], ts[k], [], kind);
      assert ts == ts[..k] + [ts[k]] + [];
    }
  }

  lemma {:induction false} LineHolds(ts: seq<Token>, c: Cmd<Span>, kind: char)
    requires IsLine(ts, c) && IsSign(kind)
    ensures Holds(ts, c, kind)
    decreases |ts|, 4
  {
    if IsJob(ts, c) {
      JobHolds(ts, c, kind);
    } else {
      var k :| 0 <= k < |ts| && ts[k].kind == ';' && IsJob(ts[..k], c.left) && IsLine(ts[k + 1..], c.right);
      JobHolds(ts[..k], c.left, kind);
      LineHolds(ts[k + 1..], c.right, kind);
      PairHolds(ts, k, c, kind);
    }
  }

  /**
   A line that is accepted loses nothing: its words are the arguments and the file names of the command, each
   once and in order, and it has a node for each `|`, `;` and `&`.
   */
  lemma NothingLost(s: string)
    requires NoNul(s) && ParseCmd(s).Ok?
    ensures var c, ts := ParseCmd(s).cmd, Lex(s, 0);
            && ArgsOf(c) == Arguments(ts) && FilesOf(c) == Files(ts)
            && Signs(c, '|') == Marks(ts, '|') && Signs(c, ';') == Marks(ts, ';') && Signs(c, '&') == Marks(ts, '&')
  {
    ParserMeets(s, ParseCmd(s).cmd);
    LineHolds(Lex(s, 0), ParseCmd(s).cmd, '|');
    LineHolds(Lex(s, 0), ParseCmd(s).cmd, ';');
    LineHolds(Lex(s, 0), ParseCmd(s).cmd, '&');
  }

  /** A line means at most one command. */
  lemma OneMeaning(s: string, c: Cmd<Span>, d: Cmd<Span>)
    requires NoNul(s) && IsLine(Lex(s, 0), c) && IsLine(Lex(s, 0), d)
    ensures c == d
  {
    ParserMeets(s, c);
    ParserMeets(s, d);
  }
}
