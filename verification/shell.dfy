/**
 The shell's recursive-descent parser.  A command line is a sequence of characters without NUL; the
 parser's cursor is a position in it, and the tree holds the positions of its words.
 */
module Shell {

  const MAXARGS := 10
  const NUL := '\0'

  predicate IsSpace(c: char) { c in " \t\r\n\U{000B}" }
  predicate IsSymbol(c: char) { c in "<|>&;()" }
  predicate IsWordChar(c: char) { !IsSpace(c) && !IsSymbol(c) && c != NUL }

  /** How a redirection opens its file: `<`, `>` and `>>`. */
  datatype How = In | Out | Append

  datatype Cmd<W> = Exec(args: seq<W>) | Redir(cmd: Cmd<W>, file: W, how: How) | Pipe(left: Cmd<W>, right: Cmd<W>)
    | List(left: Cmd<W>, right: Cmd<W>) | Back(cmd: Cmd<W>)

  /** A word of the line, from `lo` up to `hi`. */
  datatype Span = Span(lo: nat, hi: nat)

  // ---- Tokens ----

  function SkipSpace(s: string, p: nat): (r: nat)
    requires p <= |s|
    ensures p <= r <= |s| && (r < |s| ==> !IsSpace(s[r])) && forall k :: p <= k < r ==> IsSpace(s[k])
    decreases |s| - p
  {
    if p < |s| && IsSpace(s[p]) then SkipSpace(s, p + 1) else p
  }

  function WordEnd(s: string, p: nat): (r: nat)
    requires p <= |s|
    ensures p <= r <= |s| && (r < |s| ==> IsSpace(s[r]) || IsSymbol(s[r]))
            && forall k :: p <= k < r ==> !IsSpace(s[k]) && !IsSymbol(s[k])
    decreases |s| - p
  {
    if p < |s| && !IsSpace(s[p]) && !IsSymbol(s[p]) then WordEnd(s, p + 1) else p
  }

  /** `kind` is NUL at the end of the line, 'a' for a word, '+' for `>>`, else the symbol itself. */
  datatype Token = Token(kind: char, lo: nat, hi: nat, next: nat)

  function GetToken(s: string, p: nat): (t: Token)
    requires p <= |s|
    ensures p <= t.lo <= t.hi <= t.next <= |s| && (t.kind != NUL ==> t.lo < t.hi)
    ensures t.kind == 'a' ==> forall k :: t.lo <= k < t.hi ==> !IsSpace(s[k]) && !IsSymbol(s[k])
    ensures t.kind == 'a' && t.hi < |s| ==> IsSpace(s[t.hi]) || IsSymbol(s[t.hi])
  {
    var q := SkipSpace(s, p);
    if q == |s| || s[q] == NUL then Token(NUL, q, q, SkipSpace(s, q))
    else if s[q] in "|();&<" then Token(s[q], q, q + 1, SkipSpace(s, q + 1))
    else if s[q] == '>' then
      if q + 1 < |s| && s[q + 1] == '>' then Token('+', q, q + 2, SkipSpace(s, q + 2))
        else Token('>', q, q + 1, SkipSpace(s, q + 1))
    else Token('a', q, WordEnd(s, q), SkipSpace(s, WordEnd(s, q)))
  }

  /** Is the next character, after white space, one of `toks`? */
  predicate Peek(s: string, p: nat, toks: string)
    requires p <= |s|
  {
    var q := SkipSpace(s, p);
    q < |s| && s[q] != NUL && s[q] in toks
  }

  // ---- The grammar ----

  datatype Parsed = Ok(cmd: Cmd<Span>, next: nat) | Fail(why: string)
  datatype Redirs = Found(files: seq<(Span, How)>, after: nat) | Bad(what: string)

  function HowOf(kind: char): (r: How) { if kind == '<' then In else if kind == '>' then Out else Append }

  /** The loop of `parseredirs`: the redirections found from `p` on. */
  function ParseRedirs(s: string, p: nat): (r: Redirs)
    requires p <= |s|
    ensures r.Found? ==> p <= r.after <= |s|
    decreases |s| - p
  {
    if !Peek(s, p, "<>") then Found([], SkipSpace(s, p))
    else
      var t := GetToken(s, p);
      var f := GetToken(s, t.next);
      if f.kind != 'a' then Bad("missing file for redirection")
      else
        match ParseRedirs(s, f.next)
        case Found(files, after) => Found([(Span(f.lo, f.hi), HowOf(t.kind))] + files, after)
        case Bad(what) => Bad(what)
  }

  /** Wraps a command in redirections, the first innermost. */
  function Wrap<W>(c: Cmd<W>, files: seq<(W, How)>): (r: Cmd<W>)
    decreases |files|
  {
    if files == [] then c else Wrap(Redir(c, files[0].0, files[0].1), files[1..])
  }

  /** The loop of `parseexec`: words and redirections up to one of `|)&;` or the end. */
  function ParseArgs(s: string, p: nat, args: seq<Span>, files: seq<(Span, How)>): (r: Parsed)
    requires p <= |s|
    ensures r.Ok? ==> p <= r.next <= |s|
    decreases |s| - p
  {
    var q := SkipSpace(s, p);
    if Peek(s, q, "|)&;") then Ok(Wrap(Exec(args), files), q)
    else
      var t := GetToken(s, q);
      if t.kind == NUL then Ok(Wrap(Exec(args), files), t.next)
      else if t.kind != 'a' then Fail("syntax")
      else if |args| + 1 >= MAXARGS then Fail("too many args")
      else
        match ParseRedirs(s, t.next)
        case Found(more, after) => ParseArgs(s, after, args + [Span(t.lo, t.hi)], files + more)
        case Bad(what) => Fail(what)
  }

  function ParseExec(s: string, p: nat): (r: Parsed)
    requires p <= |s|
    ensures r.Ok? ==> p <= r.next <= |s|
    decreases |s| - p, 2
  {
    if Peek(s, p, "(") then ParseBlock(s, p)
    else
      match ParseRedirs(s, p)
      case Found(files, after) => ParseArgs(s, after, [], files)
      case Bad(what) => Fail(what)
  }

  function ParseBlock(s: string, p: nat): (r: Parsed)
    requires p <= |s|
    ensures r.Ok? ==> p <= r.next <= |s|
    decreases |s| - p, 1
  {
    if !Peek(s, p, "(") then Fail("parseblock")
    else
      match ParseLine(s, GetToken(s, p).next)
      case Fail(why) => Fail(why)
      case Ok(cmd, q) =>
        if !Peek(s, q, ")") then Fail("syntax - missing )")
        else
          match ParseRedirs(s, GetToken(s, q).next)
          case Found(files, after) => Ok(Wrap(cmd, files), after)
          case Bad(what) => Fail(what)
  }

  function ParsePipe(s: string, p: nat): (r: Parsed)
    requires p <= |s|
    ensures r.Ok? ==> p <= r.next <= |s|
    decreases |s| - p, 3
  {
    match ParseExec(s, p)
    case Fail(why) => Fail(why)
    case Ok(cmd, q) =>
      if !Peek(s, q, "|") then Ok(cmd, SkipSpace(s, q))
      else
        match ParsePipe(s, GetToken(s, q).next)
        case Fail(why) => Fail(why)
        case Ok(right, n) => Ok(Pipe(cmd, right), n)
  }

  /** The loop of `parseline`: one Back for each ampersand. */
  function ParseBacks(s: string, p: nat, cmd: Cmd<Span>): (r: Parsed)
    requires p <= |s|
    ensures r.Ok? && p <= r.next <= |s|
    decreases |s| - p
  {
    if Peek(s, p, "&") then ParseBacks(s, GetToken(s, p).next, Back(cmd)) else Ok(cmd, SkipSpace(s, p))
  }

  function ParseLine(s: string, p: nat): (r: Parsed)
    requires p <= |s|
    ensures r.Ok? ==> p <= r.next <= |s|
    decreases |s| - p, 4
  {
    match ParsePipe(s, p)
    case Fail(why) => Fail(why)
    case Ok(cmd, q) =>
      var b := ParseBacks(s, q, cmd);
      if !Peek(s, b.next, ";") then Ok(b.cmd, SkipSpace(s, b.next))
      else
        match ParseLine(s, GetToken(s, b.next).next)
        case Fail(why) => Fail(why)
        case Ok(right, n) => Ok(List(b.cmd, right), n)
  }

  /** The whole line must be used up. */
  function ParseCmd(s: string): (r: Parsed) {
    match ParseLine(s, 0)
    case Fail(why) => Fail(why)
    case Ok(cmd, q) => if SkipSpace(s, q) == |s| then Ok(cmd, |s|) else Fail("syntax")
  }

  // ---- Printing ----

  function Join(args: seq<string>): (r: string) {
    if args == [] then "" else if |args| == 1 then args[0] else args[0] + " " + Join(args[1..])
  }

  function Op(how: How): (r: string) { match how case In => "<" case Out => ">" case Append => ">>" }

  /** A command with every part in parentheses. */
  function Print(c: Cmd<string>): (r: string) {
    match c
    case Exec(args) => Join(args)
    case Redir(cmd, file, how) => "(" + Print(cmd) + ")" + Op(how) + file
    case Pipe(left, right) => "(" + Print(left) + ")" + "|" + ("(" + Print(right) + ")")
    case List(left, right) => "(" + Print(left) + ")" + ";" + ("(" + Print(right) + ")")
    case Back(cmd) => "(" + Print(cmd) + ")" + "&"
  }

  predicate IsWord(w: string) { w != "" && forall k :: 0 <= k < |w| ==> IsWordChar(w[k]) }

  /** Commands a line can express: proper words, and no more arguments than the parser takes. */
  predicate Expressible(c: Cmd<string>) {
    match c
    case Exec(args) => |args| < MAXARGS && forall k :: 0 <= k < |args| ==> IsWord(args[k])
    case Redir(cmd, file, how) => Expressible(cmd) && IsWord(file)
    case Pipe(left, right) => Expressible(left) && Expressible(right)
    case List(left, right) => Expressible(left) && Expressible(right)
    case Back(cmd) => Expressible(cmd)
  }

  /** The words behind the positions. */
  function Read(s: string, w: Span): (r: string) { if w.lo <= w.hi <= |s| then s[w.lo..w.hi] else "" }

  function ReadAll(s: string, ws: seq<Span>): (r: seq<string>)
    ensures |r| == |ws|
  {
    seq(|ws|, k requires 0 <= k < |ws| => Read(s, ws[k]))
  }

  function Text(s: string, c: Cmd<Span>): (r: Cmd<string>) {
    match c
    case Exec(args) => Exec(ReadAll(s, args))
    case Redir(cmd, file, how) => Redir(Text(s, cmd), Read(s, file), how)
    case Pipe(left, right) => Pipe(Text(s, left), Text(s, right))
    case List(left, right) => List(Text(s, left), Text(s, right))
    case Back(cmd) => Back(Text(s, cmd))
  }

  // ---- Reading back what was printed ----

  /** `t` stands at position `p`. */
  predicate At(s: string, p: nat, t: string) {
    p + |t| <= |s| && forall k {:trigger t[k]} :: 0 <= k < |t| ==> s[p + k] == t[k]
  }

  lemma AtSplit(s: string, p: nat, t: string, u: string)
    requires At(s, p, t + u)
    ensures At(s, p, t) && At(s, p + |t|, u)
  {
    forall k | 0 <= k < |t| ensures s[p + k] == t[k] {
      assert (t + u)[k] == t[k];
    }
    forall k | 0 <= k < |u| ensures s[p + |t| + k] == u[k] {
      assert (t + u)[|t| + k] == u[k];
    }
  }

  lemma AtChar(s: string, p: nat, t: string, k: nat)
    requires At(s, p, t) && k < |t|
    ensures s[p + k] == t[k]
  {
  }

  lemma AtRead(s: string, p: nat, t: string)
    requires At(s, p, t)
    ensures Read(s, Span(p, p + |t|)) == t
  {
  }

  /** A printed command is followed by a closing parenthesis or the end of the line. */
  predicate Stop(s: string, p: nat) { p == |s| || (p < |s| && s[p] == ')') }

  /** No white space and no redirection at `p`. */
  predicate Plain(s: string, p: nat) { p == |s| || (p < |s| && !IsSpace(s[p]) && s[p] != '<' && s[p] != '>') }

  lemma NoRedirs(s: string, p: nat)
    requires Plain(s, p)
    ensures SkipSpace(s, p) == p && ParseRedirs(s, p) == Found([], p)
  {
  }

  lemma WordToken(s: string, p: nat, w: string)
    requires At(s, p, w) && IsWord(w) && (p + |w| < |s| ==> IsSpace(s[p + |w|]) || IsSymbol(s[p + |w|]))
    ensures GetToken(s, p) == Token('a', p, p + |w|, SkipSpace(s, p + |w|)) && Plain(s, p) && s[p] == w[0]
  {
    forall k | p <= k < p + |w| ensures IsWordChar(s[k]) {
      AtChar(s, p, w, k - p);
    }
    AtChar(s, p, w, 0);
    assert IsWordChar(s[p]);
    assert WordEnd(s, p) == p + |w|;
  }

  lemma ArgsSplit(s: string, p: nat, args: seq<Span>, h: nat, n: nat)
    requires p <= |s| && SkipSpace(s, p) == p && !Peek(s, p, "|)&;") && GetToken(s, p) == Token('a', p, h, n) && p < n
    requires ParseRedirs(s, n) == Found([], n) && |args| + 1 < MAXARGS
    ensures ParseArgs(s, p, args, []) == ParseArgs(s, n, args + [Span(p, h)], [])
  {
    var none: seq<(Span, How)> := [];
    assert none + none == none;
  }

  /** One word of an argument list. */
  lemma ArgsStep(s: string, p: nat, args: seq<Span>, w: string, n: nat)
    requires At(s, p, w) && IsWord(w) && (p + |w| < |s| ==> IsSpace(s[p + |w|]) || IsSymbol(s[p + |w|]))
    requires n == SkipSpace(s, p + |w|) && Plain(s, n) && |args| + 1 < MAXARGS
    ensures ParseArgs(s, p, args, []) == ParseArgs(s, n, args + [Span(p, p + |w|)], [])
  {
    WordToken(s, p, w);
    NoRedirs(s, p);
    NoRedirs(s, n);
    assert IsWordChar(w[0]);
    assert !Peek(s, p, "|)&;");
    ArgsSplit(s, p, args, p + |w|, n);
  }

  lemma ReadMore(s: string, args: seq<Span>, p: nat, w: string)
    requires At(s, p, w)
    ensures ReadAll(s, args + [Span(p, p + |w|)]) == ReadAll(s, args) + [w]
  {
    AtRead(s, p, w);
  }

  lemma ArgsEnd(s: string, p: nat, args: seq<Span>)
    requires Stop(s, p)
    ensures Plain(s, p) && (p < |s| ==> s[p] != '(') && ParseArgs(s, p, args, []) == Ok(Exec(args), p)
  {
  }

  predicate KeyArgs(u: int) { true }

  /** Parsing arguments from `p` on, after `args`, finds the words `rest` and ends at `e`. */
  ghost predicate FindsArgs(s: string, p: nat, args: seq<Span>, rest: seq<string>, e: nat) {
    p <= |s| && forall u {:trigger KeyArgs(u)} :: KeyArgs(u) ==>
      var r := ParseArgs(s, p, args, []);
      r.Ok? && r.next == e && r.cmd.Exec? && ReadAll(s, r.cmd.args) == ReadAll(s, args) + rest
  }

  lemma ArgsNone(s: string, p: nat, args: seq<Span>)
    requires Stop(s, p)
    ensures FindsArgs(s, p, args, [], p)
  {
    ArgsEnd(s, p, args);
  }

  lemma Regroup(a: seq<string>, b: seq<string>, c: seq<string>)
    ensures a + b + c == a + (b + c)
  {
  }

  lemma ArgsMore(s: string, p: nat, args: seq<Span>, w: string, tail: seq<string>, n: nat, e: nat)
    requires At(s, p, w) && IsWord(w) && (p + |w| < |s| ==> IsSpace(s[p + |w|]) || IsSymbol(s[p + |w|]))
    requires n == SkipSpace(s, p + |w|) && Plain(s, n) && |args| + 1 < MAXARGS
             && FindsArgs(s, n, args + [Span(p, p + |w|)], tail, e)
    ensures FindsArgs(s, p, args, [w] + tail, e)
  {
    assert KeyArgs(0);
    ArgsStep(s, p, args, w, n);
    ReadMore(s, args, p, w);
    Regroup(ReadAll(s, args), [w], tail);
  }

  lemma {:induction false} ArgsBack(s: string, p: nat, args: seq<Span>, rest: seq<string>)
    requires At(s, p, Join(rest)) && Stop(s, p + |Join(rest)|) && |args| + |rest| < MAXARGS
             && forall k :: 0 <= k < |rest| ==> IsWord(rest[k])
    ensures Plain(s, p) && (p < |s| ==> s[p] != '(') && FindsArgs(s, p, args, rest, p + |Join(rest)|)
    decreases |rest|
  {
    if rest == [] {
      ArgsEnd(s, p, args);
      ArgsNone(s, p, args);
    } else {
      var w, tail := rest[0], rest[1..];
      var n := NextWord(s, p, rest);
      ArgsBack(s, n, args + [Span(p, p + |w|)], tail);
      ArgsMore(s, p, args, w, tail, n, n + |Join(tail)|);
      WordToken(s, p, w);
      assert IsWordChar(w[0]) && [w] + tail == rest;
    }
  }

  /** Where the second word of a printed argument list begins. */
  lemma NextWord(s: string, p: nat, rest: seq<string>) returns (n: nat)
    requires At(s, p, Join(rest)) && Stop(s, p + |Join(rest)|) && rest != []
             && forall k :: 0 <= k < |rest| ==> IsWord(rest[k])
    ensures At(s, p, rest[0]) && (p + |rest[0]| < |s| ==> IsSpace(s[p + |rest[0]|]) || IsSymbol(s[p + |rest[0]|]))
    ensures n <= |s| && n == SkipSpace(s, p + |rest[0]|) && Plain(s, n) && At(s, n, Join(rest[1..]))
            && n + |Join(rest[1..])| == p + |Join(rest)|
  {
    var w, tail := rest[0], rest[1..];
    if |rest| == 1 {
      assert tail == [] && Join(tail) == "";
      n := p + |w|;
    } else {
      n := p + |w| + 1;
      SpaceBetween(s, p, w, tail, n);
    }
  }

  lemma SpaceBetween(s: string, p: nat, w: string, tail: seq<string>, n: nat)
    requires At(s, p, w + " " + Join(tail)) && n == p + |w| + 1 && tail != []
             && forall k :: 0 <= k < |tail| ==> IsWord(tail[k])
    ensures At(s, p, w) && n < |s| && s[p + |w|] == ' ' && At(s, n, Join(tail)) && SkipSpace(s, p + |w|) == n
            && Plain(s, n)
  {
    AtSplit(s, p, w + " ", Join(tail));
    AtSplit(s, p, w, " ");
    AtChar(s, p + |w|, " ", 0);
    FirstChar(tail);
    AtChar(s, n, Join(tail), 0);
    assert SkipSpace(s, n) == n;
  }

  lemma FirstChar(rest: seq<string>)
    requires rest != [] && forall k :: 0 <= k < |rest| ==> IsWord(rest[k])
    ensures Join(rest) != "" && IsWordChar(Join(rest)[0])
  {
    assert IsWord(rest[0]);
  }

  // Facts about single characters, so that the lemmas below need not look inside the tokens.

  lemma SymbolToken(s: string, p: nat, c: char)
    requires p < |s| && s[p] == c && c in "|();&<"
    ensures SkipSpace(s, p) == p && GetToken(s, p).kind == c && GetToken(s, p).next == SkipSpace(s, p + 1)
  {
  }

  lemma PeekIs(s: string, p: nat, toks: string)
    requires p <= |s| && (p < |s| ==> !IsSpace(s[p]) && s[p] != NUL)
    ensures Peek(s, p, toks) <==> p < |s| && s[p] in toks
    ensures SkipSpace(s, p) == p
  {
  }

  // What a production parses to, unfolded only where a proof mentions the key.

  predicate KeyParse(u: int) { true }

  ghost predicate LineIs(s: string, p: nat, c: Cmd<Span>, e: nat) {
    p <= |s| && e <= |s| && forall u {:trigger KeyParse(u)} :: KeyParse(u) ==> ParseLine(s, p) == Ok(c, e)
  }

  ghost predicate PipeIs(s: string, p: nat, c: Cmd<Span>, e: nat) {
    p <= |s| && e <= |s| && forall u {:trigger KeyParse(u)} :: KeyParse(u) ==> ParsePipe(s, p) == Ok(c, e)
  }

  ghost predicate ExecIs(s: string, p: nat, c: Cmd<Span>, e: nat) {
    p <= |s| && e <= |s| && forall u {:trigger KeyParse(u)} :: KeyParse(u) ==> ParseExec(s, p) == Ok(c, e)
  }

  // Each production, given what its parts parse to.

  lemma ExecOfArgs(s: string, p: nat)
    requires Plain(s, p) && (p < |s| ==> s[p] != '(' && s[p] != NUL)
    ensures ParseExec(s, p) == ParseArgs(s, p, [], [])
  {
    NoRedirs(s, p);
    PeekIs(s, p, "(");
  }

  lemma ParenAt(s: string, p: nat, c: char, toks: string)
    requires p < |s| && s[p] == c && c in "()" && toks == [c]
    ensures Peek(s, p, toks) && GetToken(s, p).next == SkipSpace(s, p + 1)
  {
    PeekIs(s, p, toks);
    SymbolToken(s, p, c);
  }

  lemma BlockSplit(s: string, p: nat, i: nat, c: Cmd<Span>, e: nat, j: nat, files: seq<(Span, How)>, n: nat)
    requires p <= |s| && Peek(s, p, "(") && GetToken(s, p).next == i && ParseLine(s, i) == Ok(c, e)
    requires e <= |s| && Peek(s, e, ")") && GetToken(s, e).next == j && ParseRedirs(s, j) == Found(files, n)
    ensures ParseExec(s, p) == Ok(Wrap(c, files), n)
  {
  }

  lemma ExecOfBlock(s: string, p: nat, i: nat, c: Cmd<Span>, e: nat, j: nat, files: seq<(Span, How)>, n: nat)
    requires p < |s| && s[p] == '(' && i == p + 1 && SkipSpace(s, i) == i && LineIs(s, i, c, e)
    requires e < |s| && s[e] == ')' && j == e + 1 && SkipSpace(s, j) == j && ParseRedirs(s, j) == Found(files, n)
    ensures ExecIs(s, p, Wrap(c, files), n)
  {
    ParenAt(s, p, '(', "(");
    ParenAt(s, e, ')', ")");
    assert ParseLine(s, i) == Ok(c, e) by { assert KeyParse(0); }
    BlockSplit(s, p, i, c, e, j, files, n);
  }

  lemma PipeOfExec(s: string, p: nat, c: Cmd<Span>, e: nat)
    requires ExecIs(s, p, c, e) && (e < |s| ==> !IsSpace(s[e]) && s[e] != '|' && s[e] != NUL)
    ensures PipeIs(s, p, c, e)
  {
    assert KeyParse(0);
    PeekIs(s, e, "|");
  }

  lemma BarAt(s: string, e: nat)
    requires e < |s| && s[e] == '|'
    ensures Peek(s, e, "|") && GetToken(s, e).next == SkipSpace(s, e + 1)
  {
    PeekIs(s, e, "|");
    SymbolToken(s, e, '|');
  }

  lemma PipeSplit(s: string, p: nat, c: Cmd<Span>, e: nat, r: nat, d: Cmd<Span>, n: nat)
    requires p <= |s| && e <= |s| && ParseExec(s, p) == Ok(c, e) && Peek(s, e, "|")
    requires p <= r <= |s| && GetToken(s, e).next == r && ParsePipe(s, r) == Ok(d, n)
    ensures ParsePipe(s, p) == Ok(Pipe(c, d), n)
  {
  }

  lemma PipeOfTwo(s: string, p: nat, c: Cmd<Span>, e: nat, r: nat, d: Cmd<Span>, n: nat)
    requires ExecIs(s, p, c, e) && p <= e < |s| && s[e] == '|' && r == e + 1 && SkipSpace(s, r) == r
             && PipeIs(s, r, d, n)
    ensures PipeIs(s, p, Pipe(c, d), n)
  {
    BarAt(s, e);
    assert ParseExec(s, p) == Ok(c, e) && ParsePipe(s, r) == Ok(d, n) by { assert KeyParse(0); }
    PipeSplit(s, p, c, e, r, d, n);
  }

  lemma LineOfPipe(s: string, p: nat, c: Cmd<Span>, e: nat)
    requires PipeIs(s, p, c, e) && Stop(s, e)
    ensures LineIs(s, p, c, e)
  {
    assert KeyParse(0);
    PeekIs(s, e, "&");
    PeekIs(s, e, ";");
  }

  lemma BackOnce(s: string, e: nat, c: Cmd<Span>)
    requires e < |s| && s[e] == '&' && Stop(s, e + 1)
    ensures ParseBacks(s, e, c) == Ok(Back(c), e + 1)
  {
    PeekIs(s, e, "&");
    SymbolToken(s, e, '&');
    PeekIs(s, e + 1, "&");
    assert ParseBacks(s, e + 1, Back(c)) == Ok(Back(c), e + 1);
  }

  lemma LineOfBack(s: string, p: nat, c: Cmd<Span>, e: nat, n: nat)
    requires PipeIs(s, p, c, e) && e < |s| && s[e] == '&' && n == e + 1 && Stop(s, n)
    ensures LineIs(s, p, Back(c), n)
  {
    assert KeyParse(0);
    BackOnce(s, e, c);
    PeekIs(s, n, ";");
  }

  lemma NoBack(s: string, e: nat, c: Cmd<Span>)
    requires e < |s| && s[e] == ';'
    ensures ParseBacks(s, e, c) == Ok(c, e) && Peek(s, e, ";") && GetToken(s, e).next == SkipSpace(s, e + 1)
  {
    PeekIs(s, e, "&");
    PeekIs(s, e, ";");
    SymbolToken(s, e, ';');
  }

  /** The definition, once its parts are known. */
  lemma LineSplit(s: string, p: nat, c: Cmd<Span>, e: nat, r: nat, d: Cmd<Span>, n: nat)
    requires p <= |s| && e <= |s| && ParsePipe(s, p) == Ok(c, e) && ParseBacks(s, e, c) == Ok(c, e) && Peek(s, e, ";")
    requires p <= r <= |s| && GetToken(s, e).next == r && ParseLine(s, r) == Ok(d, n)
    ensures ParseLine(s, p) == Ok(List(c, d), n)
  {
  }

  lemma LineOfList(s: string, p: nat, c: Cmd<Span>, e: nat, r: nat, d: Cmd<Span>, n: nat)
    requires PipeIs(s, p, c, e) && p <= e < |s| && s[e] == ';' && r == e + 1 && SkipSpace(s, r) == r
             && LineIs(s, r, d, n)
    ensures LineIs(s, p, List(c, d), n)
  {
    NoBack(s, e, c);
    assert ParsePipe(s, p) == Ok(c, e) && ParseLine(s, r) == Ok(d, n) by { assert KeyParse(0); }
    LineSplit(s, p, c, e, r, d, n);
  }

  lemma OpToken(s: string, p: nat, how: How, q: nat)
    requires At(s, p, Op(how)) && q == p + |Op(how)| && q < |s| && !IsSpace(s[q]) && s[q] != '>'
    ensures SkipSpace(s, p) == p && Peek(s, p, "<>") && HowOf(GetToken(s, p).kind) == how && GetToken(s, p).next == q
  {
    AtChar(s, p, Op(how), 0);
    if how == Append {
      AtChar(s, p, Op(how), 1);
    }
  }

  lemma OneRedir(s: string, p: nat, how: How, q: nat, e: nat)
    requires p <= q <= e <= |s| && Peek(s, p, "<>") && GetToken(s, p).next == q && HowOf(GetToken(s, p).kind) == how
    requires GetToken(s, q) == Token('a', q, e, e) && ParseRedirs(s, e) == Found([], e)
    ensures ParseRedirs(s, p) == Found([(Span(q, e), how)], e)
  {
  }

  /** After a printed redirection comes no white space and no further redirection. */
  lemma StopPlain(s: string, e: nat)
    requires Stop(s, e)
    ensures Plain(s, e) && (e < |s| ==> IsSymbol(s[e]))
  {
  }

  lemma RedirOfFile(s: string, p: nat, how: How, w: string, q: nat, e: nat)
    requires At(s, p, Op(how) + w) && IsWord(w) && q == p + |Op(how)| && e == q + |w| && Stop(s, e)
    ensures SkipSpace(s, p) == p && ParseRedirs(s, p) == Found([(Span(q, e), how)], e) && Read(s, Span(q, e)) == w
  {
    AtSplit(s, p, Op(how), w);
    AtRead(s, q, w);
    StopPlain(s, e);
    NoRedirs(s, e);
    WordToken(s, q, w);
    assert IsWordChar(w[0]);
    OpToken(s, p, how, q);
    OneRedir(s, p, how, q, e);
  }

  // ---- The round trip ----

  /** Parsing a line at `p` yields the command `c` and stops at `e`. */
  ghost predicate LineReads(s: string, p: nat, c: Cmd<string>, e: nat) {
    exists d :: LineIs(s, p, d, e) && Text(s, d) == c
  }

  ghost predicate ExecReads(s: string, p: nat, c: Cmd<string>, e: nat) {
    exists d :: ExecIs(s, p, d, e) && Text(s, d) == c
  }

  lemma ArgsReads(s: string, p: nat, args: seq<string>, e: nat)
    requires FindsArgs(s, p, [], args, e) && Plain(s, p) && (p < |s| ==> s[p] != '(' && s[p] != NUL)
    ensures ExecReads(s, p, Exec(args), e)
  {
    assert KeyArgs(0);
    ExecOfArgs(s, p);
    var r := ParseArgs(s, p, [], []);
    assert ReadAll(s, []) + args == args;
    assert ExecIs(s, p, r.cmd, e);
  }

  lemma BlockReads(s: string, p: nat, c: Cmd<string>, i: nat, q: nat, e: nat)
    requires p < |s| && s[p] == '(' && i == p + 1 && SkipSpace(s, i) == i && LineReads(s, i, c, q) && q < |s|
             && s[q] == ')' && e == q + 1 && Plain(s, e)
    ensures ExecReads(s, p, c, e)
  {
    NoRedirs(s, e);
    var d :| LineIs(s, i, d, q) && Text(s, d) == c;
    ExecOfBlock(s, p, i, d, q, e, [], e);
    assert Wrap(d, []) == d;
  }

  lemma WrapOne<W>(d: Cmd<W>, f: (W, How))
    ensures Wrap(d, [f]) == Redir(d, f.0, f.1)
  {
  }

  lemma RedirBlock(s: string, p: nat, d: Cmd<Span>, i: nat, q: nat, j: nat, how: How, w: string, f: nat, e: nat)
    requires p < |s| && s[p] == '(' && i == p + 1 && SkipSpace(s, i) == i && LineIs(s, i, d, q) && q < |s|
             && s[q] == ')'
    requires j == q + 1 && At(s, j, Op(how) + w) && IsWord(w) && f == j + |Op(how)| && e == f + |w| && Stop(s, e)
    ensures ExecIs(s, p, Redir(d, Span(f, e), how), e) && Read(s, Span(f, e)) == w
  {
    RedirOfFile(s, j, how, w, f, e);
    ExecOfBlock(s, p, i, d, q, j, [(Span(f, e), how)], e);
    WrapOne(d, (Span(f, e), how));
  }

  lemma RedirReads(s: string, p: nat, c: Cmd<string>, i: nat, q: nat, how: How, w: string, e: nat)
    requires p < |s| && s[p] == '(' && i == p + 1 && SkipSpace(s, i) == i && LineReads(s, i, c, q) && q < |s|
             && s[q] == ')'
    requires At(s, q + 1, Op(how) + w) && IsWord(w) && e == q + 1 + |Op(how)| + |w| && Stop(s, e)
    ensures ExecReads(s, p, Redir(c, w, how), e)
  {
    var f := q + 1 + |Op(how)|;
    var d :| LineIs(s, i, d, q) && Text(s, d) == c;
    RedirBlock(s, p, d, i, q, q + 1, how, w, f, e);
    assert Text(s, Redir(d, Span(f, e), how)) == Redir(c, w, how);
  }

  lemma EndReads(s: string, p: nat, c: Cmd<string>, e: nat)
    requires ExecReads(s, p, c, e) && Stop(s, e)
    ensures LineReads(s, p, c, e)
  {
    var d :| ExecIs(s, p, d, e) && Text(s, d) == c;
    PipeOfExec(s, p, d, e);
    LineOfPipe(s, p, d, e);
  }

  lemma PipeReads(s: string, p: nat, c: Cmd<string>, e: nat, r: nat, d: Cmd<string>, n: nat)
    requires ExecReads(s, p, c, e) && e < |s| && s[e] == '|' && r == e + 1 && SkipSpace(s, r) == r
             && ExecReads(s, r, d, n) && Stop(s, n)
    ensures LineReads(s, p, Pipe(c, d), n)
  {
    var x :| ExecIs(s, p, x, e) && Text(s, x) == c;
    var y :| ExecIs(s, r, y, n) && Text(s, y) == d;
    PipeOfExec(s, r, y, n);
    assert p <= e by { assert KeyParse(0); }
    PipeOfTwo(s, p, x, e, r, y, n);
    LineOfPipe(s, p, Pipe(x, y), n);
    assert Text(s, Pipe(x, y)) == Pipe(c, d);
  }

  lemma ListReads(s: string, p: nat, c: Cmd<string>, e: nat, r: nat, d: Cmd<string>, n: nat)
    requires ExecReads(s, p, c, e) && e < |s| && s[e] == ';' && r == e + 1 && SkipSpace(s, r) == r
             && LineReads(s, r, d, n)
    ensures LineReads(s, p, List(c, d), n)
  {
    var x :| ExecIs(s, p, x, e) && Text(s, x) == c;
    var y :| LineIs(s, r, y, n) && Text(s, y) == d;
    PipeOfExec(s, p, x, e);
    assert p <= e by { assert KeyParse(0); }
    LineOfList(s, p, x, e, r, y, n);
    assert Text(s, List(x, y)) == List(c, d);
  }

  lemma BackReads(s: string, p: nat, c: Cmd<string>, e: nat, n: nat)
    requires ExecReads(s, p, c, e) && e < |s| && s[e] == '&' && n == e + 1 && Stop(s, n)
    ensures LineReads(s, p, Back(c), n)
  {
    var x :| ExecIs(s, p, x, e) && Text(s, x) == c;
    PipeOfExec(s, p, x, e);
    LineOfBack(s, p, x, e, n);
    assert Text(s, Back(x)) == Back(c);
  }

  /** A printed command does not begin with white space. */
  lemma PrintStart(s: string, p: nat, c: Cmd<string>)
    requires Expressible(c) && At(s, p, Print(c)) && Stop(s, p + |Print(c)|)
    ensures SkipSpace(s, p) == p
  {
    if c.Exec? && c.args != [] {
      FirstChar(c.args);
    }
    if Print(c) != "" {
      AtChar(s, p, Print(c), 0);
    }
  }

  /** A printed command in parentheses: where the inside and the closing parenthesis are. */
  lemma Inside(s: string, p: nat, c: Cmd<string>, q: nat)
    requires Expressible(c) && At(s, p, "(" + Print(c) + ")") && q == p + 1 + |Print(c)|
    ensures p < q < |s| && s[p] == '(' && s[q] == ')' && At(s, p + 1, Print(c)) && SkipSpace(s, p + 1) == p + 1
  {
    AtSplit(s, p, "(" + Print(c), ")");
    AtSplit(s, p, "(", Print(c));
    AtChar(s, p, "(", 0);
    AtChar(s, q, ")", 0);
    PrintStart(s, p + 1, c);
  }

  lemma {:induction false} BlockBack(s: string, p: nat, c: Cmd<string>, e: nat)
    requires Expressible(c) && At(s, p, "(" + Print(c) + ")") && e == p + |Print(c)| + 2 && Plain(s, e)
    ensures ExecReads(s, p, c, e)
    decreases c, 4
  {
    var q := p + 1 + |Print(c)|;
    Inside(s, p, c, q);
    var i := p + 1;
    PrintBack(s, i, c, q);
    BlockReads(s, p, c, i, q, e);
  }

  /** Wherever a printed command stands before a closing parenthesis or the end, the parser reads it back. */
  lemma {:induction false} PrintBack(s: string, p: nat, c: Cmd<string>, e: nat)
    requires Expressible(c) && At(s, p, Print(c)) && e == p + |Print(c)| && Stop(s, e)
    ensures LineReads(s, p, c, e)
    decreases c, 3
  {
    match c
    case Exec(args) => ExecBack(s, p, args, e);
    case Redir(cmd, file, how) => RedirBack(s, p, cmd, file, how, e);
    case Pipe(left, right) => PipeBack(s, p, left, right, e);
    case List(left, right) => ListBack(s, p, left, right, e);
    case Back(cmd) => BackBack(s, p, cmd, e);
  }

  lemma ExecBack(s: string, p: nat, args: seq<string>, e: nat)
    requires Expressible(Exec(args)) && At(s, p, Join(args)) && e == p + |Join(args)| && Stop(s, e)
    ensures LineReads(s, p, Exec(args), e)
  {
    ArgsBack(s, p, [], args);
    ArgsFirst(s, p, args);
    ArgsReads(s, p, args, e);
    EndReads(s, p, Exec(args), e);
  }

  lemma {:induction false} PipeBack(s: string, p: nat, left: Cmd<string>, right: Cmd<string>, e: nat)
    requires Expressible(left) && Expressible(right) && At(s, p, Print(Pipe(left, right)))
             && e == p + |Print(Pipe(left, right))| && Stop(s, e)
    ensures LineReads(s, p, Pipe(left, right), e)
    decreases Pipe(left, right), 2
  {
    var m, r := TwoParts(s, p, left, "|", right);
    BlockBack(s, p, left, m);
    BlockBack(s, r, right, e);
    PipeReads(s, p, left, m, r, right, e);
  }

  lemma {:induction false} ListBack(s: string, p: nat, left: Cmd<string>, right: Cmd<string>, e: nat)
    requires Expressible(left) && Expressible(right) && At(s, p, Print(List(left, right)))
             && e == p + |Print(List(left, right))| && Stop(s, e)
    ensures LineReads(s, p, List(left, right), e)
    decreases List(left, right), 2
  {
    var m, r := TwoParts(s, p, left, ";", right);
    BlockBack(s, p, left, m);
    BlockBack(s, r, right, e);
    EndReads(s, r, right, e);
    ListReads(s, p, left, m, r, right, e);
  }

  lemma {:induction false} BackBack(s: string, p: nat, cmd: Cmd<string>, e: nat)
    requires Expressible(cmd) && At(s, p, Print(Back(cmd))) && e == p + |Print(Back(cmd))| && Stop(s, e)
    ensures LineReads(s, p, Back(cmd), e)
    decreases Back(cmd), 2
  {
    var m := p + |Print(cmd)| + 2;
    AtSplit(s, p, "(" + Print(cmd) + ")", "&");
    AtChar(s, m, "&", 0);
    BlockBack(s, p, cmd, m);
    BackReads(s, p, cmd, m, e);
  }

  lemma {:induction false} RedirBack(s: string, p: nat, cmd: Cmd<string>, file: string, how: How, e: nat)
    requires Expressible(cmd) && IsWord(file) && At(s, p, Print(Redir(cmd, file, how)))
             && e == p + |Print(Redir(cmd, file, how))| && Stop(s, e)
    ensures LineReads(s, p, Redir(cmd, file, how), e)
    decreases Redir(cmd, file, how), 2
  {
    var q := p + 1 + |Print(cmd)|;
    assert Print(Redir(cmd, file, how)) == ("(" + Print(cmd) + ")") + (Op(how) + file);
    AtSplit(s, p, "(" + Print(cmd) + ")", Op(how) + file);
    Inside(s, p, cmd, q);
    var i := p + 1;
    PrintBack(s, i, cmd, q);
    RedirReads(s, p, cmd, i, q, how, file, e);
    EndReads(s, p, Redir(cmd, file, how), e);
  }

  lemma ArgsFirst(s: string, p: nat, args: seq<string>)
    requires At(s, p, Join(args)) && Stop(s, p + |Join(args)|) && forall k :: 0 <= k < |args| ==> IsWord(args[k])
    ensures p < |s| ==> s[p] != NUL
  {
    if args != [] {
      FirstChar(args);
      AtChar(s, p, Join(args), 0);
    }
  }

  /** Two parenthesised parts with a symbol between them at `m`. */
  lemma TwoParts(s: string, p: nat, left: Cmd<string>, op: string, right: Cmd<string>) returns (m: nat, r: nat)
    requires At(s, p, "(" + Print(left) + ")" + op + ("(" + Print(right) + ")")) && |op| == 1 && op[0] in "|;"
    ensures m == p + |Print(left)| + 2 < |s| && s[m] == op[0] && Plain(s, m) && r == m + 1 <= |s|
            && SkipSpace(s, r) == r
    ensures At(s, p, "(" + Print(left) + ")") && At(s, r, "(" + Print(right) + ")")
  {
    m := p + |Print(left)| + 2;
    r := m + 1;
    AtSplit(s, p, "(" + Print(left) + ")" + op, "(" + Print(right) + ")");
    AtSplit(s, p, "(" + Print(left) + ")", op);
    AtChar(s, m, op, 0);
    AtChar(s, r, "(" + Print(right) + ")", 0);
  }

  /** Parsing the print-out of any expressible command gives the command. */
  lemma RoundTrip(c: Cmd<string>)
    requires Expressible(c)
    ensures ParseCmd(Print(c)).Ok? && Text(Print(c), ParseCmd(Print(c)).cmd) == c
  {
    var s := Print(c);
    PrintBack(s, 0, c, |s|);
    assert KeyParse(0);
  }

  // ---- Every word of a parsed tree is a token of the line ----

  /** A maximal run of word characters. */
  predicate IsToken(s: string, w: Span) {
    && w.lo < w.hi <= |s| && (forall k :: w.lo <= k < w.hi ==> !IsSpace(s[k]) && !IsSymbol(s[k]))
    && (w.hi < |s| ==> IsSpace(s[w.hi]) || IsSymbol(s[w.hi]))
  }

  ghost predicate Tokens(s: string, c: Cmd<Span>) {
    match c
    case Exec(args) => |args| < MAXARGS && forall k :: 0 <= k < |args| ==> IsToken(s, args[k])
    case Redir(cmd, file, how) => Tokens(s, cmd) && IsToken(s, file)
    case Pipe(left, right) => Tokens(s, left) && Tokens(s, right)
    case List(left, right) => Tokens(s, left) && Tokens(s, right)
    case Back(cmd) => Tokens(s, cmd)
  }

  ghost predicate FileTokens(s: string, files: seq<(Span, How)>) {
    forall k :: 0 <= k < |files| ==> IsToken(s, files[k].0)
  }

  lemma {:induction false} RedirTokens(s: string, p: nat)
    requires p <= |s| && ParseRedirs(s, p).Found?
    ensures FileTokens(s, ParseRedirs(s, p).files)
    decreases |s| - p
  {
    if Peek(s, p, "<>") {
      RedirTokens(s, GetToken(s, GetToken(s, p).next).next);
    }
  }

  lemma {:induction false} WrapTokens(s: string, c: Cmd<Span>, files: seq<(Span, How)>)
    requires Tokens(s, c) && FileTokens(s, files)
    ensures Tokens(s, Wrap(c, files))
    decreases |files|
  {
    if files != [] {
      WrapTokens(s, Redir(c, files[0].0, files[0].1), files[1..]);
    }
  }

  lemma {:induction false} ArgTokens(s: string, p: nat, args: seq<Span>, files: seq<(Span, How)>)
    requires p <= |s| && ParseArgs(s, p, args, files).Ok? && Tokens(s, Exec(args)) && FileTokens(s, files)
    ensures Tokens(s, ParseArgs(s, p, args, files).cmd)
    decreases |s| - p
  {
    var q := SkipSpace(s, p);
    var t := GetToken(s, q);
    if Peek(s, q, "|)&;") || t.kind == NUL {
      WrapTokens(s, Exec(args), files);
    } else {
      RedirTokens(s, t.next);
      var r := ParseRedirs(s, t.next);
      ArgTokens(s, r.after, args + [Span(t.lo, t.hi)], files + r.files);
    }
  }

  lemma {:induction false} ExecTokens(s: string, p: nat)
    requires p <= |s| && ParseExec(s, p).Ok?
    ensures Tokens(s, ParseExec(s, p).cmd)
    decreases |s| - p, 2
  {
    if Peek(s, p, "(") {
      var i := GetToken(s, p).next;
      LineTokens(s, i);
      var r := ParseLine(s, i);
      var j := GetToken(s, r.next).next;
      RedirTokens(s, j);
      WrapTokens(s, r.cmd, ParseRedirs(s, j).files);
    } else {
      RedirTokens(s, p);
      ArgTokens(s, ParseRedirs(s, p).after, [], ParseRedirs(s, p).files);
    }
  }

  lemma {:induction false} PipeTokens(s: string, p: nat)
    requires p <= |s| && ParsePipe(s, p).Ok?
    ensures Tokens(s, ParsePipe(s, p).cmd)
    decreases |s| - p, 3
  {
    ExecTokens(s, p);
    var q := ParseExec(s, p).next;
    if Peek(s, q, "|") {
      PipeTokens(s, GetToken(s, q).next);
    }
  }

  lemma {:induction false} BackTokens(s: string, p: nat, c: Cmd<Span>)
    requires p <= |s| && Tokens(s, c)
    ensures Tokens(s, ParseBacks(s, p, c).cmd)
    decreases |s| - p
  {
    if Peek(s, p, "&") {
      BackTokens(s, GetToken(s, p).next, Back(c));
    }
  }

  lemma {:induction false} LineTokens(s: string, p: nat)
    requires p <= |s| && ParseLine(s, p).Ok?
    ensures Tokens(s, ParseLine(s, p).cmd)
    decreases |s| - p, 4
  {
    PipeTokens(s, p);
    var r := ParsePipe(s, p);
    BackTokens(s, r.next, r.cmd);
    var b := ParseBacks(s, r.next, r.cmd);
    if Peek(s, b.next, ";") {
      LineTokens(s, GetToken(s, b.next).next);
    }
  }

  // ---- What can be parsed is what can be printed ----

  lemma TokenIsWord(s: string, w: Span)
    requires IsToken(s, w) && NUL !in s
    ensures IsWord(Read(s, w))
  {
    forall k | w.lo <= k < w.hi ensures IsWordChar(s[k]) {
      assert s[k] in s;
    }
  }

  lemma {:induction false} TokensExpress(s: string, c: Cmd<Span>)
    requires Tokens(s, c) && NUL !in s
    ensures Expressible(Text(s, c))
  {
    match c
    case Exec(args) =>
      forall k | 0 <= k < |args| ensures IsWord(ReadAll(s, args)[k]) {
        TokenIsWord(s, args[k]);
      }
    case Redir(cmd, file, how) =>
      TokensExpress(s, cmd);
      TokenIsWord(s, file);
    case Pipe(left, right) =>
      TokensExpress(s, left);
      TokensExpress(s, right);
    case List(left, right) =>
      TokensExpress(s, left);
      TokensExpress(s, right);
    case Back(cmd) =>
      TokensExpress(s, cmd);
  }

  lemma {:induction false} JoinClean(args: seq<string>)
    requires forall k :: 0 <= k < |args| ==> IsWord(args[k])
    ensures NUL !in Join(args)
  {
    if |args| > 1 {
      JoinClean(args[1..]);
    }
  }

  lemma {:induction false} PrintClean(c: Cmd<string>)
    requires Expressible(c)
    ensures NUL !in Print(c)
  {
    match c
    case Exec(args) => JoinClean(args);
    case Redir(cmd, file, how) => PrintClean(cmd);
    case Pipe(left, right) =>
      PrintClean(left);
      PrintClean(right);
    case List(left, right) =>
      PrintClean(left);
      PrintClean(right);
    case Back(cmd) => PrintClean(cmd);
  }

  /**
   The other half of the round trip: for every line accepted, printing what was parsed and parsing it again
   changes nothing.
   */
  lemma ParsePrintParse(s: string)
    requires NUL !in s && ParseCmd(s).Ok?
    ensures var c := Text(s, ParseCmd(s).cmd);
            Expressible(c) && ParseCmd(Print(c)).Ok? && Text(Print(c), ParseCmd(Print(c)).cmd) == c
  {
    LineTokens(s, 0);
    TokensExpress(s, ParseCmd(s).cmd);
    RoundTrip(Text(s, ParseCmd(s).cmd));
  }

  /** Line `s` means command `c`. */
  ghost predicate Means(s: string, c: Cmd<string>) {
    NUL !in s && ParseCmd(s).Ok? && Text(s, ParseCmd(s).cmd) == c
  }

  /** The trees the parser builds are exactly the expressible ones. */
  lemma JustExpressible(c: Cmd<string>)
    ensures Expressible(c) <==> exists s :: Means(s, c)
  {
    if Expressible(c) {
      RoundTrip(c);
      PrintClean(c);
      assert Means(Print(c), c);
    }
    if s :| Means(s, c) {
      ParsePrintParse(s);
    }
  }

  // ---- nulterminate ----

  /** The positions one past the end of each word. */
  ghost function Ends(c: Cmd<Span>): (r: set<nat>) {
    match c
    case Exec(args) => set k | 0 <= k < |args| :: args[k].hi
    case Redir(cmd, file, how) => Ends(cmd) + {file.hi}
    case Pipe(left, right) => Ends(left) + Ends(right)
    case List(left, right) => Ends(left) + Ends(right)
    case Back(cmd) => Ends(cmd)
  }

  /** The text with a NUL at those positions. */
  ghost function Stamped(t: string, ends: set<nat>): (r: string)
    ensures |r| == |t|
  {
    seq(|t|, k requires 0 <= k < |t| => if k in ends then NUL else t[k])
  }

  /** The string that a C pointer to position `p` denotes. */
  function CString(t: string, p: nat): (r: string)
    decreases |t| - p
  {
    if p >= |t| || t[p] == NUL then "" else [t[p]] + CString(t, p + 1)
  }

  lemma StampTwice(t: string, a: set<nat>, b: set<nat>)
    ensures Stamped(Stamped(t, a), b) == Stamped(t, a + b)
  {
  }

  /** Overwrites the character after each word of the tree with a NUL, in place. */
  method Nulterminate(buf: array<char>, c: Cmd<Span>)
    requires forall e :: e in Ends(c) ==> e < buf.Length
    modifies buf
    ensures buf[..] == Stamped(old(buf[..]), Ends(c))
    decreases c
  {
    ghost var t := buf[..];
    match c
    case Exec(args) =>
      var i := 0;
      while i < |args|
        invariant 0 <= i <= |args| && buf[..] == Stamped(t, set k | 0 <= k < i :: args[k].hi)
      {
        assert args[i].hi in Ends(c);
        buf[args[i].hi] := NUL;
        i := i + 1;
      }
    case Redir(cmd, file, how) =>
      assert Ends(c) == Ends(cmd) + {file.hi} && file.hi in Ends(c);
      Nulterminate(buf, cmd);
      buf[file.hi] := NUL;
    case Pipe(left, right) =>
      assert Ends(c) == Ends(left) + Ends(right);
      Nulterminate(buf, left);
      Nulterminate(buf, right);
      StampTwice(t, Ends(left), Ends(right));
    case List(left, right) =>
      assert Ends(c) == Ends(left) + Ends(right);
      Nulterminate(buf, left);
      Nulterminate(buf, right);
      StampTwice(t, Ends(left), Ends(right));
    case Back(cmd) =>
      assert Ends(c) == Ends(cmd);
      Nulterminate(buf, cmd);
  }

  /** The tree as its pointers read in the text `t`. */
  ghost function Denoted(t: string, c: Cmd<Span>): (r: Cmd<string>) {
    match c
    case Exec(args) => Exec(seq(|args|, k requires 0 <= k < |args| => CString(t, args[k].lo)))
    case Redir(cmd, file, how) => Redir(Denoted(t, cmd), CString(t, file.lo), how)
    case Pipe(left, right) => Pipe(Denoted(t, left), Denoted(t, right))
    case List(left, right) => List(Denoted(t, left), Denoted(t, right))
    case Back(cmd) => Back(Denoted(t, cmd))
  }

  lemma {:induction false} CStringIs(t: string, lo: nat, hi: nat)
    requires lo <= hi < |t| && t[hi] == NUL && forall k :: lo <= k < hi ==> t[k] != NUL
    ensures CString(t, lo) == t[lo..hi]
    decreases hi - lo
  {
    if lo < hi {
      CStringIs(t, lo + 1, hi);
      assert t[lo..hi] == [t[lo]] + t[lo + 1..hi];
    }
  }

  /** A word never contains the end of another word. */
  ghost predicate Outside(s: string, e: nat) { e == |s| || (e < |s| && (IsSpace(s[e]) || IsSymbol(s[e]))) }

  lemma {:induction false} EndsOutside(s: string, c: Cmd<Span>, e: nat)
    requires Tokens(s, c) && e in Ends(c)
    ensures Outside(s, e)
  {
    match c
    case Exec(args) => var k :| 0 <= k < |args| && args[k].hi == e; assert IsToken(s, args[k]);
    case Redir(cmd, file, how) => if e != file.hi { EndsOutside(s, cmd, e); }
    case Pipe(left, right) => if e in Ends(left) { EndsOutside(s, left, e); } else { EndsOutside(s, right, e); }
    case List(left, right) => if e in Ends(left) { EndsOutside(s, left, e); } else { EndsOutside(s, right, e); }
    case Back(cmd) => EndsOutside(s, cmd, e);
  }

  lemma WordRead(s: string, ends: set<nat>, w: Span)
    requires IsToken(s, w) && w.hi in ends && (forall e :: e in ends ==> Outside(s, e))
             && forall k :: 0 <= k < |s| ==> s[k] != NUL
    ensures CString(Stamped(s + [NUL], ends), w.lo) == Read(s, w)
  {
    var t := Stamped(s + [NUL], ends);
    forall k | w.lo <= k < w.hi ensures t[k] == s[k] {
      assert !Outside(s, k);
    }
    CStringIs(t, w.lo, w.hi);
    assert t[w.lo..w.hi] == s[w.lo..w.hi];
  }

  lemma {:induction false} DenotedIs(s: string, ends: set<nat>, c: Cmd<Span>)
    requires Tokens(s, c) && Ends(c) <= ends && (forall e :: e in ends ==> Outside(s, e))
             && forall k :: 0 <= k < |s| ==> s[k] != NUL
    ensures Denoted(Stamped(s + [NUL], ends), c) == Text(s, c)
  {
    match c
    case Exec(args) =>
      forall k | 0 <= k < |args| ensures CString(Stamped(s + [NUL], ends), args[k].lo) == Read(s, args[k]) {
        assert args[k].hi in Ends(c);
        WordRead(s, ends, args[k]);
      }
    case Redir(cmd, file, how) =>
      assert Ends(c) == Ends(cmd) + {file.hi} && file.hi in Ends(c);
      DenotedIs(s, ends, cmd);
      WordRead(s, ends, file);
    case Pipe(left, right) =>
      DenotedIs(s, ends, left);
      DenotedIs(s, ends, right);
    case List(left, right) =>
      DenotedIs(s, ends, left);
      DenotedIs(s, ends, right);
    case Back(cmd) =>
      DenotedIs(s, ends, cmd);
  }

  /** After `nulterminate`, every pointer in the tree of a parsed line reads as exactly its token. */
  lemma Terminated(s: string)
    requires (forall k :: 0 <= k < |s| ==> s[k] != NUL) && ParseCmd(s).Ok?
    ensures var c := ParseCmd(s).cmd; Denoted(Stamped(s + [NUL], Ends(c)), c) == Text(s, c)
  {
    var c := ParseCmd(s).cmd;
    LineTokens(s, 0);
    forall e | e in Ends(c) ensures Outside(s, e) {
      EndsOutside(s, c, e);
    }
    DenotedIs(s, Ends(c), c);
  }

  // ---- The scanning loops ----

  method SkipLoop(s: string, p: nat) returns (q: nat)
    requires p <= |s|
    ensures q == SkipSpace(s, p)
  {
    q := p;
    while q < |s| && IsSpace(s[q])
      invariant p <= q <= |s| && SkipSpace(s, p) == SkipSpace(s, q)
    {
      q := q + 1;
    }
  }

  /** `gettoken`. */
  method Scan(s: string, p: nat) returns (t: Token)
    requires p <= |s|
    ensures t == GetToken(s, p)
  {
    var q := SkipLoop(s, p);
    var e, kind := q, NUL;
    if q < |s| && s[q] != NUL {
      kind := s[q];
      if kind in "|();&<" {
        e := q + 1;
      } else if kind == '>' {
        e := q + 1;
        if e < |s| && s[e] == '>' {
          kind, e := '+', e + 1;
        }
      } else {
        kind := 'a';
        while e < |s| && !IsSpace(s[e]) && !IsSymbol(s[e])
          invariant q <= e <= |s| && WordEnd(s, q) == WordEnd(s, e)
        {
          e := e + 1;
        }
      }
    }
    var next := SkipLoop(s, e);
    t := Token(kind, q, e, next);
  }
}
