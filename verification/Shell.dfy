/** The shell's parser as it runs: a cursor moved by loops, and NUL-termination of the words in the
input buffer. */
module Shell {
  import opened ShellSyntax

  // ----- Tokens -----

  method SkipSpaces(t: string, s: nat) returns (n: nat)
    requires s <= |t|
    ensures n == SkipSpace(t, s)
  {
    n := s;
    while n < |t| && Space(t[n])
      invariant s <= n <= |t| && SkipSpace(t, n) == SkipSpace(t, s)
    {
      n := n + 1;
    }
  }

  /** gettoken. */
  method GetToken(t: string, s: nat) returns (l: Lexeme)
    requires s <= |t|
    ensures l == Lex(t, s)
  {
    var q := SkipSpaces(t, s);
    var tok, e := At(t, q), q;
    match tok {
      case '\0' =>
      case '|' | '(' | ')' | ';' | '&' | '<' =>
        e := e + 1;
      case '>' =>
        e := e + 1;
        if At(t, e) == '>' {
          tok := '+';
          e := e + 1;
        }
      case _ =>
        tok := 'a';
        while e < |t| && WordChar(t[e])
          invariant q <= e <= |t| && WordEnd(t, e) == WordEnd(t, q)
        {
          e := e + 1;
        }
    }
    var n := SkipSpaces(t, e);
    l := Lexeme(tok, q, e, n);
  }

  /** peek. */
  method Peek(t: string, s: nat, toks: string) returns (yes: bool, n: nat)
    requires s <= |t|
    ensures n == SkipSpace(t, s) && (yes <==> At(t, n) != NUL && At(t, n) in toks)
  {
    n := SkipSpaces(t, s);
    yes := At(t, n) != NUL && At(t, n) in toks;
  }

  // ----- Commands -----

  /** parseredirs, adding to the redirections before it. */
  method ReadRedirs(t: string, s: nat, before: seq<Redirection<Span>>) returns (r: Parsed<seq<Redirection<Span>>>)
    requires s <= |t| && GoodRedirs(t, before)
    ensures r == ParseRedirs(t, s, before)
  {
    hide ParseRedirs, SkipSpace, Lex, GoodRedirs;
    var n, rs := s, before;
    while true
      invariant n <= |t| && GoodRedirs(t, rs) && ParseRedirs(t, s, before) == ParseRedirs(t, n, rs)
      decreases |t| - n
    {
      RedirsSkip(t, n, rs);
      var more: bool;
      more, n := Peek(t, n, "<>");
      RedirsUnfold(t, n, rs);
      if !more {
        return Ok(rs, n);
      }
      var op := GetToken(t, n);
      var w := GetToken(t, op.next);
      if w.tok != 'a' {
        return Fail(MissingFile);
      }
      rs := rs + [Redirection(Span(w.q, w.eq), op.tok != '<')];
      n := w.next;
    }
  }

  lemma LexSymbol(t: string, s: nat)
    requires s < |t| && Symbol(t[s]) && t[s] != '>'
    ensures Lex(t, s) == Lexeme(t[s], s, s + 1, SkipSpace(t, s + 1))
  {
    SkipNone(t, s);
  }

  lemma ItemsUnfold(t: string, p: nat, args: seq<Span>, rs: seq<Redirection<Span>>)
    requires p <= |t| && Good(t, Exec(args)) && GoodRedirs(t, rs)
    requires !Space(At(t, p)) && At(t, p) != '<' && At(t, p) != '>'
    ensures
      var l := Lex(t, p);
      && (l.tok == NUL || At(t, p) != NUL)
      && (EndsSimple(At(t, p)) ==> ParseItems(t, p, args, rs) == Ok(Wrap(Exec(args), rs), p))
      && (EndsSimple(At(t, p)) <==> EndsSimple(l.tok))
      && (l.tok == 'a' && |args| + 1 < MAXARGS ==> Good(t, Exec(args + [Span(l.q, l.eq)])))
      && (!EndsSimple(l.tok) ==>
            ParseItems(t, p, args, rs) ==
              if l.tok != 'a' then Fail(BadToken)
              else if |args| + 1 >= MAXARGS then Fail(TooManyArgs)
              else ParseItems(t, l.next, args + [Span(l.q, l.eq)], rs))
  {
    SkipNone(t, p);
  }

  method ReadItems(t: string, p: nat) returns (r: Parsed<Cmd<Span>>)
    requires p <= |t|
    ensures r == ParseItems(t, p, [], [])
  {
    assert GoodRedirs(t, []) && Good(t, Exec([]));
    hide ParseItems, ParseRedirs, SkipSpace, Lex, GoodRedirs, Good, Wrap;
    ItemsAfterRedirs(t, p, [], []);
    var rs := ReadRedirs(t, p, []);
    var args: seq<Span> := [];
    while rs.Ok?
      invariant rs.Ok? ==>
        rs.next <= |t| && GoodRedirs(t, rs.v) && Good(t, Exec(args))
        && ParseItems(t, p, [], []) == ParseItems(t, rs.next, args, rs.v)
      invariant rs.Ok? ==> At(t, rs.next) != '<' && At(t, rs.next) != '>' && !Space(At(t, rs.next))
      invariant rs.Fail? ==> ParseItems(t, p, [], []) == Fail(rs.why)
      decreases if rs.Ok? then |t| - rs.next else -1
    {
      ItemsUnfold(t, rs.next, args, rs.v);
      SkipNone(t, rs.next);
      var done, n := Peek(t, rs.next, "|)&;");
      if done {
        return Ok(Wrap(Exec(args), rs.v), n);
      }
      var l := GetToken(t, n);
      if l.tok == NUL {
        return Ok(Wrap(Exec(args), rs.v), n);
      }
      if l.tok != 'a' {
        return Fail(BadToken);
      }
      args := args + [Span(l.q, l.eq)];
      if |args| >= MAXARGS {
        return Fail(TooManyArgs);
      }
      ItemsAfterRedirs(t, l.next, args, rs.v);
      rs := ReadRedirs(t, l.next, rs.v);
    }
    return Fail(rs.why);
  }

  /** parseexec: the arguments and redirections of a simple command. */
  method ReadExec(t: string, s: nat) returns (r: Parsed<Cmd<Span>>)
    requires s <= |t|
    ensures r == ParseExec(t, s)
    decreases |t| - s, 1
  {
    hide ParseBlock, ParseItems, Good;
    var block, p := Peek(t, s, "(");
    if block {
      r := ReadBlock(t, p);
    } else {
      r := ReadItems(t, p);
    }
  }

  /** parsepipe. */
  method ReadPipe(t: string, s: nat) returns (r: Parsed<Cmd<Span>>)
    requires s <= |t|
    ensures r == ParsePipe(t, s)
    decreases |t| - s, 2
  {
    hide ParseExec, ParsePipe, SkipSpace, Good;
    PipeUnfold(t, s);
    r := ReadExec(t, s);
    if r.Ok? {
      SkipNone(t, r.next);
      var more, n := Peek(t, r.next, "|");
      if more {
        var bar := GetToken(t, n);
        LexSymbol(t, n);
        PipeSkip(t, n + 1);
        var d := ReadPipe(t, bar.next);
        r := if d.Fail? then d else Ok(Pipe(r.v, d.v), d.next);
      }
    }
  }

  method ReadAmps(t: string, s: nat, c: Cmd<Span>) returns (r: Parsed<Cmd<Span>>)
    requires s <= |t| && !Space(At(t, s)) && Good(t, c)
    ensures r == ParseAmps(t, s, c)
  {
    hide SkipSpace;
    var n, d := s, c;
    var more: bool;
    SkipNone(t, n);
    more, n := Peek(t, n, "&");
    while more
      invariant n <= |t| && !Space(At(t, n)) && Good(t, d) && ParseAmps(t, s, c) == ParseAmps(t, n, d)
      invariant more <==> At(t, n) == '&'
      decreases |t| - n
    {
      var amp := GetToken(t, n);
      LexSymbol(t, n);
      d := Back(d);
      SkipNone(t, amp.next);
      more, n := Peek(t, amp.next, "&");
    }
    return Ok(d, n);
  }

  /** parseline. */
  method ReadLine(t: string, s: nat) returns (r: Parsed<Cmd<Span>>)
    requires s <= |t|
    ensures r == ParseLine(t, s)
    decreases |t| - s, 3
  {
    hide ParsePipe, ParseLine, ParseAmps, SkipSpace, Good;
    LineUnfold(t, s);
    r := ReadPipe(t, s);
    if r.Fail? {
      return;
    }
    r := ReadAmps(t, r.next, r.v);
    SkipNone(t, r.next);
    var more, n := Peek(t, r.next, ";");
    if more {
      var semi := GetToken(t, n);
      LexSymbol(t, n);
      LineSkip(t, n + 1);
      var d := ReadLine(t, semi.next);
      r := if d.Fail? then d else Ok(List(r.v, d.v), d.next);
    }
  }

  /** parseblock. */
  method ReadBlock(t: string, p: nat) returns (r: Parsed<Cmd<Span>>)
    requires p < |t| && t[p] == '('
    ensures r == ParseBlock(t, p)
    decreases |t| - p, 0
  {
    hide ParseLine, ParseRedirs, SkipSpace, Good, Wrap;
    var open := GetToken(t, p);
    LexSymbol(t, p);
    var c := ReadLine(t, open.next);
    if c.Fail? {
      return c;
    }
    SkipNone(t, c.next);
    var closed, n := Peek(t, c.next, ")");
    if !closed {
      return Fail(MissingParen);
    }
    var close := GetToken(t, n);
    LexSymbol(t, n);
    var rs := ReadRedirs(t, close.next, []);
    r := if rs.Fail? then Fail(rs.why) else Ok(Wrap(c.v, rs.v), rs.next);
  }

  // ----- NUL termination -----

  function Spans(c: Cmd<Span>): set<Span> {
    match c
    case Exec(argv) => set i | 0 <= i < |argv| :: argv[i]
    case Redir(d, file, _) => Spans(d) + {file}
    case Pipe(l, r) => Spans(l) + Spans(r)
    case List(l, r) => Spans(l) + Spans(r)
    case Back(d) => Spans(d)
  }

  /** Some word of ws ends at i. */
  ghost predicate Ends(ws: set<Span>, i: int) {
    exists w :: w in ws && w.hi == i
  }

  /** b with a NUL at the end of every word of ws. */
  ghost predicate Cut(b: string, ws: set<Span>, r: string) {
    |r| == |b| && forall i :: 0 <= i < |b| ==> r[i] == if Ends(ws, i) then NUL else b[i]
  }

  lemma CutTwice(b: string, ws: set<Span>, r: string, vs: set<Span>, q: string)
    requires Cut(b, ws, r) && Cut(r, vs, q)
    ensures Cut(b, ws + vs, q)
  {
    forall i | 0 <= i < |b| ensures q[i] == if Ends(ws + vs, i) then NUL else b[i] {
      assert Ends(ws + vs, i) <==> Ends(ws, i) || Ends(vs, i) by {
        if w :| w in ws && w.hi == i {
          assert w in ws + vs;
        }
        if w :| w in vs && w.hi == i {
          assert w in ws + vs;
        }
      }
    }
  }

  lemma CutOne(b: string, w: Span, r: string)
    requires w.hi < |b| && r == b[w.hi := NUL]
    ensures Cut(b, {w}, r)
  {
  }

  /** nulterminate. */
  method Nulterminate(c: Cmd<Span>, buf: array<char>)
    requires forall w :: w in Spans(c) ==> w.hi < buf.Length
    modifies buf
    ensures Cut(old(buf[..]), Spans(c), buf[..])
    decreases c
  {
    ghost var b := buf[..];
    match c
    case Exec(argv) =>
      var i := 0;
      while i < |argv|
        invariant 0 <= i <= |argv|
        invariant Cut(b, set k | 0 <= k < i :: argv[k], buf[..])
      {
        ghost var r := buf[..];
        assert argv[i] in Spans(c);
        buf[argv[i].hi] := NUL;
        CutOne(r, argv[i], buf[..]);
        CutTwice(b, set k | 0 <= k < i :: argv[k], r, {argv[i]}, buf[..]);
        assert (set k | 0 <= k < i :: argv[k]) + {argv[i]} == set k | 0 <= k < i + 1 :: argv[k];
        i := i + 1;
      }
    case Redir(d, file, _) =>
      Nulterminate(d, buf);
      ghost var r := buf[..];
      assert file in Spans(c);
      buf[file.hi] := NUL;
      CutOne(r, file, buf[..]);
      CutTwice(b, Spans(d), r, {file}, buf[..]);
    case Pipe(left, right) =>
      Nulterminate(left, buf);
      ghost var r := buf[..];
      Nulterminate(right, buf);
      CutTwice(b, Spans(left), r, Spans(right), buf[..]);
    case List(left, right) =>
      Nulterminate(left, buf);
      ghost var r := buf[..];
      Nulterminate(right, buf);
      CutTwice(b, Spans(left), r, Spans(right), buf[..]);
    case Back(d) =>
      Nulterminate(d, buf);
  }

  /** The C string that starts at s. */
  function CString(b: string, s: nat): string
    decreases |b| - s
  {
    if s < |b| && b[s] != NUL then [b[s]] + CString(b, s + 1) else ""
  }

  lemma {:induction false} CStringIs(b: string, s: nat, e: nat)
    requires s <= e < |b| && b[e] == NUL && forall i :: s <= i < e ==> b[i] != NUL
    ensures CString(b, s) == b[s..e]
    decreases e - s
  {
    if s < e {
      CStringIs(b, s + 1, e);
    }
  }

  lemma {:induction false} GoodSpans(t: string, c: Cmd<Span>, w: Span)
    requires Good(t, c) && w in Spans(c)
    ensures GoodSpan(t, w)
  {
    match c
    case Exec(argv) =>
    case Redir(d, file, _) =>
      if w in Spans(d) {
        GoodSpans(t, d, w);
      }
    case Pipe(l, r) =>
      if w in Spans(l) {
        GoodSpans(t, l, w);
      } else {
        GoodSpans(t, r, w);
      }
    case List(l, r) =>
      if w in Spans(l) {
        GoodSpans(t, l, w);
      } else {
        GoodSpans(t, r, w);
      }
    case Back(d) =>
      GoodSpans(t, d, w);
  }

  /** No NUL lands inside a word: each word of a parsed command, read as a C string, is its token. */
  lemma WordsAreCStrings(t: string, c: Cmd<Span>, b: string, r: string, w: Span)
    requires NUL !in t && Good(t, c) && |t| < |b| && b[..|t|] == t && Cut(b, Spans(c), r) && w in Spans(c)
    ensures w.lo <= w.hi <= |t| && CString(r, w.lo) == t[w.lo..w.hi]
  {
    GoodSpans(t, c, w);
    assert Ends(Spans(c), w.hi);
    forall i | w.lo <= i < w.hi ensures r[i] == t[i] && r[i] != NUL {
      assert WordChar(t[i]) && b[i] == b[..|t|][i] == t[i];
      if v :| v in Spans(c) && v.hi == i {
        GoodSpans(t, c, v);
      }
    }
    CStringIs(r, w.lo, w.hi);
  }

  /** strlen. */
  method Strlen(buf: array<char>) returns (n: nat)
    requires NUL in buf[..]
    ensures n < buf.Length && buf[n] == NUL && CString(buf[..], 0) == buf[..n] && NUL !in buf[..n]
  {
    n := 0;
    while buf[n] != NUL
      invariant n < buf.Length && forall i :: 0 <= i < n ==> buf[i] != NUL
      invariant NUL in buf[n..]
      decreases buf.Length - n
    {
      assert buf[n..] == [buf[n]] + buf[n + 1..];
      n := n + 1;
    }
    CStringIs(buf[..], 0, n);
    assert buf[..][0..n] == buf[..n];
  }

  ghost predicate Terminated(t: string, c: Cmd<Span>, r: string) {
    forall w :: w in Spans(c) ==> w.lo <= w.hi <= |t| && CString(r, w.lo) == t[w.lo..w.hi]
  }

  lemma AllTerminated(t: string, c: Cmd<Span>, b: string, r: string)
    requires NUL !in t && Good(t, c) && |t| < |b| && b[..|t|] == t && Cut(b, Spans(c), r)
    ensures Terminated(t, c, r)
  {
    forall w | w in Spans(c) ensures w.lo <= w.hi <= |t| && CString(r, w.lo) == t[w.lo..w.hi] {
      WordsAreCStrings(t, c, b, r, w);
    }
  }

  lemma InBuffer(t: string, c: Cmd<Span>)
    requires Good(t, c)
    ensures forall w :: w in Spans(c) ==> w.hi <= |t|
  {
    forall w | w in Spans(c) ensures w.hi <= |t| {
      GoodSpans(t, c, w);
    }
  }

  /** parsecmd: the words of an accepted line are left as C strings in the buffer; a rejected line is
  left alone. */
  method ParseCmd(buf: array<char>) returns (r: Parsed<Cmd<Span>>)
    requires NUL in buf[..]
    modifies buf
    ensures r == Parse(CString(old(buf[..]), 0)) && (r.Fail? ==> buf[..] == old(buf[..]))
    ensures r.Ok? ==> Terminated(CString(old(buf[..]), 0), r.v, buf[..])
  {
    var n := Strlen(buf);
    var t := buf[..n];
    ghost var b := buf[..];
    hide ParseLine, Good, CString;
    r := ReadLine(t, 0);
    if r.Ok? {
      SkipNone(t, r.next);
      var any, s := Peek(t, r.next, "");
      if s != n {
        return Fail(Leftovers);
      }
      InBuffer(t, r.v);
      Nulterminate(r.v, buf);
      AllTerminated(t, r.v, b, buf[..]);
    }
  }
}
