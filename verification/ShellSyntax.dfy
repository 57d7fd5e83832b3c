/** The shell's lexer and recursive-descent grammar, as functions of the text and a cursor. */
module ShellSyntax {
  const NUL := '\0'
  const VT: char := 11 as char
  const MAXARGS := 10

  /** A word as the parser records it: the cursor at its first character and past its last. */
  datatype Span = Span(lo: nat, hi: nat)

  datatype Redirection<W> = Redirection(file: W, output: bool)

  datatype Cmd<W> =
    | Exec(argv: seq<W>)
    | Redir(cmd: Cmd<W>, file: W, output: bool)
    | Pipe(left: Cmd<W>, right: Cmd<W>)
    | List(left: Cmd<W>, right: Cmd<W>)
    | Back(cmd: Cmd<W>)

  datatype Panic = MissingFile | MissingParen | BadToken | TooManyArgs | Leftovers

  datatype Parsed<V> = Ok(v: V, next: nat) | Fail(why: Panic)

  // ----- Characters and tokens -----

  predicate Space(c: char) {
    c == ' ' || c == '\t' || c == '\r' || c == '\n' || c == VT
  }

  predicate Symbol(c: char) {
    c == '<' || c == '|' || c == '>' || c == '&' || c == ';' || c == '(' || c == ')'
  }

  predicate WordChar(c: char) {
    !Space(c) && !Symbol(c)
  }

  /** The character under the cursor; the text is followed by a NUL. */
  function At(t: string, s: nat): char {
    if s < |t| then t[s] else NUL
  }

  function SkipSpace(t: string, s: nat): (n: nat)
    requires s <= |t|
    ensures s <= n <= |t| && !Space(At(t, n)) && forall i :: s <= i < n ==> Space(t[i])
    decreases |t| - s
  {
    if s < |t| && Space(t[s]) then SkipSpace(t, s + 1) else s
  }

  function WordEnd(t: string, s: nat): (n: nat)
    requires s <= |t|
    ensures s <= n <= |t| && (n == |t| || !WordChar(t[n])) && forall i :: s <= i < n ==> WordChar(t[i])
    decreases |t| - s
  {
    if s < |t| && WordChar(t[s]) then WordEnd(t, s + 1) else s
  }

  /** A token: its kind (the character itself, 'a' for a word, '+' for >>, NUL at the end), its extent
  and the cursor after it and the space that follows. */
  datatype Lexeme = Lexeme(tok: char, q: nat, eq: nat, next: nat)

  /** A maximal run of word characters. */
  predicate GoodSpan(t: string, w: Span) {
    w.lo < w.hi <= |t| && (forall i :: w.lo <= i < w.hi ==> WordChar(t[i])) && (w.hi == |t| || !WordChar(t[w.hi]))
  }

  function Lex(t: string, s: nat): (l: Lexeme)
    requires s <= |t|
    ensures s <= l.q <= l.eq <= l.next <= |t| && !Space(At(t, l.next)) && (l.tok != NUL ==> l.q < l.eq)
    ensures l.tok == 'a' ==> GoodSpan(t, Span(l.q, l.eq))
  {
    var q := SkipSpace(t, s);
    var c := At(t, q);
    if c == NUL then Lexeme(NUL, q, q, q)
    else if c == '>' && At(t, q + 1) == '>' then Lexeme('+', q, q + 2, SkipSpace(t, q + 2))
    else if Symbol(c) then Lexeme(c, q, q + 1, SkipSpace(t, q + 1))
    else Lexeme('a', q, WordEnd(t, q), SkipSpace(t, WordEnd(t, q)))
  }

  // ----- The grammar -----

  function Wrap<W>(c: Cmd<W>, rs: seq<Redirection<W>>): Cmd<W> {
    if rs == [] then c else Redir(Wrap(c, rs[..|rs| - 1]), rs[|rs| - 1].file, rs[|rs| - 1].output)
  }

  /** Every word of c is a word of t, and no command has more arguments than argv can hold. */
  predicate Good(t: string, c: Cmd<Span>) {
    match c
    case Exec(argv) => |argv| < MAXARGS && forall i :: 0 <= i < |argv| ==> GoodSpan(t, argv[i])
    case Redir(d, file, _) => Good(t, d) && GoodSpan(t, file)
    case Pipe(l, r) => Good(t, l) && Good(t, r)
    case List(l, r) => Good(t, l) && Good(t, r)
    case Back(d) => Good(t, d)
  }

  predicate GoodRedirs(t: string, rs: seq<Redirection<Span>>) {
    forall i :: 0 <= i < |rs| ==> GoodSpan(t, rs[i].file)
  }

  lemma GoodWrap(t: string, c: Cmd<Span>, rs: seq<Redirection<Span>>)
    requires Good(t, c) && GoodRedirs(t, rs)
    ensures Good(t, Wrap(c, rs))
  {
    if rs != [] {
      GoodWrap(t, c, rs[..|rs| - 1]);
    }
  }

  /** The cursor rests on a character that is not space. */
  predicate Rests(t: string, s: nat, n: nat) {
    s <= n <= |t| && !Space(At(t, n))
  }

  function ParseRedirs(t: string, s: nat, rs: seq<Redirection<Span>>): (r: Parsed<seq<Redirection<Span>>>)
    requires s <= |t| && GoodRedirs(t, rs)
    ensures r.Ok? ==> Rests(t, s, r.next) && GoodRedirs(t, r.v) && At(t, r.next) != '<' && At(t, r.next) != '>'
    decreases |t| - s
  {
    var p := SkipSpace(t, s);
    if At(t, p) == '<' || At(t, p) == '>' then
      var op := Lex(t, p);
      var w := Lex(t, op.next);
      if w.tok != 'a' then Fail(MissingFile)
      else ParseRedirs(t, w.next, rs + [Redirection(Span(w.q, w.eq), op.tok != '<')])
    else Ok(rs, p)
  }

  predicate EndsSimple(c: char) {
    c == NUL || c == '|' || c == ')' || c == '&' || c == ';'
  }

  /** Words and redirections, in any order, up to a character that ends a simple command. */
  function ParseItems(t: string, s: nat, args: seq<Span>, rs: seq<Redirection<Span>>): (r: Parsed<Cmd<Span>>)
    requires s <= |t| && Good(t, Exec(args)) && GoodRedirs(t, rs)
    ensures r.Ok? ==> Rests(t, s, r.next) && Good(t, r.v)
    decreases |t| - s
  {
    var p := SkipSpace(t, s);
    if At(t, p) == '<' || At(t, p) == '>' then
      var op := Lex(t, p);
      var w := Lex(t, op.next);
      if w.tok != 'a' then Fail(MissingFile)
      else ParseItems(t, w.next, args, rs + [Redirection(Span(w.q, w.eq), op.tok != '<')])
    else
      var l := Lex(t, p);
      if EndsSimple(l.tok) then
        GoodWrap(t, Exec(args), rs);
        Ok(Wrap(Exec(args), rs), p)
      else if l.tok != 'a' then Fail(BadToken)
      else if |args| + 1 >= MAXARGS then Fail(TooManyArgs)
      else ParseItems(t, l.next, args + [Span(l.q, l.eq)], rs)
  }

  function ParseExec(t: string, s: nat): (r: Parsed<Cmd<Span>>)
    requires s <= |t|
    ensures r.Ok? ==> Rests(t, s, r.next) && Good(t, r.v)
    decreases |t| - s, 1
  {
    var p := SkipSpace(t, s);
    if At(t, p) == '(' then ParseBlock(t, p) else ParseItems(t, p, [], [])
  }

  function ParsePipe(t: string, s: nat): (r: Parsed<Cmd<Span>>)
    requires s <= |t|
    ensures r.Ok? ==> Rests(t, s, r.next) && Good(t, r.v)
    decreases |t| - s, 2
  {
    var c := ParseExec(t, s);
    if c.Ok? && At(t, c.next) == '|' then
      var d := ParsePipe(t, SkipSpace(t, c.next + 1));
      if d.Fail? then d else Ok(Pipe(c.v, d.v), d.next)
    else c
  }

  /** Each & puts what came before in the background. */
  function ParseAmps(t: string, s: nat, c: Cmd<Span>): (r: Parsed<Cmd<Span>>)
    requires s <= |t| && !Space(At(t, s)) && Good(t, c)
    ensures r.Ok? && Rests(t, s, r.next) && Good(t, r.v) && At(t, r.next) != '&'
    decreases |t| - s
  {
    if At(t, s) == '&' then ParseAmps(t, SkipSpace(t, s + 1), Back(c)) else Ok(c, s)
  }

  function ParseLine(t: string, s: nat): (r: Parsed<Cmd<Span>>)
    requires s <= |t|
    ensures r.Ok? ==> Rests(t, s, r.next) && Good(t, r.v)
    decreases |t| - s, 3
  {
    var p := ParsePipe(t, s);
    if p.Fail? then p
    else
      var c := ParseAmps(t, p.next, p.v);
      if At(t, c.next) == ';' then
        var d := ParseLine(t, SkipSpace(t, c.next + 1));
        if d.Fail? then d else Ok(List(c.v, d.v), d.next)
      else c
  }

  /** A line in parentheses and the redirections after it. */
  function ParseBlock(t: string, p: nat): (r: Parsed<Cmd<Span>>)
    requires p < |t| && t[p] == '('
    ensures r.Ok? ==> Rests(t, p, r.next) && Good(t, r.v)
    decreases |t| - p, 0
  {
    var c := ParseLine(t, SkipSpace(t, p + 1));
    if c.Fail? then c
    else if At(t, c.next) != ')' then Fail(MissingParen)
    else
      var rs := ParseRedirs(t, SkipSpace(t, c.next + 1), []);
      if rs.Fail? then Fail(rs.why)
      else
        GoodWrap(t, c.v, rs.v);
        Ok(Wrap(c.v, rs.v), rs.next)
  }

  /** The whole text is one line. */
  function Parse(t: string): (r: Parsed<Cmd<Span>>)
    ensures r.Ok? ==> Good(t, r.v)
  {
    var c := ParseLine(t, 0);
    if c.Ok? && c.next != |t| then Fail(Leftovers) else c
  }

  // ----- Space before a token does not matter -----

  lemma SkipNone(t: string, s: nat)
    requires s <= |t| && !Space(At(t, s))
    ensures SkipSpace(t, s) == s
  {
  }

  lemma SkipTwice(t: string, s: nat)
    requires s <= |t|
    ensures SkipSpace(t, SkipSpace(t, s)) == SkipSpace(t, s)
  {
    SkipNone(t, SkipSpace(t, s));
  }

  lemma ItemsSkip(t: string, s: nat, args: seq<Span>, rs: seq<Redirection<Span>>)
    requires s <= |t| && Good(t, Exec(args)) && GoodRedirs(t, rs)
    ensures ParseItems(t, SkipSpace(t, s), args, rs) == ParseItems(t, s, args, rs)
  {
    SkipTwice(t, s);
  }

  lemma RedirsSkip(t: string, s: nat, rs: seq<Redirection<Span>>)
    requires s <= |t| && GoodRedirs(t, rs)
    ensures ParseRedirs(t, SkipSpace(t, s), rs) == ParseRedirs(t, s, rs)
  {
    SkipTwice(t, s);
  }

  lemma ExecSkip(t: string, s: nat)
    requires s <= |t|
    ensures ParseExec(t, SkipSpace(t, s)) == ParseExec(t, s)
  {
    hide ParseBlock, ParseItems, SkipSpace, Good, Space, Rests;
    SkipTwice(t, s);
  }

  lemma PipeSkip(t: string, s: nat)
    requires s <= |t|
    ensures ParsePipe(t, SkipSpace(t, s)) == ParsePipe(t, s)
  {
    hide ParseExec, SkipSpace, Good;
    ExecSkip(t, s);
  }

  lemma LineSkip(t: string, s: nat)
    requires s <= |t|
    ensures ParseLine(t, SkipSpace(t, s)) == ParseLine(t, s)
  {
    hide ParsePipe, SkipSpace, ParseAmps, Good;
    PipeSkip(t, s);
  }

  lemma PipeUnfold(t: string, s: nat)
    requires s <= |t|
    ensures
      var c := ParseExec(t, s);
      ParsePipe(t, s) ==
        if c.Ok? && At(t, c.next) == '|' then
          var d := ParsePipe(t, c.next + 1);
          if d.Fail? then d else Ok(Pipe(c.v, d.v), d.next)
        else c
  {
    hide ParseExec, SkipSpace, Good;
    var c := ParseExec(t, s);
    if c.Ok? && At(t, c.next) == '|' {
      PipeSkip(t, c.next + 1);
    }
  }

  lemma LineUnfold(t: string, s: nat)
    requires s <= |t|
    ensures
      var p := ParsePipe(t, s);
      ParseLine(t, s) ==
        if p.Fail? then p
        else
          var c := ParseAmps(t, p.next, p.v);
          if At(t, c.next) == ';' then
            var d := ParseLine(t, c.next + 1);
            if d.Fail? then d else Ok(List(c.v, d.v), d.next)
          else c
  {
    hide ParsePipe, ParseAmps, SkipSpace, Good;
    var p := ParsePipe(t, s);
    if p.Ok? {
      var c := ParseAmps(t, p.next, p.v);
      if At(t, c.next) == ';' {
        LineSkip(t, c.next + 1);
      }
    }
  }

  /** One redirection, read off a cursor that rests on it. */
  lemma RedirsUnfold(t: string, n: nat, rs: seq<Redirection<Span>>)
    requires n <= |t| && GoodRedirs(t, rs) && !Space(At(t, n))
    ensures
      if At(t, n) == '<' || At(t, n) == '>' then
        var op := Lex(t, n);
        var w := Lex(t, op.next);
        if w.tok != 'a' then ParseRedirs(t, n, rs) == Fail(MissingFile)
        else
          var more := rs + [Redirection(Span(w.q, w.eq), op.tok != '<')];
          GoodRedirs(t, more) && ParseRedirs(t, n, rs) == ParseRedirs(t, w.next, more)
      else ParseRedirs(t, n, rs) == Ok(rs, n)
  {
    SkipNone(t, n);
  }

  /** Items may be read by taking the redirections up to the next word first. */
  lemma {:induction false} ItemsAfterRedirs(t: string, s: nat, args: seq<Span>, rs: seq<Redirection<Span>>)
    requires s <= |t| && Good(t, Exec(args)) && GoodRedirs(t, rs)
    ensures
      var r := ParseRedirs(t, s, rs);
      ParseItems(t, s, args, rs) == if r.Fail? then Fail(r.why) else ParseItems(t, r.next, args, r.v)
    decreases |t| - s
  {
    var p := SkipSpace(t, s);
    if At(t, p) == '<' || At(t, p) == '>' {
      var op := Lex(t, p);
      var w := Lex(t, op.next);
      if w.tok == 'a' {
        ItemsAfterRedirs(t, w.next, args, rs + [Redirection(Span(w.q, w.eq), op.tok != '<')]);
      }
    } else {
      ItemsSkip(t, s, args, rs);
    }
  }
}
