/** Printing shell commands and parsing them back. */
module ShellRoundTrip {
  import opened ShellSyntax

  // ----- Commands with their words spelled out -----

  function Word(t: string, w: Span): string {
    if w.lo <= w.hi <= |t| then t[w.lo..w.hi] else ""
  }

  function Words(t: string, ws: seq<Span>): (r: seq<string>)
    ensures |r| == |ws| && forall i :: 0 <= i < |ws| ==> r[i] == Word(t, ws[i])
  {
    seq(|ws|, i requires 0 <= i < |ws| => Word(t, ws[i]))
  }

  function Files(t: string, rs: seq<Redirection<Span>>): (r: seq<Redirection<string>>)
    ensures |r| == |rs| && forall i :: 0 <= i < |rs| ==> r[i] == Redirection(Word(t, rs[i].file), rs[i].output)
  {
    seq(|rs|, i requires 0 <= i < |rs| => Redirection(Word(t, rs[i].file), rs[i].output))
  }

  /** c with each word as the text it spans. */
  function Text(t: string, c: Cmd<Span>): Cmd<string> {
    match c
    case Exec(argv) => Exec(Words(t, argv))
    case Redir(d, file, output) => Redir(Text(t, d), Word(t, file), output)
    case Pipe(l, r) => Pipe(Text(t, l), Text(t, r))
    case List(l, r) => List(Text(t, l), Text(t, r))
    case Back(d) => Back(Text(t, d))
  }

  lemma {:induction false} TextWrap(t: string, c: Cmd<Span>, rs: seq<Redirection<Span>>)
    ensures Text(t, Wrap(c, rs)) == Wrap(Text(t, c), Files(t, rs))
  {
    if rs != [] {
      TextWrap(t, c, rs[..|rs| - 1]);
      assert Files(t, rs[..|rs| - 1]) == Files(t, rs)[..|rs| - 1];
    }
  }

  // ----- Concrete syntax -----

  /** White space as it may stand before any token. */
  predicate Filler(s: string) {
    forall i :: 0 <= i < |s| ==> s[i] == ' ' || s[i] == '\t' || s[i] == '\r' || s[i] == '\n' || s[i] == 11 as char
  }

  /** A character that words are made of. */
  predicate Letter(c: char) {
    && c != ' ' && c != '\t' && c != '\r' && c != '\n' && c != 11 as char && c != '\0'
    && c != '<' && c != '|' && c != '>' && c != '&' && c != ';' && c != '(' && c != ')'
  }

  predicate LegalWord(w: string) {
    w != "" && forall i :: 0 <= i < |w| ==> Letter(w[i])
  }

  /** An argument or a redirection, with the space before it and before its file. */
  datatype Item =
    | Arg(sp: string, w: string)
    | In(sp: string, gap: string, w: string)
    | Out(sp: string, gap: string, w: string)
    | Append(sp: string, gap: string, w: string)

  datatype Items = None | Then(item: Item, rest: Items)

  /** A line with the space in it: sp before the tree's own operator or parenthesis, close before the
  closing one. */
  datatype Tree =
    | Simple(items: Items)
    | Block(sp: string, body: Tree, close: string, redirs: Items)
    | PipeOf(left: Tree, sp: string, right: Tree)
    | ListOf(left: Tree, sp: string, right: Tree)
    | BackOf(body: Tree, sp: string)

  /** The grammar's levels, from the tightest: command, pipeline, background, list. */
  datatype Level = Command | Pipeline | Background | Line {
    function Rank(): nat {
      match this case Command => 0 case Pipeline => 1 case Background => 2 case Line => 3
    }
  }

  /** Words are words and space is space; an argument right after a word has some before it. */
  predicate Legal(items: Items, glued: bool) {
    items.Then? ==>
      var x := items.item;
      && LegalWord(x.w) && Filler(x.sp) && (if x.Arg? then glued ==> x.sp != "" else Filler(x.gap))
      && Legal(items.rest, true)
  }

  function Args(items: Items): seq<string> {
    if items.None? then []
    else if items.item.Arg? then [items.item.w] + Args(items.rest)
    else Args(items.rest)
  }

  predicate Fits(l: Level, x: Tree)
    decreases x
  {
    match x
    case Simple(items) => Legal(items, false) && |Args(items)| <= 9
    case Block(sp, body, close, redirs) =>
      Filler(sp) && Fits(Line, body) && Filler(close) && Legal(redirs, false) && Args(redirs) == []
    case PipeOf(a, sp, b) => l.Rank() >= 1 && Fits(Command, a) && Filler(sp) && Fits(Pipeline, b)
    case BackOf(a, sp) => l.Rank() >= 2 && Fits(Background, a) && Filler(sp)
    case ListOf(a, sp, b) => l.Rank() >= 3 && Fits(Background, a) && Filler(sp) && Fits(Line, b)
  }

  function Redirs(items: Items): seq<Redirection<string>> {
    if items.None? then []
    else if items.item.Arg? then Redirs(items.rest)
    else [Redirection(items.item.w, !items.item.In?)] + Redirs(items.rest)
  }

  function Operator(x: Item): string {
    match x case Arg(_, _) => "" case In(_, _, _) => "<" case Out(_, _, _) => ">" case Append(_, _, _) => ">>"
  }

  function ShowItem(x: Item): string {
    x.sp + (Operator(x) + ((if x.Arg? then "" else x.gap) + x.w))
  }

  function ShowItems(items: Items): string {
    if items.None? then "" else ShowItem(items.item) + ShowItems(items.rest)
  }

  function Show(x: Tree): string {
    match x
    case Simple(items) => ShowItems(items)
    case Block(sp, body, close, redirs) => sp + ("(" + (Show(body) + (close + (")" + ShowItems(redirs)))))
    case PipeOf(a, sp, b) => Show(a) + (sp + ("|" + Show(b)))
    case ListOf(a, sp, b) => Show(a) + (sp + (";" + Show(b)))
    case BackOf(a, sp) => Show(a) + (sp + ("&" + ""))
  }

  /** The command a tree stands for: redirections wrap the whole simple command, later ones outermost. */
  function Meaning(x: Tree): Cmd<string> {
    match x
    case Simple(items) => Wrap(Exec(Args(items)), Redirs(items))
    case Block(_, body, _, redirs) => Wrap(Meaning(body), Redirs(redirs))
    case PipeOf(a, _, b) => Pipe(Meaning(a), Meaning(b))
    case ListOf(a, _, b) => List(Meaning(a), Meaning(b))
    case BackOf(a, _) => Back(Meaning(a))
  }

  // ----- Tokens in place -----

  lemma LetterIs(c: char)
    ensures Letter(c) <==> WordChar(c) && c != NUL
  {
  }

  /** x stands in t from s up to e. */
  predicate Stands(t: string, s: nat, e: nat, x: string) {
    s <= e <= |t| && t[s..e] == x
  }

  lemma StandsSplit(t: string, s: nat, e: nat, x: string, y: string)
    requires Stands(t, s, e, x + y)
    ensures s + |x| <= e && Stands(t, s, s + |x|, x) && Stands(t, s + |x|, e, y)
  {
    assert t[s..e][..|x|] == t[s..s + |x|] && t[s..e][|x|..] == t[s + |x|..e];
  }

  lemma StandsEmpty(t: string, s: nat, e: nat)
    requires Stands(t, s, e, "")
    ensures s == e
  {
  }

  lemma StandsOne(t: string, s: nat, e: nat, c: char)
    requires Stands(t, s, e, [c])
    ensures s < |t| && e == s + 1 && t[s] == c
  {
    assert t[s..e][0] == t[s];
  }

  lemma StandsWithin(t: string, s: nat, e: nat, x: string)
    requires Stands(t, s, e, x)
    ensures s <= e <= |t| && e == s + |x|
  {
  }

  /** The lexer skips what stands before a token. */
  lemma {:induction false} SkipFiller(t: string, s: nat, m: nat, sp: string)
    requires Stands(t, s, m, sp) && Filler(sp)
    ensures SkipSpace(t, s) == SkipSpace(t, m)
    decreases |sp|
  {
    if sp != "" {
      assert t[s] == t[s..m][0] == sp[0];
      assert t[s + 1..m] == sp[1..];
      SkipFiller(t, s + 1, m, sp[1..]);
    }
  }

  lemma WordStart(t: string, s: nat, e: nat, w: string)
    requires Stands(t, s, e, w) && LegalWord(w)
    ensures s < e && t[s] == w[0] && Letter(t[s]) && SkipSpace(t, s) == s
  {
    assert t[s] == t[s..e][0] == w[0];
    LetterIs(w[0]);
    SkipNone(t, s);
  }

  /** A legal word before a character that cannot extend it is read as one token. */
  lemma LexWord(t: string, s: nat, e: nat, w: string)
    requires Stands(t, s, e, w) && LegalWord(w) && (e == |t| || !WordChar(t[e]))
    ensures Lex(t, s) == Lexeme('a', s, e, SkipSpace(t, e)) && Word(t, Span(s, e)) == w
  {
    forall i | s <= i < e ensures WordChar(t[i]) && t[i] != NUL {
      assert t[i] == t[s..e][i - s];
      LetterIs(t[i]);
    }
    assert WordChar(t[s]);
    SkipNone(t, s);
  }

  /** Nothing can extend a word that ends at e. */
  predicate WordStops(t: string, e: nat) {
    e == |t| || (e < |t| && !WordChar(t[e]))
  }

  lemma SymbolStops(t: string, s: nat)
    requires s < |t| && Symbol(t[s])
    ensures SkipSpace(t, s) == s && WordStops(t, s)
  {
    SkipNone(t, s);
  }

  /** The parts of an item in place: its operator from k to o, its word from f on. */
  lemma PartsStand(t: string, s: nat, m: nat, sp: string, op: string, gap: string, w: string)
      returns (k: nat, o: nat, f: nat)
    requires Stands(t, s, m, sp + (op + (gap + w)))
    ensures s <= k <= o <= f <= m <= |t| && f == m - |w|
    ensures Stands(t, s, k, sp) && Stands(t, k, o, op) && Stands(t, o, f, gap) && Stands(t, f, m, w)
  {
    hide Stands;
    StandsWithin(t, s, m, sp + (op + (gap + w)));
    StandsSplit(t, s, m, sp, op + (gap + w));
    k := s + |sp|;
    StandsSplit(t, k, m, op, gap + w);
    o := k + |op|;
    StandsSplit(t, o, m, gap, w);
    f := o + |gap|;
    StandsWithin(t, f, m, w);
  }

  /** An item is legal by itself. */
  predicate LegalItem(x: Item) {
    LegalWord(x.w) && Filler(x.sp) && (x.Arg? || Filler(x.gap))
  }

  /** An argument in place is read as its word. */
  lemma LexArg(t: string, s: nat, m: nat, x: Item)
    requires Stands(t, s, m, ShowItem(x)) && LegalItem(x) && x.Arg? && WordStops(t, m)
    ensures
      var k := SkipSpace(t, s);
      && k < m <= |t| && k == m - |x.w| && Letter(t[k])
      && Lex(t, k) == Lexeme('a', k, m, SkipSpace(t, m)) && Word(t, Span(k, m)) == x.w
  {
    hide Stands, LegalWord, Filler, Letter, SkipSpace, Lex, Word;
    var k, o, f := PartsStand(t, s, m, x.sp, "", "", x.w);
    StandsEmpty(t, k, o);
    StandsEmpty(t, o, f);
    SkipFiller(t, s, k, x.sp);
    WordStart(t, f, m, x.w);
    LexWord(t, f, m, x.w);
  }

  lemma OperatorStands(t: string, k: nat, o: nat, x: Item)
    requires !x.Arg? && Stands(t, k, o, Operator(x))
    ensures k < |t| && o == k + (if x.Append? then 2 else 1)
    ensures t[k] == (if x.In? then '<' else '>') && (x.Append? ==> k + 1 < |t| && t[k + 1] == '>')
  {
    assert t[k] == t[k..o][0];
    if x.Append? {
      assert t[k + 1] == t[k..o][1];
    }
  }

  lemma NotDoubled(t: string, k: nat, f: nat, m: nat, x: Item)
    requires x.Out? && k + 1 <= f < m <= |t| && Stands(t, k + 1, f, x.gap) && Filler(x.gap)
    requires Stands(t, f, m, x.w) && LegalWord(x.w)
    ensures At(t, k + 1) != '>'
  {
    if x.gap != "" {
      assert t[k + 1] == t[k + 1..f][0] == x.gap[0];
    } else {
      WordStart(t, f, m, x.w);
    }
  }

  /** The operator of a redirection, at k, and what the lexer makes of it. */
  lemma LexOperator(t: string, k: nat, o: nat, f: nat, m: nat, x: Item)
    requires !x.Arg? && k <= o <= f <= m && Stands(t, k, o, Operator(x)) && Stands(t, o, f, x.gap) && Filler(x.gap)
    requires Stands(t, f, m, x.w) && LegalWord(x.w)
    ensures k < |t| && SkipSpace(t, k) == k && t[k] == (if x.In? then '<' else '>')
    ensures Lex(t, k).next == f && (Lex(t, k).tok == '<' <==> x.In?)
  {
    hide Stands, LegalWord, Filler, Letter, SkipSpace;
    OperatorStands(t, k, o, x);
    SymbolStops(t, k);
    SkipFiller(t, o, f, x.gap);
    WordStart(t, f, m, x.w);
    StandsWithin(t, f, m, x.w);
    if x.Out? {
      NotDoubled(t, k, f, m, x);
    }
  }

  lemma LexFile(t: string, f: nat, m: nat, w: string)
    requires Stands(t, f, m, w) && LegalWord(w) && WordStops(t, m)
    ensures m <= |t| && Lex(t, f) == Lexeme('a', f, m, SkipSpace(t, m)) && Word(t, Span(f, m)) == w
  {
    LexWord(t, f, m, w);
  }

  /** A redirection in place is read as its operator and its file. */
  lemma LexRedir(t: string, s: nat, m: nat, x: Item)
    requires Stands(t, s, m, ShowItem(x)) && LegalItem(x) && !x.Arg? && WordStops(t, m)
    ensures
      var k := SkipSpace(t, s);
      var f := m - |x.w|;
      && k < |t| && t[k] == (if x.In? then '<' else '>') && 0 <= f <= m <= |t|
      && Lex(t, k).next == f && (Lex(t, k).tok == '<' <==> x.In?)
      && Lex(t, f) == Lexeme('a', f, m, SkipSpace(t, m)) && Word(t, Span(f, m)) == x.w
  {
    hide Stands, LegalWord, Filler, Letter, SkipSpace, Lex, Word, WordStops, Operator;
    var k, o, f := PartsStand(t, s, m, x.sp, Operator(x), x.gap, x.w);
    SkipFiller(t, s, k, x.sp);
    LexOperator(t, k, o, f, m, x);
    LexFile(t, f, m, x.w);
  }

  function WordAt(m: nat, w: string): Span {
    Span(if |w| <= m then m - |w| else 0, m)
  }

  function RedirAt(m: nat, x: Item): Redirection<Span> {
    Redirection(WordAt(m, x.w), !x.In?)
  }

  lemma WordOfItem(t: string, s: nat, m: nat, x: Item)
    requires Stands(t, s, m, ShowItem(x)) && LegalItem(x)
    ensures Word(t, WordAt(m, x.w)) == x.w
  {
    hide LegalItem;
    var k, o, f := PartsStand(t, s, m, x.sp, Operator(x), if x.Arg? then "" else x.gap, x.w);
  }

  lemma GoodLetters(t: string, w: Span, x: Item)
    requires LegalItem(x) && w.lo <= w.hi <= |t| && Word(t, w) == x.w && WordStops(t, w.hi)
    ensures GoodSpan(t, w)
  {
    hide Filler;
    forall i | w.lo <= i < w.hi ensures WordChar(t[i]) {
      assert t[i] == x.w[i - w.lo];
      LetterIs(t[i]);
    }
  }

  lemma GoodArg(t: string, s: nat, m: nat, x: Item, args: seq<Span>)
    requires Stands(t, s, m, ShowItem(x)) && LegalItem(x) && x.Arg? && WordStops(t, m)
    requires Good(t, Exec(args)) && |args| + 1 < MAXARGS
    ensures Good(t, Exec(args + [WordAt(m, x.w)]))
  {
    hide Stands, ShowItem, LegalItem, LegalWord, Filler, SkipSpace, Lex, GoodSpan;
    LexArg(t, s, m, x);
    GoodLetters(t, WordAt(m, x.w), x);
  }

  lemma ArgStep(t: string, s: nat, m: nat, x: Item, args: seq<Span>, rs: seq<Redirection<Span>>)
    requires Stands(t, s, m, ShowItem(x)) && LegalItem(x) && x.Arg? && WordStops(t, m)
    requires Good(t, Exec(args)) && GoodRedirs(t, rs) && |args| + 1 < MAXARGS
    ensures Good(t, Exec(args + [WordAt(m, x.w)]))
    ensures ParseItems(t, s, args, rs) == ParseItems(t, m, args + [WordAt(m, x.w)], rs)
  {
    hide Stands, ShowItem, LegalItem, LegalWord, Filler, SkipSpace, Lex, GoodRedirs, Good, GoodSpan, WordStops, Word;
    LexArg(t, s, m, x);
    GoodArg(t, s, m, x, args);
    ItemsSkip(t, m, args + [WordAt(m, x.w)], rs);
  }

  lemma GoodRedir(t: string, s: nat, m: nat, x: Item, rs: seq<Redirection<Span>>)
    requires Stands(t, s, m, ShowItem(x)) && LegalItem(x) && !x.Arg? && WordStops(t, m) && GoodRedirs(t, rs)
    ensures GoodRedirs(t, rs + [RedirAt(m, x)])
  {
    hide Stands, ShowItem, LegalItem, LegalWord, Filler, SkipSpace, Lex;
    LexRedir(t, s, m, x);
    WordOfItem(t, s, m, x);
    GoodLetters(t, WordAt(m, x.w), x);
  }

  /** The argument loop and the loop after a block read a redirection alike. */
  lemma RedirStep(t: string, s: nat, m: nat, x: Item, args: seq<Span>, rs: seq<Redirection<Span>>)
    requires Stands(t, s, m, ShowItem(x)) && LegalItem(x) && !x.Arg? && WordStops(t, m)
    requires Good(t, Exec(args)) && GoodRedirs(t, rs)
    ensures GoodRedirs(t, rs + [RedirAt(m, x)])
    ensures ParseItems(t, s, args, rs) == ParseItems(t, m, args, rs + [RedirAt(m, x)])
    ensures ParseRedirs(t, s, rs) == ParseRedirs(t, m, rs + [RedirAt(m, x)])
  {
    hide Stands, ShowItem, LegalItem, LegalWord, Filler, SkipSpace, Lex, GoodRedirs, Good, GoodSpan, WordStops, Word;
    LexRedir(t, s, m, x);
    GoodRedir(t, s, m, x, rs);
    ItemsSkip(t, m, args, rs + [RedirAt(m, x)]);
    RedirsSkip(t, m, rs + [RedirAt(m, x)]);
  }

  /** Where the words of items printed from s on are, after those in ws. */
  function ArgSpans(s: nat, items: Items, ws: seq<Span>): seq<Span>
    decreases items
  {
    if items.None? then ws
    else
      var m := s + |ShowItem(items.item)|;
      ArgSpans(m, items.rest, if items.item.Arg? then ws + [WordAt(m, items.item.w)] else ws)
  }

  function RedirSpans(s: nat, items: Items, rs: seq<Redirection<Span>>): seq<Redirection<Span>>
    decreases items
  {
    if items.None? then rs
    else
      var m := s + |ShowItem(items.item)|;
      RedirSpans(m, items.rest, if items.item.Arg? then rs else rs + [RedirAt(m, items.item)])
  }

  lemma WordsMore(t: string, ws: seq<Span>, w: Span, more: seq<string>)
    ensures Words(t, ws + [w]) + more == Words(t, ws) + ([Word(t, w)] + more)
  {
  }

  lemma FilesMore(t: string, rs: seq<Redirection<Span>>, r: Redirection<Span>, more: seq<Redirection<string>>)
    ensures Files(t, rs + [r]) + more == Files(t, rs) + ([Redirection(Word(t, r.file), r.output)] + more)
  {
  }

  /** An item is always followed by something that ends its word. */
  lemma ItemsStop(t: string, m: nat, e: nat, items: Items)
    requires Stands(t, m, e, ShowItems(items)) && Legal(items, true) && WordStops(t, e)
    ensures WordStops(t, m)
  {
    if items.Then? {
      var x := items.item;
      assert t[m] == t[m..e][0] == ShowItem(x)[0];
    }
  }

  lemma {:induction false} ArgsRead(t: string, s: nat, e: nat, items: Items, ws: seq<Span>, glued: bool)
    requires Stands(t, s, e, ShowItems(items)) && Legal(items, glued) && WordStops(t, e)
    ensures Words(t, ArgSpans(s, items, ws)) == Words(t, ws) + Args(items)
    decreases items
  {
    hide Stands, ShowItem, WordStops, LegalWord, Word, Filler;
    if items.Then? {
      var x := items.item;
      var m := s + |ShowItem(x)|;
      StandsSplit(t, s, e, ShowItem(x), ShowItems(items.rest));
      if x.Arg? {
        WordOfItem(t, s, m, x);
        WordsMore(t, ws, WordAt(m, x.w), Args(items.rest));
        ArgsRead(t, m, e, items.rest, ws + [WordAt(m, x.w)], true);
      } else {
        ArgsRead(t, m, e, items.rest, ws, true);
      }
    }
  }

  lemma {:induction false} RedirsRead(t: string, s: nat, e: nat, items: Items, rs: seq<Redirection<Span>>, glued: bool)
    requires Stands(t, s, e, ShowItems(items)) && Legal(items, glued) && WordStops(t, e)
    ensures Files(t, RedirSpans(s, items, rs)) == Files(t, rs) + Redirs(items)
    decreases items
  {
    hide Stands, ShowItem, WordStops, LegalWord, Lex, SkipSpace, Word, Filler;
    if items.Then? {
      var x := items.item;
      var m := s + |ShowItem(x)|;
      StandsSplit(t, s, e, ShowItem(x), ShowItems(items.rest));
      if x.Arg? {
        RedirsRead(t, m, e, items.rest, rs, true);
      } else {
        WordOfItem(t, s, m, x);
        FilesMore(t, rs, RedirAt(m, x), Redirs(items.rest));
        RedirsRead(t, m, e, items.rest, rs + [RedirAt(m, x)], true);
      }
    }
  }

  /** What the argument loop has recorded after item x, which ends at m. */
  function ArgsWith(m: nat, x: Item, args: seq<Span>): seq<Span> {
    if x.Arg? then args + [WordAt(m, x.w)] else args
  }

  function RedirsWith(m: nat, x: Item, rs: seq<Redirection<Span>>): seq<Redirection<Span>> {
    if x.Arg? then rs else rs + [RedirAt(m, x)]
  }

  /** The state of the argument loop before it reads items. */
  ghost predicate BeforeItems(t: string, items: Items, args: seq<Span>, rs: seq<Redirection<Span>>, glued: bool) {
    Legal(items, glued) && Good(t, Exec(args)) && GoodRedirs(t, rs) && |args| + |Args(items)| <= 9
  }

  /** One turn of the argument loop reads one item. */
  lemma ItemStep(t: string, s: nat, m: nat, items: Items, args: seq<Span>, rs: seq<Redirection<Span>>, glued: bool)
    requires items.Then? && Stands(t, s, m, ShowItem(items.item)) && WordStops(t, m)
    requires BeforeItems(t, items, args, rs, glued)
    ensures var args', rs' := ArgsWith(m, items.item, args), RedirsWith(m, items.item, rs);
      BeforeItems(t, items.rest, args', rs', true) && ParseItems(t, s, args, rs) == ParseItems(t, m, args', rs')
  {
    hide ParseItems, ParseRedirs, Stands, ShowItem, WordStops, LegalWord, Filler, GoodRedirs, Good, Word;
    if items.item.Arg? {
      ArgStep(t, s, m, items.item, args, rs);
    } else {
      RedirStep(t, s, m, items.item, args, rs);
    }
  }

  lemma SpansStep(s: nat, m: nat, items: Items, args: seq<Span>, rs: seq<Redirection<Span>>)
    requires items.Then? && m == s + |ShowItem(items.item)|
    ensures ArgSpans(s, items, args) == ArgSpans(m, items.rest, ArgsWith(m, items.item, args))
    ensures RedirSpans(s, items, rs) == RedirSpans(m, items.rest, RedirsWith(m, items.item, rs))
  {
    hide ShowItem;
  }

  lemma {:induction false} ItemsBack(t: string, s: nat, e: nat, items: Items, args: seq<Span>,
      rs: seq<Redirection<Span>>, glued: bool)
    requires Stands(t, s, e, ShowItems(items)) && WordStops(t, e) && BeforeItems(t, items, args, rs, glued)
    ensures
      var args', rs' := ArgSpans(s, items, args), RedirSpans(s, items, rs);
      Good(t, Exec(args')) && GoodRedirs(t, rs') && ParseItems(t, s, args, rs) == ParseItems(t, e, args', rs')
    decreases items, 1
  {
    hide ParseItems, Stands, WordStops, GoodRedirs, Good;
    if items.None? {
      StandsEmpty(t, s, e);
    } else {
      ItemsBackStep(t, s, e, items, args, rs, glued);
    }
  }

  lemma {:induction false} ItemsBackStep(t: string, s: nat, e: nat, items: Items, args: seq<Span>,
      rs: seq<Redirection<Span>>, glued: bool)
    requires items.Then? && Stands(t, s, e, ShowItems(items)) && WordStops(t, e)
    requires BeforeItems(t, items, args, rs, glued)
    ensures
      var args', rs' := ArgSpans(s, items, args), RedirSpans(s, items, rs);
      Good(t, Exec(args')) && GoodRedirs(t, rs') && ParseItems(t, s, args, rs) == ParseItems(t, e, args', rs')
    decreases items, 0
  {
    hide ParseItems, Stands, ShowItem, WordStops, GoodRedirs, Good, ArgSpans, RedirSpans, ArgsWith, RedirsWith, LegalWord,
      Filler, Args;
    var x := items.item;
    var m := s + |ShowItem(x)|;
    StandsSplit(t, s, e, ShowItem(x), ShowItems(items.rest));
    ItemsStop(t, m, e, items.rest);
    ItemStep(t, s, m, items, args, rs, glued);
    SpansStep(s, m, items, args, rs);
    ItemsBack(t, m, e, items.rest, ArgsWith(m, x, args), RedirsWith(m, x, rs), true);
  }

  lemma {:induction false} RedirsBack(t: string, s: nat, e: nat, items: Items, rs: seq<Redirection<Span>>, glued: bool)
    requires Stands(t, s, e, ShowItems(items)) && Legal(items, glued) && WordStops(t, e) && Args(items) == []
    requires GoodRedirs(t, rs)
    ensures var rs' := RedirSpans(s, items, rs); GoodRedirs(t, rs') && ParseRedirs(t, s, rs) == ParseRedirs(t, e, rs')
    decreases items
  {
    hide ParseRedirs, ParseItems, Stands, ShowItem, WordStops, LegalWord, Filler, GoodRedirs;
    if items.None? {
      StandsEmpty(t, s, e);
    } else {
      var x := items.item;
      var m := s + |ShowItem(x)|;
      StandsSplit(t, s, e, ShowItem(x), ShowItems(items.rest));
      ItemsStop(t, m, e, items.rest);
      RedirStep(t, s, m, x, [], rs);
      RedirsBack(t, m, e, items.rest, rs + [RedirAt(m, x)], true);
    }
  }

  // ----- Levels -----

  predicate Follows(l: Level, c: char) {
    c == ')' || (l.Rank() <= 2 && c == ';') || (l.Rank() <= 1 && c == '&') || (l.Rank() == 0 && c == '|')
  }

  /** What may follow a printed tree of the level: space, and then one of these characters or the end. */
  predicate Closes(l: Level, t: string, e: nat) {
    e <= |t| &&
    var p := SkipSpace(t, e);
    p == |t| || Follows(l, t[p])
  }

  lemma ClosesStops(l: Level, t: string, e: nat)
    requires Closes(l, t, e)
    ensures WordStops(t, e)
  {
  }

  /** The tree before an operator ends where it should. */
  lemma ClosesAt(l: Level, t: string, m: nat, q: nat, sp: string)
    requires Stands(t, m, q, sp) && Filler(sp) && q < |t| && Symbol(t[q])
    requires Follows(l, t[q])
    ensures Closes(l, t, m) && SkipSpace(t, m) == q
  {
    SkipFiller(t, m, q, sp);
    SymbolStops(t, q);
  }

  /** r is the tree x, read up to the end e of its print and the space after it. */
  ghost predicate Reads(r: Parsed<Cmd<Span>>, t: string, e: nat, x: Tree) {
    e <= |t| && r.Ok? && r.next == SkipSpace(t, e) && Text(t, r.v) == Meaning(x)
  }

  lemma ItemsRead(t: string, s: nat, e: nat, items: Items, glued: bool)
    requires Stands(t, s, e, ShowItems(items)) && Legal(items, glued) && WordStops(t, e)
    ensures Words(t, ArgSpans(s, items, [])) == Args(items) && Files(t, RedirSpans(s, items, [])) == Redirs(items)
  {
    ArgsRead(t, s, e, items, [], glued);
    RedirsRead(t, s, e, items, [], glued);
  }

  lemma ExecIsItems(t: string, s: nat)
    requires s <= |t| && At(t, SkipSpace(t, s)) != '('
    ensures ParseExec(t, s) == ParseItems(t, s, [], [])
  {
    ItemsSkip(t, s, [], []);
  }

  lemma ItemsDone(t: string, e: nat, args: seq<Span>, rs: seq<Redirection<Span>>)
    requires Closes(Command, t, e) && Good(t, Exec(args)) && GoodRedirs(t, rs)
    ensures ParseItems(t, e, args, rs) == Ok(Wrap(Exec(args), rs), SkipSpace(t, e))
  {
    SkipTwice(t, e);
  }

  /** A printed simple command does not start with a parenthesis. */
  lemma SimpleStart(t: string, s: nat, e: nat, items: Items)
    requires Stands(t, s, e, ShowItems(items)) && Legal(items, false) && Closes(Command, t, e)
    ensures At(t, SkipSpace(t, s)) != '('
  {
    hide Stands, LegalWord, Filler, SkipSpace, Lex, Word, WordStops, ShowItem;
    StandsWithin(t, s, e, ShowItems(items));
    ClosesStops(Command, t, e);
    if items.Then? {
      var x := items.item;
      var m := s + |ShowItem(x)|;
      StandsSplit(t, s, e, ShowItem(x), ShowItems(items.rest));
      ItemsStop(t, m, e, items.rest);
      if x.Arg? {
        LexArg(t, s, m, x);
      } else {
        LexRedir(t, s, m, x);
      }
    }
  }

  lemma SimpleBack(t: string, s: nat, e: nat, items: Items)
    requires Stands(t, s, e, ShowItems(items)) && Fits(Command, Simple(items)) && Closes(Command, t, e)
    ensures Reads(ParseExec(t, s), t, e, Simple(items))
  {
    hide ParseExec, ParseItems, Stands, SkipSpace, Legal, ShowItems, ArgSpans, RedirSpans, Args, Redirs, Words, Files;
    StandsWithin(t, s, e, ShowItems(items));
    ClosesStops(Command, t, e);
    SimpleStart(t, s, e, items);
    ExecIsItems(t, s);
    ItemsBack(t, s, e, items, [], [], false);
    ItemsRead(t, s, e, items, false);
    ItemsDone(t, e, ArgSpans(s, items, []), RedirSpans(s, items, []));
    TextWrap(t, Exec(ArgSpans(s, items, [])), RedirSpans(s, items, []));
  }

  // ----- Blocks -----

  lemma ExecIsBlock(t: string, s: nat, k: nat, q: nat)
    requires s <= k < q < |t| && SkipSpace(t, s) == k && t[k] == '(' && t[q] == ')'
    requires var c := ParseLine(t, k + 1); c.Ok? && c.next == q
    ensures
      var c := ParseLine(t, k + 1);
      var rs := ParseRedirs(t, q + 1, []);
      ParseExec(t, s) == if rs.Fail? then Fail(rs.why) else Ok(Wrap(c.v, rs.v), rs.next)
  {
    hide ParseLine, ParseItems, ParseRedirs, SkipSpace, Wrap, Good, GoodRedirs;
    LineSkip(t, k + 1);
    RedirsSkip(t, q + 1, []);
  }

  lemma RedirsDone(t: string, e: nat, rs: seq<Redirection<Span>>)
    requires Closes(Command, t, e) && GoodRedirs(t, rs)
    ensures ParseRedirs(t, e, rs) == Ok(rs, SkipSpace(t, e))
  {
    SkipTwice(t, e);
  }

  lemma BlockBack(t: string, s: nat, k: nat, q: nat, e: nat, x: Tree)
    requires x.Block? && Fits(Command, x) && Closes(Command, t, e)
    requires s <= k < q < |t| && SkipSpace(t, s) == k && t[k] == '(' && t[q] == ')'
    requires var c := ParseLine(t, k + 1); c.Ok? && c.next == q && Text(t, c.v) == Meaning(x.body)
    requires Stands(t, q + 1, e, ShowItems(x.redirs))
    ensures Reads(ParseExec(t, s), t, e, x)
  {
    hide ParseExec, ParseLine, ParseRedirs, Stands, ShowItems, RedirSpans, Wrap, Files, Good, Legal, Args, SkipSpace;
    StandsWithin(t, q + 1, e, ShowItems(x.redirs));
    ClosesStops(Command, t, e);
    var rs := RedirSpans(q + 1, x.redirs, []);
    ExecIsBlock(t, s, k, q);
    RedirsBack(t, q + 1, e, x.redirs, [], false);
    RedirsDone(t, e, rs);
    ItemsRead(t, q + 1, e, x.redirs, false);
    TextWrap(t, ParseLine(t, k + 1).v, rs);
  }

  // ----- The theorem -----

  lemma BlockFillers(x: Tree)
    requires x.Block? && Fits(Command, x)
    ensures Filler(x.sp) && Filler(x.close) && Fits(Line, x.body) && Legal(x.redirs, false)
  {
  }

  lemma BlockStands(t: string, s: nat, e: nat, x: Tree) returns (k: nat, m: nat, q: nat)
    requires x.Block? && Stands(t, s, e, Show(x)) && Fits(Command, x)
    ensures s <= k < m <= q < |t| && SkipSpace(t, s) == k && t[k] == '(' && t[q] == ')'
    ensures Stands(t, k + 1, m, Show(x.body)) && Stands(t, m, q, x.close) && Stands(t, q + 1, e, ShowItems(x.redirs))
  {
    hide ShowItems, Fits, Filler, Legal, Args;
    var body, tail := Show(x.body), ShowItems(x.redirs);
    StandsSplit(t, s, e, x.sp, "(" + (body + (x.close + (")" + tail))));
    k := s + |x.sp|;
    StandsSplit(t, k, e, "(", body + (x.close + (")" + tail)));
    StandsOne(t, k, k + 1, '(');
    StandsSplit(t, k + 1, e, body, x.close + (")" + tail));
    m := k + 1 + |body|;
    StandsSplit(t, m, e, x.close, ")" + tail);
    q := m + |x.close|;
    StandsSplit(t, q, e, ")", tail);
    StandsOne(t, q, q + 1, ')');
    BlockFillers(x);
    SkipFiller(t, s, k, x.sp);
    SymbolStops(t, k);
  }

  /** A tree, its operator and what follows, in place. */
  lemma JoinStands(t: string, s: nat, e: nat, x: string, sp: string, c: char, y: string) returns (m: nat, q: nat)
    requires Stands(t, s, e, x + (sp + ([c] + y)))
    ensures s <= m <= q < |t| && t[q] == c && Stands(t, s, m, x) && Stands(t, m, q, sp) && Stands(t, q + 1, e, y)
  {
    StandsSplit(t, s, e, x, sp + ([c] + y));
    m := s + |x|;
    StandsSplit(t, m, e, sp, [c] + y);
    q := m + |sp|;
    StandsSplit(t, q, e, [c], y);
    StandsOne(t, q, q + 1, c);
  }

  /** What a pipeline and its &s read as. */
  ghost predicate ReadsAmps(t: string, s: nat, e: nat, x: Tree, c: Cmd<Span>) {
    && s <= |t| && e <= |t| && Good(t, c) && Text(t, c) == Meaning(x)
    && var p := ParsePipe(t, s); p.Ok? && ParseAmps(t, p.next, p.v) == ParseAmps(t, SkipSpace(t, e), c)
  }

  lemma LineStep(t: string, s: nat, m: nat, q: nat, e: nat, x: Tree, c: Cmd<Span>)
    requires x.ListOf? && q < |t| && t[q] == ';' && m <= q && SkipSpace(t, m) == q && ReadsAmps(t, s, m, x.left, c)
    requires Reads(ParseLine(t, q + 1), t, e, x.right)
    ensures Reads(ParseLine(t, s), t, e, x)
  {
    hide ParsePipe, ParseLine, Good, SkipSpace;
    LineUnfold(t, s);
  }

  lemma LineNone(t: string, s: nat, e: nat, x: Tree, c: Cmd<Span>)
    requires ReadsAmps(t, s, e, x, c) && Closes(Line, t, e)
    ensures Reads(ParseLine(t, s), t, e, x)
  {
    hide ParsePipe, ParseLine, Good, Meaning, SkipSpace;
    LineUnfold(t, s);
  }

  lemma PipeStep(t: string, s: nat, m: nat, q: nat, e: nat, x: Tree)
    requires x.PipeOf? && s <= |t| && q < |t| && t[q] == '|' && m <= q && SkipSpace(t, m) == q
    requires Reads(ParseExec(t, s), t, m, x.left) && Reads(ParsePipe(t, q + 1), t, e, x.right)
    ensures Reads(ParsePipe(t, s), t, e, x)
  {
    hide ParseExec, ParsePipe, Good, SkipSpace;
    PipeUnfold(t, s);
  }

  lemma PipeNone(t: string, s: nat, e: nat, x: Tree)
    requires s <= |t| && Reads(ParseExec(t, s), t, e, x) && Closes(Pipeline, t, e)
    ensures Reads(ParsePipe(t, s), t, e, x)
  {
    hide ParseExec, ParsePipe, Good, Meaning, SkipSpace;
    PipeUnfold(t, s);
  }

  lemma ClosesLower(t: string, e: nat)
    ensures Closes(Pipeline, t, e) ==> Closes(Command, t, e)
    ensures Closes(Line, t, e) ==> Closes(Pipeline, t, e)
  {
    hide SkipSpace;
  }

  lemma AmpsStep(t: string, s: nat, m: nat, q: nat, e: nat, x: Tree, d: Cmd<Span>)
    requires x.BackOf? && q < |t| && t[q] == '&' && m <= q && SkipSpace(t, m) == q && e == q + 1
    requires ReadsAmps(t, s, m, x.body, d)
    ensures ReadsAmps(t, s, e, x, Back(d))
  {
    hide ParsePipe, SkipSpace;
  }

  lemma AmpsNone(t: string, s: nat, e: nat, x: Tree) returns (c: Cmd<Span>)
    requires s <= |t| && Reads(ParsePipe(t, s), t, e, x)
    ensures ReadsAmps(t, s, e, x, c)
  {
    hide ParsePipe, ParseAmps, Meaning, SkipSpace;
    c := ParsePipe(t, s).v;
  }

  /** A pipeline followed by its &s. */
  lemma {:induction false} AmpsBack(t: string, s: nat, e: nat, x: Tree) returns (c: Cmd<Span>)
    requires Stands(t, s, e, Show(x)) && Fits(Background, x) && Closes(Pipeline, t, e)
    ensures ReadsAmps(t, s, e, x, c)
    decreases x, 2
  {
    hide ParsePipe, Stands, Good, Meaning, Reads, ReadsAmps, Legal, Args, Filler, SkipSpace;
    StandsWithin(t, s, e, Show(x));
    if x.BackOf? {
      var m, q := JoinStands(t, s, e, Show(x.body), x.sp, '&', "");
      StandsEmpty(t, q + 1, e);
      ClosesAt(Pipeline, t, m, q, x.sp);
      var d := AmpsBack(t, s, m, x.body);
      c := Back(d);
      AmpsStep(t, s, m, q, e, x, d);
    } else {
      PipeBack(t, s, e, x);
      c := AmpsNone(t, s, e, x);
    }
  }

  lemma {:induction false} LineBack(t: string, s: nat, e: nat, x: Tree)
    requires Stands(t, s, e, Show(x)) && Fits(Line, x) && Closes(Line, t, e)
    ensures Reads(ParseLine(t, s), t, e, x)
    decreases x, 3
  {
    hide ParsePipe, ParseLine, Stands, Good, Meaning, Reads, ReadsAmps, Legal, Args, Filler, SkipSpace;
    StandsWithin(t, s, e, Show(x));
    if x.ListOf? {
      var m, q := JoinStands(t, s, e, Show(x.left), x.sp, ';', Show(x.right));
      ClosesAt(Pipeline, t, m, q, x.sp);
      var c := AmpsBack(t, s, m, x.left);
      LineBack(t, q + 1, e, x.right);
      LineStep(t, s, m, q, e, x, c);
    } else {
      ClosesLower(t, e);
      var c := AmpsBack(t, s, e, x);
      LineNone(t, s, e, x, c);
    }
  }

  lemma {:induction false} ExecBack(t: string, s: nat, e: nat, x: Tree)
    requires Stands(t, s, e, Show(x)) && Fits(Command, x) && Closes(Command, t, e)
    ensures Reads(ParseExec(t, s), t, e, x)
    decreases x, 0
  {
    hide ParseExec, ParseLine, ShowItems, Legal, Args, Meaning, Filler, SkipSpace, Stands;
    match x
    case Simple(items) =>
      SimpleBack(t, s, e, items);
    case Block(sp, body, close, redirs) =>
      var k, m, q := BlockStands(t, s, e, x);
      ClosesAt(Line, t, m, q, close);
      LineBack(t, k + 1, m, body);
      BlockBack(t, s, k, q, e, x);
  }

  lemma {:induction false} PipeBack(t: string, s: nat, e: nat, x: Tree)
    requires Stands(t, s, e, Show(x)) && Fits(Pipeline, x) && Closes(Pipeline, t, e)
    ensures Reads(ParsePipe(t, s), t, e, x)
    decreases x, 1
  {
    hide ParseExec, ParsePipe, Stands, Good, Meaning, Reads, Legal, Args, Filler, SkipSpace;
    StandsWithin(t, s, e, Show(x));
    if x.PipeOf? {
      var m, q := JoinStands(t, s, e, Show(x.left), x.sp, '|', Show(x.right));
      ClosesAt(Command, t, m, q, x.sp);
      ExecBack(t, s, m, x.left);
      PipeBack(t, q + 1, e, x.right);
      PipeStep(t, s, m, q, e, x);
    } else {
      ClosesLower(t, e);
      ExecBack(t, s, e, x);
      PipeNone(t, s, e, x);
    }
  }

  /** Parsing a printed line, with any white space before its tokens and at its end, gives the command it
  stands for. */
  lemma RoundTrip(x: Tree, tail: string)
    requires Fits(Line, x) && Filler(tail)
    ensures var t := Show(x) + tail; Parse(t).Ok? && Text(t, Parse(t).v) == Meaning(x)
  {
    hide ParseLine, Show, Fits;
    var t, e := Show(x) + tail, |Show(x)|;
    assert t[0..e] == Show(x) && t[e..|t|] == tail;
    SkipFiller(t, e, |t|, tail);
    LineBack(t, 0, e, x);
  }

  /** A line as it is typed: words with a space between them and a newline. */
  lemma TypedLine(w: string, v: string)
    requires LegalWord(w) && LegalWord(v)
    ensures var t := w + " " + v + "\n"; Parse(t).Ok? && Text(t, Parse(t).v) == Exec([w, v])
  {
    var second := Then(Arg(" ", v), None);
    var x := Simple(Then(Arg("", w), second));
    assert Legal(None, true) && Legal(second, true) && Legal(x.items, false);
    assert second.rest == None && x.items.rest == second;
    assert Args(second) == [v] + Args(None) && Args(x.items) == [w] + Args(second);
    assert Redirs(second) == Redirs(None) && Redirs(x.items) == Redirs(second);
    assert ShowItems(second) == " " + v + ShowItems(None) && ShowItems(x.items) == w + ShowItems(second);
    assert Show(x) == w + " " + v;
    RoundTrip(x, "\n");
  }

  // ----- Printing any command -----

  /** At most 9 arguments, and words the lexer reads as words. */
  predicate LegalCmd(c: Cmd<string>) {
    match c
    case Exec(argv) => |argv| <= 9 && forall i :: 0 <= i < |argv| ==> LegalWord(argv[i])
    case Redir(d, file, _) => LegalCmd(d) && LegalWord(file)
    case Pipe(l, r) => LegalCmd(l) && LegalCmd(r)
    case List(l, r) => LegalCmd(l) && LegalCmd(r)
    case Back(d) => LegalCmd(d)
  }

  function ArgItems(ws: seq<string>): Items {
    if ws == [] then None else Then(Arg(" ", ws[0]), ArgItems(ws[1..]))
  }

  function RedirItem(file: string, output: bool): Items {
    Then(if output then Out("", "", file) else In("", "", file), None)
  }

  function Paren(x: Tree): Tree {
    Block("", x, "", None)
  }

  /** The tree of c with every operand in parentheses. */
  function Full(c: Cmd<string>): Tree {
    match c
    case Exec(argv) => Simple(ArgItems(argv))
    case Redir(d, file, output) => Block("", Full(d), "", RedirItem(file, output))
    case Pipe(l, r) => PipeOf(Paren(Full(l)), "", Paren(Full(r)))
    case List(l, r) => ListOf(Paren(Full(l)), "", Paren(Full(r)))
    case Back(d) => BackOf(Paren(Full(d)), "")
  }

  lemma {:induction false} ArgItemsAre(ws: seq<string>, glued: bool)
    requires forall i :: 0 <= i < |ws| ==> LegalWord(ws[i])
    ensures Legal(ArgItems(ws), glued) && Args(ArgItems(ws)) == ws && Redirs(ArgItems(ws)) == []
  {
    if ws != [] {
      ArgItemsAre(ws[1..], true);
    }
  }

  lemma WrapLast(c: Cmd<string>, rs: seq<Redirection<string>>, r: Redirection<string>)
    ensures Wrap(c, rs + [r]) == Redir(Wrap(c, rs), r.file, r.output)
  {
    assert (rs + [r])[..|rs|] == rs;
  }

  lemma RedirItemIs(file: string, output: bool)
    requires LegalWord(file)
    ensures var item := RedirItem(file, output);
      Legal(item, false) && Args(item) == [] && Redirs(item) == [Redirection(file, output)]
  {
    hide LegalWord;
    var item := RedirItem(file, output);
    assert item.rest == None && Legal(None, true);
    assert Args(item) == Args(None) && Redirs(item) == [Redirection(file, output)] + Redirs(None);
  }

  lemma ParenRedir(x: Tree, file: string, output: bool)
    requires Fits(Line, x) && LegalWord(file)
    ensures var y := Block("", x, "", RedirItem(file, output));
      Fits(Line, y) && Fits(Command, y) && Meaning(y) == Redir(Meaning(x), file, output)
  {
    hide LegalWord, RedirItem, Legal;
    RedirItemIs(file, output);
    WrapLast(Meaning(x), [], Redirection(file, output));
    assert [] + [Redirection(file, output)] == [Redirection(file, output)];
  }

  lemma {:induction false} FullIs(c: Cmd<string>)
    requires LegalCmd(c)
    ensures Fits(Line, Full(c)) && Meaning(Full(c)) == c
  {
    hide LegalWord, RedirItem, ArgItems;
    match c
    case Exec(argv) =>
      ArgItemsAre(argv, false);
    case Redir(d, file, output) =>
      FullIs(d);
      ParenRedir(Full(d), file, output);
    case Pipe(l, r) =>
      FullIs(l);
      FullIs(r);
    case List(l, r) =>
      FullIs(l);
      FullIs(r);
    case Back(d) =>
      FullIs(d);
  }

  /** Every command with legal words and at most 9 arguments parses back from its fully parenthesised
  print, with any white space at the end. */
  lemma FullRoundTrip(c: Cmd<string>, tail: string)
    requires LegalCmd(c) && Filler(tail)
    ensures var t := Show(Full(c)) + tail; Parse(t).Ok? && Text(t, Parse(t).v) == c
  {
    FullIs(c);
    RoundTrip(Full(c), tail);
  }

  /** x followed by one more redirection. */
  function AddRedir(items: Items, file: string, output: bool): Items {
    if items.None? then RedirItem(file, output) else Then(items.item, AddRedir(items.rest, file, output))
  }

  lemma {:induction false} AddRedirIs(items: Items, file: string, output: bool, glued: bool)
    requires Legal(items, glued) && LegalWord(file)
    ensures var more := AddRedir(items, file, output);
      Legal(more, glued) && Args(more) == Args(items) && Redirs(more) == Redirs(items) + [Redirection(file, output)]
  {
    if items.Then? {
      AddRedirIs(items.rest, file, output, true);
    }
  }

  function Fit(l: Level, x: Tree): Tree {
    if Fits(l, x) then x else Paren(x)
  }

  /** The tree of c with parentheses only where the grammar needs them. */
  function Plain(c: Cmd<string>): Tree {
    match c
    case Exec(argv) => Simple(ArgItems(argv))
    case Redir(d, file, output) =>
      (match Plain(d)
       case Simple(items) => Simple(AddRedir(items, file, output))
       case Block(sp, body, close, redirs) => Block(sp, body, close, AddRedir(redirs, file, output))
       case x => Block("", x, "", RedirItem(file, output)))
    case Pipe(l, r) => PipeOf(Fit(Command, Plain(l)), "", Fit(Pipeline, Plain(r)))
    case List(l, r) => ListOf(Fit(Background, Plain(l)), "", Plain(r))
    case Back(d) => BackOf(Fit(Background, Plain(d)), "")
  }

  lemma SimpleRedir(items: Items, file: string, output: bool)
    requires Fits(Line, Simple(items)) && LegalWord(file)
    ensures var y := Simple(AddRedir(items, file, output));
      Fits(Line, y) && Meaning(y) == Redir(Meaning(Simple(items)), file, output)
  {
    hide LegalWord, Wrap;
    AddRedirIs(items, file, output, false);
    WrapLast(Exec(Args(items)), Redirs(items), Redirection(file, output));
  }

  lemma BlockRedir(sp: string, body: Tree, close: string, redirs: Items, file: string, output: bool)
    requires Fits(Line, Block(sp, body, close, redirs)) && LegalWord(file)
    ensures var y := Block(sp, body, close, AddRedir(redirs, file, output));
      Fits(Line, y) && Meaning(y) == Redir(Wrap(Meaning(body), Redirs(redirs)), file, output)
  {
    hide LegalWord, Wrap;
    AddRedirIs(redirs, file, output, false);
    WrapLast(Meaning(body), Redirs(redirs), Redirection(file, output));
  }

  lemma PlainRedir(x: Tree, file: string, output: bool)
    requires Fits(Line, x) && LegalWord(file)
    ensures
      var y := match x
        case Simple(items) => Simple(AddRedir(items, file, output))
        case Block(sp, body, close, redirs) => Block(sp, body, close, AddRedir(redirs, file, output))
        case _ => Block("", x, "", RedirItem(file, output));
      Fits(Line, y) && Meaning(y) == Redir(Meaning(x), file, output)
  {
    match x
    case Simple(items) =>
      SimpleRedir(items, file, output);
    case Block(sp, body, close, redirs) =>
      BlockRedir(sp, body, close, redirs, file, output);
    case _ =>
      ParenRedir(x, file, output);
  }

  lemma {:induction false} PlainIs(c: Cmd<string>)
    requires LegalCmd(c)
    ensures Fits(Line, Plain(c)) && Meaning(Plain(c)) == c
  {
    match c
    case Exec(argv) =>
      ArgItemsAre(argv, false);
    case Redir(d, file, output) =>
      PlainIs(d);
      PlainRedir(Plain(d), file, output);
    case Pipe(l, r) =>
      PlainIs(l);
      PlainIs(r);
    case List(l, r) =>
      PlainIs(l);
      PlainIs(r);
    case Back(d) =>
      PlainIs(d);
  }

  /** It also parses back when printed with only the parentheses that | over & over ; and the
  right-nesting of | and ; call for. */
  lemma PlainRoundTrip(c: Cmd<string>, tail: string)
    requires LegalCmd(c) && Filler(tail)
    ensures var t := Show(Plain(c)) + tail; Parse(t).Ok? && Text(t, Parse(t).v) == c
  {
    PlainIs(c);
    RoundTrip(Plain(c), tail);
  }

  lemma GoodWord(t: string, w: Span)
    requires NUL !in t && GoodSpan(t, w)
    ensures LegalWord(Word(t, w))
  {
    forall i | 0 <= i < w.hi - w.lo ensures Letter(Word(t, w)[i]) {
      LetterIs(t[w.lo + i]);
    }
  }

  lemma {:induction false} GoodIsLegal(t: string, c: Cmd<Span>)
    requires NUL !in t && Good(t, c)
    ensures LegalCmd(Text(t, c))
  {
    match c
    case Exec(argv) =>
      forall i | 0 <= i < |argv| ensures LegalWord(Words(t, argv)[i]) {
        GoodWord(t, argv[i]);
      }
    case Redir(d, file, output) =>
      GoodWord(t, file);
      GoodIsLegal(t, d);
    case Pipe(l, r) =>
      GoodIsLegal(t, l);
      GoodIsLegal(t, r);
    case List(l, r) =>
      GoodIsLegal(t, l);
      GoodIsLegal(t, r);
    case Back(d) =>
      GoodIsLegal(t, d);
  }

  /** Whatever the parser accepts is such a command, so printing it and parsing again loses nothing. */
  lemma Reparse(t: string)
    requires NUL !in t && Parse(t).Ok?
    ensures var c := Text(t, Parse(t).v);
      var u := Show(Full(c));
      LegalCmd(c) && Parse(u).Ok? && Text(u, Parse(u).v) == c
  {
    GoodIsLegal(t, Parse(t).v);
    FullRoundTrip(Text(t, Parse(t).v), "");
    assert Show(Full(Text(t, Parse(t).v))) + "" == Show(Full(Text(t, Parse(t).v)));
  }
}
