/** The regular expression matcher of grep against the language its patterns describe. */
module Grep {
  /** One character, or any number of it; the character '.' stands for any. */
  datatype Item = One(c: char) | Star(c: char)

  /** A sequence of items, with or without a final $. */
  datatype Pattern = Done(atEnd: bool) | Concat(item: Item, rest: Pattern)

  // ----- The language of a pattern -----

  predicate Fits(c: char, x: char) {
    c == '.' || c == x
  }

  /** w is one of the strings the item describes. */
  predicate InItem(item: Item, w: string) {
    match item
    case One(c) => |w| == 1 && Fits(c, w[0])
    case Star(c) => forall i :: 0 <= i < |w| ==> Fits(c, w[i])
  }

  /** The first k characters of w are a string of the item. */
  predicate Front(item: Item, w: string, k: int) {
    0 <= k <= |w| && InItem(item, w[..k])
  }

  /** w is a string of the first item followed by one of the rest. */
  ghost predicate InPattern(p: Pattern, w: string) {
    match p
    case Done(_) => w == ""
    case Concat(item, rest) => exists k {:trigger Front(item, w, k)} :: Front(item, w, k) && InPattern(rest, w[k..])
  }

  predicate AtEnd(p: Pattern) {
    match p
    case Done(e) => e
    case Concat(_, rest) => AtEnd(rest)
  }

  /** Some prefix of the text, or all of it under a final $, is in the language. */
  ghost predicate PrefixMatches(p: Pattern, text: string) {
    exists j :: 0 <= j <= |text| && InPattern(p, text[..j]) && (AtEnd(p) ==> j == |text|)
  }

  /** The pattern a regular expression denotes, leaving aside a leading ^. */
  function PatternOf(re: string): Pattern {
    if re == "" then Done(false)
    else if |re| > 1 && re[1] == '*' then Concat(Star(re[0]), PatternOf(re[2..]))
    else if re == "$" then Done(true)
    else Concat(One(re[0]), PatternOf(re[1..]))
  }

  /** What a whole regular expression means: under a leading ^ the match starts where the text does,
  otherwise anywhere. */
  ghost predicate Matches(re: string, text: string) {
    if re != "" && re[0] == '^' then PrefixMatches(PatternOf(re[1..]), text)
    else exists i :: 0 <= i <= |text| && PrefixMatches(PatternOf(re), text[i..])
  }

  // ----- Which pattern a string denotes -----

  /** A pattern as it is written. */
  function Show(p: Pattern): string {
    match p
    case Done(e) => if e then "$" else ""
    case Concat(One(c), rest) => [c] + Show(rest)
    case Concat(Star(c), rest) => [c, '*'] + Show(rest)
  }

  /** Written down, the pattern cannot be taken for another: no single character is followed by an item for
  the character *, and a pattern does not end with the single character $. */
  predicate Plain(p: Pattern) {
    match p
    case Done(_) => true
    case Concat(One(c), rest) => !(rest.Concat? && rest.item.c == '*') && !(c == '$' && rest == Done(false)) && Plain(rest)
    case Concat(Star(_), rest) => Plain(rest)
  }

  lemma ShowStart(p: Pattern)
    ensures Show(p) != "" && Show(p)[0] == '*' <==> p.Concat? && p.item.c == '*'
    ensures Show(p) == "" <==> p == Done(false)
  {
  }

  /** Every string is the print of the pattern it denotes. */
  lemma {:induction false} ShowPatternOf(re: string)
    ensures Show(PatternOf(re)) == re
    decreases |re|
  {
    if re != "" {
      if |re| > 1 && re[1] == '*' {
        ShowPatternOf(re[2..]);
        assert re == [re[0], '*'] + re[2..];
      } else if re != "$" {
        ShowPatternOf(re[1..]);
        assert re == [re[0]] + re[1..];
      }
    }
  }

  /** A pattern is what its print denotes exactly if it is plain. */
  lemma {:induction false} PatternOfShow(p: Pattern)
    ensures PatternOf(Show(p)) == p <==> Plain(p)
    decreases p
  {
    match p
    case Done(e) =>
    case Concat(Star(c), rest) =>
      PatternOfShow(rest);
      assert Show(p)[2..] == Show(rest);
    case Concat(One(c), rest) =>
      PatternOfShow(rest);
      ShowStart(rest);
      assert Show(p)[1..] == Show(rest) && Show(p)[0] == c;
  }

  // ----- Taking the first item off -----

  /** The text splits after k characters into a string of the item and a match of the rest. */
  ghost predicate SplitsAt(item: Item, rest: Pattern, text: string, k: int) {
    Front(item, text, k) && PrefixMatches(rest, text[k..])
  }

  lemma MatchSplits(item: Item, rest: Pattern, text: string)
    requires PrefixMatches(Concat(item, rest), text)
    ensures exists k :: SplitsAt(item, rest, text, k)
  {
    var p := Concat(item, rest);
    var j :| 0 <= j <= |text| && InPattern(p, text[..j]) && (AtEnd(p) ==> j == |text|);
    var w := text[..j];
    var k :| Front(item, w, k) && InPattern(rest, w[k..]);
    assert w[..k] == text[..k] && w[k..] == text[k..][..j - k];
    assert SplitsAt(item, rest, text, k);
  }

  lemma SplitMatches(item: Item, rest: Pattern, text: string, k: int)
    requires SplitsAt(item, rest, text, k)
    ensures PrefixMatches(Concat(item, rest), text)
  {
    var u := text[k..];
    var i :| 0 <= i <= |u| && InPattern(rest, u[..i]) && (AtEnd(rest) ==> i == |u|);
    var w := text[..k + i];
    assert w[..k] == text[..k] && w[k..] == u[..i];
    assert Front(item, w, k);
  }

  lemma StarMatches(c: char, rest: Pattern, text: string)
    ensures PrefixMatches(Concat(Star(c), rest), text) <==> exists k :: SplitsAt(Star(c), rest, text, k)
  {
    if PrefixMatches(Concat(Star(c), rest), text) {
      MatchSplits(Star(c), rest, text);
    }
    if k :| SplitsAt(Star(c), rest, text, k) {
      SplitMatches(Star(c), rest, text, k);
    }
  }

  lemma OneMatches(c: char, rest: Pattern, text: string)
    ensures PrefixMatches(Concat(One(c), rest), text) <==>
      text != "" && Fits(c, text[0]) && PrefixMatches(rest, text[1..])
  {
    if PrefixMatches(Concat(One(c), rest), text) {
      MatchSplits(One(c), rest, text);
    }
    if text != "" && Fits(c, text[0]) && PrefixMatches(rest, text[1..]) {
      SplitMatches(One(c), rest, text, 1);
    }
  }

  lemma DoneMatches(e: bool, text: string)
    ensures PrefixMatches(Done(e), text) <==> !e || text == ""
  {
    if !e || text == "" {
      assert text[..0] == "" && InPattern(Done(e), text[..0]);
    }
  }

  // ----- The same for regular expressions as strings -----

  /** Without a leading ^ a match may start anywhere. */
  lemma AnywhereMatches(re: string, text: string)
    requires re == "" || re[0] != '^'
    ensures Matches(re, text) <==> exists i :: 0 <= i <= |text| && Matches("^" + re, text[i..])
  {
    assert ("^" + re)[1..] == re;
  }

  lemma AnchoredIs(re: string, text: string)
    ensures Matches("^" + re, text) <==> PrefixMatches(PatternOf(re), text)
  {
    assert ("^" + re)[1..] == re;
  }

  /** text[i..k] is made of the character c, or of any if that is a dot. */
  predicate AllOf(c: char, text: string, i: nat, k: nat) {
    i <= k <= |text| && forall j :: i <= j < k ==> c == '.' || text[j] == c
  }

  /** c*re at the start of the text: some of it is c, and re matches where that ends. */
  lemma StarMeans(c: char, re: string, text: string)
    ensures Matches("^" + ([c, '*'] + re), text) <==> exists k: nat :: AllOf(c, text, 0, k) && Matches("^" + re, text[k..])
  {
    var whole, rest := [c, '*'] + re, PatternOf(re);
    assert whole[2..] == re;
    AnchoredIs(whole, text);
    StarMatches(c, rest, text);
    forall k: nat ensures SplitsAt(Star(c), rest, text, k) <==> AllOf(c, text, 0, k) && Matches("^" + re, text[k..]) {
      if k <= |text| {
        AnchoredIs(re, text[k..]);
        assert forall j :: 0 <= j < k ==> text[..k][j] == text[j];
      }
    }
  }

  /** c*re anywhere: some part of the text is c, and re matches where that ends. */
  lemma StarMeansAnywhere(c: char, re: string, text: string)
    requires c != '^'
    ensures Matches([c, '*'] + re, text)
      <==> exists i: nat, k: nat :: AllOf(c, text, i, k) && Matches("^" + re, text[k..])
  {
    var whole := [c, '*'] + re;
    AnywhereMatches(whole, text);
    if Matches(whole, text) {
      var i :| 0 <= i <= |text| && Matches("^" + whole, text[i..]);
      StarMeans(c, re, text[i..]);
      var k: nat :| AllOf(c, text[i..], 0, k) && Matches("^" + re, text[i..][k..]);
      assert text[i..][k..] == text[i + k..];
      assert AllOf(c, text, i, i + k) by {
        assert forall j :: i <= j < i + k ==> text[j] == text[i..][j - i];
      }
    }
    if i: nat, k: nat :| AllOf(c, text, i, k) && Matches("^" + re, text[k..]) {
      assert text[i..][k - i..] == text[k..];
      assert AllOf(c, text[i..], 0, k - i);
      StarMeans(c, re, text[i..]);
    }
  }

  /** A single character, that is one not followed by a star and not a final $, matches itself, or any if it
  is a dot. */
  lemma CharMeans(c: char, re: string, text: string)
    requires (re != "" ==> re[0] != '*') && !(c == '$' && re == "")
    ensures Matches("^" + ([c] + re), text)
      <==> text != "" && (c == '.' || text[0] == c) && Matches("^" + re, text[1..])
  {
    var whole := [c] + re;
    assert whole[1..] == re;
    AnchoredIs(whole, text);
    OneMatches(c, PatternOf(re), text);
    if text != "" {
      AnchoredIs(re, text[1..]);
    }
  }

  /** The empty expression matches every text, a final $ the empty one. */
  lemma EndMeans(text: string)
    ensures Matches("^", text) && (Matches("^$", text) <==> text == "")
  {
    AnchoredIs("", text);
    AnchoredIs("$", text);
    assert "^" + "" == "^" && "^" + "$" == "^$";
    DoneMatches(false, text);
    DoneMatches(true, text);
  }

  // ----- The matcher -----

  method MatchStar(c: char, re: string, text: string, ghost rest: Pattern) returns (yes: bool)
    requires rest == PatternOf(re)
    ensures yes <==> exists k :: SplitsAt(Star(c), rest, text, k)
    decreases |re|, 1
  {
    var i := 0;
    while true
      invariant 0 <= i <= |text| && InItem(Star(c), text[..i])
      invariant forall k :: 0 <= k < i ==> !SplitsAt(Star(c), rest, text, k)
      decreases |text| - i
    {
      var here := MatchHere(re, text[i..]);
      if here {
        assert SplitsAt(Star(c), rest, text, i);
        return true;
      }
      if i == |text| || !(text[i] == c || c == '.') {
        forall k | i < k <= |text| ensures !SplitsAt(Star(c), rest, text, k) {
          assert text[..k][i] == text[i];
        }
        return false;
      }
      i := i + 1;
    }
  }

  method MatchHere(re: string, text: string) returns (yes: bool)
    ensures yes <==> PrefixMatches(PatternOf(re), text)
    decreases |re|, 0
  {
    if re == "" {
      DoneMatches(false, text);
      return true;
    }
    if |re| > 1 && re[1] == '*' {
      ghost var rest := PatternOf(re[2..]);
      StarMatches(re[0], rest, text);
      yes := MatchStar(re[0], re[2..], text, rest);
      return;
    }
    if re == "$" {
      DoneMatches(true, text);
      return text == "";
    }
    OneMatches(re[0], PatternOf(re[1..]), text);
    if text != "" && (re[0] == '.' || re[0] == text[0]) {
      yes := MatchHere(re[1..], text[1..]);
      return;
    }
    return false;
  }

  method Match(re: string, text: string) returns (yes: bool)
    ensures yes <==> Matches(re, text)
  {
    if re != "" && re[0] == '^' {
      yes := MatchHere(re[1..], text);
      return;
    }
    var i := 0;
    while true
      invariant 0 <= i <= |text| && forall k :: 0 <= k < i ==> !PrefixMatches(PatternOf(re), text[k..])
      decreases |text| - i
    {
      var here := MatchHere(re, text[i..]);
      if here {
        return true;
      }
      if i == |text| {
        return false;
      }
      i := i + 1;
    }
  }
}
