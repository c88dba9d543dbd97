/** The regular-expression matcher of grep.c against the language of a pattern. Patterns and
    texts are the characters of a C string without its terminating NUL. */
module Grep {

  /** What a pattern is made of: one character, any number of them, or the end of the text. */
  datatype Item = One(c: char) | Star(c: char) | Eol

  function Items(re: string): (r: seq<Item>) {
    if re == "" then []
    else if |re| >= 2 && re[1] == '*' then [Star(re[0])] + Items(re[2..])
    else if re == "$" then [Eol]
    else [One(re[0])] + Items(re[1..])
  }

  predicate Fits(c: char, x: char) {
    c == '.' || c == x
  }

  /** The pieces of text that an item stands for. */
  ghost predicate Spells(item: Item, piece: string) {
    match item
    case One(c) => |piece| == 1 && Fits(c, piece[0])
    case Star(c) => forall k :: 0 <= k < |piece| ==> Fits(c, piece[k])
    case Eol => piece == ""
  }

  function Flatten(pieces: seq<string>): (s: string) {
    if pieces == [] then "" else pieces[0] + Flatten(pieces[1..])
  }

  /** The pieces spell the items one by one and together begin the text; with an end marker they
      are the whole text. */
  ghost predicate Witness(items: seq<Item>, pieces: seq<string>, text: string) {
    && |pieces| == |items| && (forall i :: 0 <= i < |items| ==> Spells(items[i], pieces[i]))
    && Flatten(pieces) <= text
    && (items != [] && items[|items| - 1].Eol? ==> Flatten(pieces) == text)
  }

  /** The text begins with a word of the pattern's language. */
  ghost predicate Begins(items: seq<Item>, text: string) {
    exists pieces :: Witness(items, pieces, text)
  }

  /** The whole pattern: anchored at the start by a leading ^, otherwise at any position. */
  ghost predicate Matches(re: string, text: string) {
    if re != "" && re[0] == '^' then Begins(Items(re[1..]), text)
    else exists i :: 0 <= i <= |text| && Begins(Items(re), text[i..])
  }

  /** Splitting a match of an item and the rest: the text divides after some k characters. */
  lemma SplitFirst(item: Item, rest: seq<Item>, text: string) returns (k: nat)
    requires !item.Eol? && Begins([item] + rest, text)
    ensures k <= |text| && Spells(item, text[..k]) && Begins(rest, text[k..])
  {
    var items := [item] + rest;
    var pieces :| Witness(items, pieces, text);
    k := |pieces[0]|;
    var tail := pieces[1..];
    assert Spells(items[0], pieces[0]) && text[..k] == pieces[0];
    assert Flatten(pieces) == pieces[0] + Flatten(tail);
    forall i | 0 <= i < |rest| ensures Spells(rest[i], tail[i]) {
      assert Spells(items[i + 1], pieces[i + 1]);
    }
    assert rest != [] ==> items[|items| - 1] == rest[|rest| - 1];
    assert Witness(rest, tail, text[k..]);
  }

  /** Joining a piece for the first item to a match of the rest. */
  lemma JoinFirst(item: Item, rest: seq<Item>, text: string, k: nat)
    requires !item.Eol? && k <= |text| && Spells(item, text[..k]) && Begins(rest, text[k..])
    ensures Begins([item] + rest, text)
  {
    var items := [item] + rest;
    var tail :| Witness(rest, tail, text[k..]);
    var pieces := [text[..k]] + tail;
    assert pieces[1..] == tail;
    assert rest != [] ==> items[|items| - 1] == rest[|rest| - 1];
    assert text == text[..k] + text[k..];
    assert Witness(items, pieces, text);
  }

  lemma BeginsCons(item: Item, rest: seq<Item>, text: string)
    requires !item.Eol?
    ensures Begins([item] + rest, text) <==>
      exists k :: 0 <= k <= |text| && Spells(item, text[..k]) && Begins(rest, text[k..])
  {
    if Begins([item] + rest, text) {
      var k := SplitFirst(item, rest, text);
    }
    if k :| 0 <= k <= |text| && Spells(item, text[..k]) && Begins(rest, text[k..]) {
      JoinFirst(item, rest, text, k);
    }
  }

  /** The end marker alone matches exactly the empty text. */
  lemma BeginsEol(text: string)
    ensures Begins([Eol], text) <==> text == ""
  {
    var items := [Eol];
    if Begins(items, text) {
      var pieces :| Witness(items, pieces, text);
      assert Spells(items[0], pieces[0]) && items[|items| - 1].Eol?;
      assert Flatten(pieces) == pieces[0] + Flatten(pieces[1..]) == "";
    }
    if text == "" {
      assert [""][1..] == [];
      assert Witness(items, [""], text);
    }
  }

  lemma BeginsEmpty(text: string)
    ensures Begins([], text)
  {
    assert Witness([], [], text);
  }

  /** c*re at the start of the text: some run of characters that c accepts, then re. */
  ghost predicate StarThen(c: char, re: string, text: string) {
    exists k :: 0 <= k <= |text| && Spells(Star(c), text[..k]) && Begins(Items(re), text[k..])
  }

  /** The first k characters of the text are all c, or anything if c is a dot. */
  ghost predicate RunOf(c: char, text: string, k: nat) {
    k <= |text| && forall j :: 0 <= j < k ==> text[j] == c || c == '.'
  }

  /** `c*` at the start of a pattern, in terms of characters: some run of c, of any length, then the rest. */
  lemma StarMeans(c: char, re: string, text: string)
    ensures Begins(Items([c, '*'] + re), text) <==> exists k: nat :: RunOf(c, text, k) && Begins(Items(re), text[k..])
  {
    assert ([c, '*'] + re)[2..] == re;
    BeginsCons(Star(c), Items(re), text);
    forall k: nat | k <= |text| ensures Spells(Star(c), text[..k]) <==> RunOf(c, text, k) {
      assert forall j :: 0 <= j < k ==> text[..k][j] == text[j];
    }
  }

  /** Any other character at the start, but for a `$` at the end: itself, or anything if it is a dot. */
  lemma OneMeans(c: char, re: string, text: string)
    requires (re == "" || re[0] != '*') && !(c == '$' && re == "")
    ensures Begins(Items([c] + re), text) <==>
      text != "" && (c == '.' || c == text[0]) && Begins(Items(re), text[1..])
  {
    assert ([c] + re)[1..] == re;
    BeginsCons(One(c), Items(re), text);
    if text != "" {
      assert text[..1] == [text[0]];
    }
  }

  /** A `$` at the end, and the end of the pattern. */
  lemma EndMeans(text: string)
    ensures Begins(Items("$"), text) <==> text == ""
    ensures Begins(Items(""), text)
  {
    BeginsEol(text);
    BeginsEmpty(text);
  }

  /** A leading ^ ties the pattern to the start of the text. */
  lemma Anchored(re: string, text: string)
    ensures Matches("^" + re, text) <==> Begins(Items(re), text)
    ensures re == "" || re[0] != '^' ==>
      (Matches(re, text) <==> exists i :: 0 <= i <= |text| && Begins(Items(re), text[i..]))
  {
    assert ("^" + re)[1..] == re;
  }

  /** matchhere. */
  method MatchHere(re: string, text: string) returns (b: bool)
    ensures b <==> Begins(Items(re), text)
    decreases |re|, 0
  {
    if re == "" {
      BeginsEmpty(text);
      return true;
    }
    if |re| >= 2 && re[1] == '*' {
      BeginsCons(Star(re[0]), Items(re[2..]), text);
      b := MatchStar(re[0], re[2..], text);
      return;
    }
    if re == "$" {
      BeginsEol(text);
      return text == "";
    }
    BeginsCons(One(re[0]), Items(re[1..]), text);
    if text != "" && (re[0] == '.' || re[0] == text[0]) {
      b := MatchHere(re[1..], text[1..]);
      assert text[..1] == [text[0]];
      return;
    }
    return false;
  }

  /** matchstar: tries ever longer runs of c. */
  method MatchStar(c: char, re: string, text: string) returns (b: bool)
    ensures b <==> StarThen(c, re, text)
    decreases |re|, 1
  {
    var i := 0;
    while true
      invariant 0 <= i <= |text| && Spells(Star(c), text[..i])
      invariant forall k :: 0 <= k < i ==> !Begins(Items(re), text[k..])
      decreases |text| - i
    {
      var here := MatchHere(re, text[i..]);
      if here {
        return true;
      }
      if i == |text| || !(text[i] == c || c == '.') {
        forall k | i < k <= |text| ensures !Spells(Star(c), text[..k]) {
          assert text[..k][i] == text[i];
        }
        return false;
      }
      i := i + 1;
    }
  }

  /** match: true exactly when the text, or with a leading ^ its beginning, is in the language. */
  method Match(re: string, text: string) returns (b: bool)
    ensures b <==> Matches(re, text)
  {
    if re != "" && re[0] == '^' {
      b := MatchHere(re[1..], text);
      return;
    }
    var i := 0;
    while true
      invariant 0 <= i <= |text|
      invariant forall k :: 0 <= k < i ==> !Begins(Items(re), text[k..])
      decreases |text| - i
    {
      var here := MatchHere(re, text[i..]);
      if here {
        return true;
      }
      if i == |text| {
        return false;
      }
      i := i + 1;
    }
  }
}
