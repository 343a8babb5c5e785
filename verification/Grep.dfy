/**
 The regular expression matcher of Kernighan and Pike (chapter 9 of The Practice of
 Programming), against what its expressions denote.  A C string is the sequence of the
 characters before its NUL.
 */
module Grep {

  // --- what a pattern denotes -----------------------------------------------------------------

  // A dot stands for any character, every other character for itself.
  predicate Accepts(a: char, x: char) {
    a == '.' || a == x
  }

  datatype Item = One(c: char) | Star(c: char) | End

  // The pattern after an optional ^.  A star counts only after another character and a dollar
  // only at the very end; elsewhere they are literal.
  function Parse(re: string): seq<Item> {
    if re == [] then []
    else if |re| > 1 && re[1] == '*' then [Star(re[0])] + Parse(re[2..])
    else if re == "$" then [End]
    else [One(re[0])] + Parse(re[1..])
  }

  // How an item is written.
  function Text(item: Item): (r: string)
    ensures r != []
  {
    match item
    case One(c) => [c]
    case Star(c) => [c, '*']
    case End => "$"
  }

  function Show(items: seq<Item>): string {
    if items == [] then [] else Text(items[0]) + Show(items[1..])
  }

  // No single character stands before a star that is meant literally, none is a final dollar, and End
  // is only at the end.
  predicate Readable(items: seq<Item>) {
    items != [] ==>
      var rest := items[1..];
      && Readable(rest)
      && (items[0].One? ==> if rest == [] then items[0].c != '$' else Text(rest[0])[0] != '*')
      && (items[0].End? ==> rest == [])
  }

  // What a pattern is read as is always readable, and writing it again gives the pattern.
  lemma {:induction false} ShowParse(re: string)
    ensures Readable(Parse(re)) && Show(Parse(re)) == re && (re != [] ==> Parse(re) != [] && Text(Parse(re)[0])[0] == re[0])
    decreases |re|
  {
    if re != [] {
      var n := if |re| > 1 && re[1] == '*' then 2 else 1;
      var items, rest := Parse(re), Parse(re[n..]);
      ShowParse(re[n..]);
      assert re == re[..n] + re[n..];
      assert items[1..] == rest;
      assert Text(items[0]) == re[..n];
    }
  }

  // Exactly the readable item lists are read back as what they are.
  lemma {:induction false} ParseShow(items: seq<Item>)
    ensures Parse(Show(items)) == items <==> Readable(items)
  {
    ShowParse(Show(items));
    if items != [] && Readable(items) {
      var rest := items[1..];
      ParseShow(rest);
      var re, w := Show(items), Text(items[0]);
      assert re[|w|..] == Show(rest) && re[..|w|] == w;
      assert rest != [] ==> Show(rest)[0] == Text(rest[0])[0];
      assert items == [items[0]] + rest;
    }
  }

  predicate PieceOk(item: Item, w: string) {
    match item
    case One(c) => |w| == 1 && Accepts(c, w[0])
    case Star(c) => forall i :: 0 <= i < |w| ==> Accepts(c, w[i])
    case End => w == []
  }

  function Concat(pieces: seq<string>): string {
    if pieces == [] then [] else pieces[0] + Concat(pieces[1..])
  }

  // s is cut into pieces, one for every item.
  ghost predicate Cut(items: seq<Item>, pieces: seq<string>, s: string) {
    && |pieces| == |items| && Concat(pieces) == s
    && forall i :: 0 <= i < |items| ==> PieceOk(items[i], pieces[i])
  }

  predicate Anchored(items: seq<Item>) {
    |items| > 0 && items[|items| - 1].End?
  }

  // Some prefix of the text, all of it if the items end in End, can be cut according to the items.
  ghost predicate Denotes(items: seq<Item>, text: string) {
    exists k, pieces :: 0 <= k <= |text| && Cut(items, pieces, text[..k]) && (Anchored(items) ==> k == |text|)
  }

  // Somewhere in the text, or at its beginning if the pattern starts with ^.
  ghost predicate Matches(re: string, text: string) {
    if |re| > 0 && re[0] == '^' then Denotes(Parse(re[1..]), text)
    else exists i :: 0 <= i <= |text| && Denotes(Parse(re), text[i..])
  }

  // --- one item at a time -----------------------------------------------------------------------

  lemma NothingToMatch(text: string)
    ensures Denotes([], text)
  {
    assert Cut([], [], text[..0]);
  }

  lemma EndOnly(text: string)
    ensures Denotes([End], text) <==> text == []
  {
    if text == [] {
      assert Cut([End], [[]], text[..0]);
    }
    if Denotes([End], text) {
      var k, pieces :| 0 <= k <= |text| && Cut([End], pieces, text[..k]) && k == |text|;
      assert PieceOk([End][0], pieces[0]) && Concat(pieces[1..]) == [];
      assert Concat(pieces) == pieces[0] + Concat(pieces[1..]);
      assert text[..k] == [];
    }
  }

  // The first piece is text[..j], the others are cut from what follows.
  lemma PutFirst(item: Item, items: seq<Item>, text: string, j: nat)
    requires !item.End? && j <= |text| && PieceOk(item, text[..j]) && Denotes(items, text[j..])
    ensures Denotes([item] + items, text)
  {
    var k, pieces :| 0 <= k <= |text[j..]| && Cut(items, pieces, text[j..][..k]) && (Anchored(items) ==> k == |text[j..]|);
    var all := [text[..j]] + pieces;
    assert all[1..] == pieces;
    assert Concat(all) == text[..j] + Concat(pieces);
    assert text[..j] + text[j..][..k] == text[..j + k];
    forall i | 0 <= i < |items| + 1 ensures PieceOk(([item] + items)[i], all[i]) {
      if i > 0 { assert PieceOk(items[i - 1], pieces[i - 1]); }
    }
    assert Cut([item] + items, all, text[..j + k]);
  }

  lemma TakeFirst(item: Item, items: seq<Item>, text: string) returns (j: nat)
    requires !item.End? && Denotes([item] + items, text)
    ensures j <= |text| && PieceOk(item, text[..j]) && Denotes(items, text[j..])
  {
    var all := [item] + items;
    var k, pieces :| 0 <= k <= |text| && Cut(all, pieces, text[..k]) && (Anchored(all) ==> k == |text|);
    j := |pieces[0]|;
    assert PieceOk(all[0], pieces[0]);
    assert text[..k] == pieces[0] + Concat(pieces[1..]);
    assert text[..j] == text[..k][..j] == pieces[0];
    assert text[j..][..k - j] == text[..k][j..] == Concat(pieces[1..]);
    forall i | 0 <= i < |items| ensures PieceOk(items[i], pieces[1..][i]) {
      assert PieceOk(all[i + 1], pieces[i + 1]);
    }
    assert Cut(items, pieces[1..], text[j..][..k - j]);
  }

  lemma OneFirst(c: char, items: seq<Item>, text: string)
    ensures Denotes([One(c)] + items, text) <==> text != [] && Accepts(c, text[0]) && Denotes(items, text[1..])
  {
    if text != [] && Accepts(c, text[0]) && Denotes(items, text[1..]) {
      PutFirst(One(c), items, text, 1);
    }
    if Denotes([One(c)] + items, text) {
      var j := TakeFirst(One(c), items, text);
    }
  }

  // c* takes any number of accepted characters, and the rest matches after them.
  ghost predicate StarThen(c: char, items: seq<Item>, text: string, j: nat)
    requires j <= |text|
  {
    PieceOk(Star(c), text[..j]) && Denotes(items, text[j..])
  }

  lemma StarFirst(c: char, items: seq<Item>, text: string)
    ensures Denotes([Star(c)] + items, text) <==> exists j :: 0 <= j <= |text| && StarThen(c, items, text, j)
  {
    if j :| 0 <= j <= |text| && StarThen(c, items, text, j) {
      PutFirst(Star(c), items, text, j);
    }
    if Denotes([Star(c)] + items, text) {
      var j := TakeFirst(Star(c), items, text);
      assert StarThen(c, items, text, j);
    }
  }

  // --- the matcher ------------------------------------------------------------------------------

  method Match(re: string, text: string) returns (r: bool)
    ensures r <==> Matches(re, text)
  {
    if |re| > 0 && re[0] == '^' {
      r := MatchHere(re[1..], text);
      return;
    }
    var i := 0;
    while true
      invariant 0 <= i <= |text|
      invariant forall j :: 0 <= j < i ==> !Denotes(Parse(re), text[j..])
      decreases |text| - i
    {
      r := MatchHere(re, text[i..]);
      if r {
        return;
      }
      if i == |text| {
        return;
      }
      i := i + 1;
    }
  }

  method MatchHere(re: string, text: string) returns (r: bool)
    ensures r <==> Denotes(Parse(re), text)
    decreases |re|, 0
  {
    if re == [] {
      NothingToMatch(text);
      return true;
    }
    if |re| > 1 && re[1] == '*' {
      r := MatchStar(re[0], re[2..], text);
      return;
    }
    if re[0] == '$' && |re| == 1 {
      EndOnly(text);
      assert re == "$";
      return text == [];
    }
    OneFirst(re[0], Parse(re[1..]), text);
    if text != [] && (re[0] == '.' || re[0] == text[0]) {
      r := MatchHere(re[1..], text[1..]);
      return;
    }
    r := false;
  }

  method MatchStar(c: char, re: string, text: string) returns (r: bool)
    ensures r <==> Denotes([Star(c)] + Parse(re), text)
    decreases |re|, 1
  {
    StarFirst(c, Parse(re), text);
    var i := 0;
    while true
      invariant 0 <= i <= |text| && PieceOk(Star(c), text[..i])
      invariant forall j :: 0 <= j < i ==> !StarThen(c, Parse(re), text, j)
      decreases |text| - i
    {
      r := MatchHere(re, text[i..]);
      if r {
        assert StarThen(c, Parse(re), text, i);
        return;
      }
      if !(i < |text| && (text[i] == c || c == '.')) {
        forall j | i < j <= |text| ensures !StarThen(c, Parse(re), text, j) {
          assert text[..j][i] == text[i];
        }
        return;
      }
      i := i + 1;
    }
  }
}
