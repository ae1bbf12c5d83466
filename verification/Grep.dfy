/** The regular-expression matcher of user/grep.c against the language its patterns
    denote. */
module Grep {

  /** In Star, '.' stands for any character. */
  datatype Item = Lit(c: char) | Dot | Star(c: char)

  datatype Pattern = Pattern(items: seq<Item>, atEnd: bool)

  /** How matchhere() reads a pattern: any character before * is starred, and only a
      last $ is an anchor; elsewhere *, ^ and $ are themselves. */
  function Parse(re: string): Pattern {
    if re == [] then Pattern([], false)
    else if |re| >= 2 && re[1] == '*' then
      var p := Parse(re[2..]);
      Pattern([Star(re[0])] + p.items, p.atEnd)
    else if re == ['$'] then Pattern([], true)
    else
      var p := Parse(re[1..]);
      Pattern([if re[0] == '.' then Dot else Lit(re[0])] + p.items, p.atEnd)
  }

  // ----- the language

  ghost predicate Run(c: char, v: string) {
    forall i :: 0 <= i < |v| ==> c == '.' || v[i] == c
  }

  ghost predicate ItemHas(m: Item, v: string) {
    match m
    case Lit(c) => v == [c]
    case Dot => |v| == 1
    case Star(c) => Run(c, v)
  }

  /** v is a concatenation of words, one of each item. */
  ghost predicate InLanguage(items: seq<Item>, v: string) {
    if items == [] then v == []
    else exists k :: 0 <= k <= |v| && ItemHas(items[0], v[..k]) && InLanguage(items[1..], v[k..])
  }

  /** A prefix of the text is in the language, all of it if the pattern ends in $. */
  ghost predicate Matches(p: Pattern, text: string) {
    exists k :: 0 <= k <= |text| && InLanguage(p.items, text[..k]) && (p.atEnd ==> k == |text|)
  }

  /** What match() decides. */
  ghost predicate Found(re: string, text: string) {
    if re != [] && re[0] == '^' then Matches(Parse(re[1..]), text)
    else exists j :: 0 <= j <= |text| && Matches(Parse(re), text[j..])
  }

  lemma NoItems(atEnd: bool, text: string)
    ensures Matches(Pattern([], atEnd), text) <==> (atEnd ==> text == [])
  {
    assert text[..0] == [];
    if !atEnd || text == [] {
      assert InLanguage([], text[..0]);
    }
  }

  /** The first item takes a piece of the text, the rest of the pattern the rest. */
  lemma FirstItem(m: Item, items: seq<Item>, atEnd: bool, text: string)
    ensures Matches(Pattern([m] + items, atEnd), text) <==>
            exists j :: 0 <= j <= |text| && ItemHas(m, text[..j]) && Matches(Pattern(items, atEnd), text[j..])
  {
    if Matches(Pattern([m] + items, atEnd), text) {
      var j := Split(m, items, atEnd, text);
    }
    if j :| 0 <= j <= |text| && ItemHas(m, text[..j]) && Matches(Pattern(items, atEnd), text[j..]) {
      Join(m, items, atEnd, text, j);
    }
  }

  lemma Split(m: Item, items: seq<Item>, atEnd: bool, text: string) returns (j: nat)
    requires Matches(Pattern([m] + items, atEnd), text)
    ensures j <= |text| && ItemHas(m, text[..j]) && Matches(Pattern(items, atEnd), text[j..])
  {
    assert ([m] + items)[1..] == items;
    var k :| 0 <= k <= |text| && InLanguage([m] + items, text[..k]) && (atEnd ==> k == |text|);
    var v := text[..k];
    j :| 0 <= j <= |v| && ItemHas(m, v[..j]) && InLanguage(items, v[j..]);
    assert v[..j] == text[..j] && v[j..] == text[j..][..k - j];
  }

  lemma Join(m: Item, items: seq<Item>, atEnd: bool, text: string, j: nat)
    requires j <= |text| && ItemHas(m, text[..j]) && Matches(Pattern(items, atEnd), text[j..])
    ensures Matches(Pattern([m] + items, atEnd), text)
  {
    assert ([m] + items)[1..] == items;
    var k :| 0 <= k <= |text[j..]| && InLanguage(items, text[j..][..k]) && (atEnd ==> k == |text[j..]|);
    var v := text[..j + k];
    assert v[..j] == text[..j] && v[j..] == text[j..][..k];
    assert InLanguage([m] + items, v);
  }

  lemma OneChar(m: Item, items: seq<Item>, atEnd: bool, text: string)
    requires !m.Star?
    ensures Matches(Pattern([m] + items, atEnd), text) <==>
            text != [] && (m.Dot? || text[0] == m.c) && Matches(Pattern(items, atEnd), text[1..])
  {
    FirstItem(m, items, atEnd, text);
    if text != [] {
      assert text[..1] == [text[0]];
    }
  }

  /** What the characters of a pattern stand for: nothing left matches; a character
      before * matches any run of it, of any characters if it is a dot; a last $ matches
      the end; any other dot matches one character, and any other character itself. */
  lemma Denotes(re: string, text: string)
    ensures re == [] ==> Matches(Parse(re), text)
    ensures |re| >= 2 && re[1] == '*' ==>
              (Matches(Parse(re), text) <==>
               exists j :: 0 <= j <= |text| && Run(re[0], text[..j]) && Matches(Parse(re[2..]), text[j..]))
    ensures re == ['$'] ==> (Matches(Parse(re), text) <==> text == [])
    ensures re != [] && !(|re| >= 2 && re[1] == '*') && re != ['$'] ==>
              (Matches(Parse(re), text) <==>
               text != [] && (re[0] == '.' || re[0] == text[0]) && Matches(Parse(re[1..]), text[1..]))
  {
    hide InLanguage;
    if re == [] {
      NoItems(false, text);
    } else if |re| >= 2 && re[1] == '*' {
      var p := Parse(re[2..]);
      FirstItem(Star(re[0]), p.items, p.atEnd, text);
      assert forall j :: 0 <= j <= |text| ==> (ItemHas(Star(re[0]), text[..j]) <==> Run(re[0], text[..j]));
    } else if re == ['$'] {
      NoItems(true, text);
    } else {
      var p := Parse(re[1..]);
      OneChar(if re[0] == '.' then Dot else Lit(re[0]), p.items, p.atEnd, text);
    }
  }

  // ----- the code

  method Match(re: string, text: string) returns (b: bool)
    ensures b <==> Found(re, text)
  {
    if re != [] && re[0] == '^' {
      b := MatchHere(re[1..], text);
      return;
    }
    var j := 0;
    while j <= |text|
      invariant 0 <= j <= |text| + 1
      invariant forall i :: 0 <= i < j ==> !Matches(Parse(re), text[i..])
    {
      b := MatchHere(re, text[j..]);
      if b { return; }
      j := j + 1;
    }
    return false;
  }

  method MatchHere(re: string, text: string) returns (b: bool)
    ensures b <==> Matches(Parse(re), text)
    decreases |re|, 0
  {
    if re == [] {
      NoItems(false, text);
      return true;
    }
    if |re| >= 2 && re[1] == '*' {
      var p := Parse(re[2..]);
      FirstItem(Star(re[0]), p.items, p.atEnd, text);
      b := MatchStar(re[0], re[2..], text);
      return;
    }
    if re[0] == '$' && |re| == 1 {
      assert re == ['$'];
      NoItems(true, text);
      return text == [];
    }
    var p := Parse(re[1..]);
    OneChar(if re[0] == '.' then Dot else Lit(re[0]), p.items, p.atEnd, text);
    if text != [] && (re[0] == '.' || re[0] == text[0]) {
      b := MatchHere(re[1..], text[1..]);
      return;
    }
    return false;
  }

  method MatchStar(c: char, re: string, text: string) returns (b: bool)
    ensures b <==> exists j :: 0 <= j <= |text| && ItemHas(Star(c), text[..j]) && Matches(Parse(re), text[j..])
    decreases |re|, 1
  {
    var j := 0;
    while true
      invariant 0 <= j <= |text| && Run(c, text[..j])
      invariant forall i :: 0 <= i < j ==> !Matches(Parse(re), text[i..])
      decreases |text| - j
    {
      b := MatchHere(re, text[j..]);
      if b { return; }
      if j == |text| || !(text[j] == c || c == '.') { break; }
      j := j + 1;
    }
    assert j < |text| ==> forall i :: j < i <= |text| ==> text[..i][j] == text[j];
    return false;
  }
}
