/**
 The regular-expression matcher of grep.c against the meaning of its patterns.
 Strings are the characters before the terminating NUL.
 */
module Grep {
  // ----- what a pattern means -----

  // One(c): a single character; Star(c): any number of them.  '.' is any character.
  datatype Item = One(c: char) | Star(c: char)

  // A pattern is a list of items, possibly tied to the end of the text.
  datatype Pattern = Pattern(items: seq<Item>, atEnd: bool)

  predicate Accepts(c: char, x: char) {
    c == '.' || c == x
  }

  predicate AllAccepted(c: char, w: string) {
    forall i :: 0 <= i < |w| ==> Accepts(c, w[i])
  }

  // '*' modifies the character before it, whatever that is; '$' ends the pattern
  // only in last position.
  function Parse(re: string): (p: Pattern) {
    if |re| == 0 then Pattern([], false)
    else if |re| >= 2 && re[1] == '*' then
      var rest := Parse(re[2..]);
      Pattern([Star(re[0])] + rest.items, rest.atEnd)
    else if re == "$" then Pattern([], true)
    else
      var rest := Parse(re[1..]);
      Pattern([One(re[0])] + rest.items, rest.atEnd)
  }

  // The words a list of items stands for.
  ghost predicate InLanguage(items: seq<Item>, w: string) {
    if |items| == 0 then w == []
    else match items[0]
      case One(c) => |w| > 0 && Accepts(c, w[0]) && InLanguage(items[1..], w[1..])
      case Star(c) => exists n :: 0 <= n <= |w| && AllAccepted(c, w[..n]) && InLanguage(items[1..], w[n..])
  }

  // Some prefix of the text is in the language; all of it, when tied to the end.
  ghost predicate MatchesHere(p: Pattern, text: string) {
    exists k :: 0 <= k <= |text| && (p.atEnd ==> k == |text|) && InLanguage(p.items, text[..k])
  }

  // The pattern matches from some position; from the start, after a leading '^'.
  ghost predicate MatchesSomewhere(re: string, text: string) {
    if |re| > 0 && re[0] == '^' then MatchesHere(Parse(re[1..]), text)
    else exists i :: 0 <= i <= |text| && MatchesHere(Parse(re), text[i..])
  }

  // ----- how matching unfolds -----

  lemma HereOne(c: char, p: Pattern, text: string)
    ensures MatchesHere(Pattern([One(c)] + p.items, p.atEnd), text) <==>
              |text| > 0 && Accepts(c, text[0]) && MatchesHere(p, text[1..])
  {
    var q := Pattern([One(c)] + p.items, p.atEnd);
    assert q.items[1..] == p.items;
    if MatchesHere(q, text) {
      var k :| 0 <= k <= |text| && (q.atEnd ==> k == |text|) && InLanguage(q.items, text[..k]);
      assert text[..k][1..] == text[1..][..k - 1];
      assert InLanguage(p.items, text[1..][..k - 1]);
    }
    if |text| > 0 && Accepts(c, text[0]) && MatchesHere(p, text[1..]) {
      var k :| 0 <= k <= |text[1..]| && (p.atEnd ==> k == |text[1..]|) && InLanguage(p.items, text[1..][..k]);
      assert text[..k + 1][1..] == text[1..][..k];
      assert InLanguage(q.items, text[..k + 1]);
    }
  }

  lemma HereStar(c: char, p: Pattern, text: string)
    ensures MatchesHere(Pattern([Star(c)] + p.items, p.atEnd), text) <==>
              exists n :: 0 <= n <= |text| && AllAccepted(c, text[..n]) && MatchesHere(p, text[n..])
  {
    var q := Pattern([Star(c)] + p.items, p.atEnd);
    assert q.items[1..] == p.items;
    if MatchesHere(q, text) {
      var k :| 0 <= k <= |text| && (q.atEnd ==> k == |text|) && InLanguage(q.items, text[..k]);
      var n :| 0 <= n <= k && AllAccepted(c, text[..k][..n]) && InLanguage(p.items, text[..k][n..]);
      assert text[..k][..n] == text[..n] && text[..k][n..] == text[n..][..k - n];
      assert MatchesHere(p, text[n..]);
    }
    if n :| 0 <= n <= |text| && AllAccepted(c, text[..n]) && MatchesHere(p, text[n..]) {
      var k :| 0 <= k <= |text[n..]| && (p.atEnd ==> k == |text[n..]|) && InLanguage(p.items, text[n..][..k]);
      assert text[..n + k][..n] == text[..n] && text[..n + k][n..] == text[n..][..k];
      assert InLanguage(q.items, text[..n + k]);
    }
  }

  lemma HereEmpty(text: string)
    ensures MatchesHere(Pattern([], false), text)
    ensures MatchesHere(Pattern([], true), text) <==> text == []
  {
    assert text[..0] == [];
    assert InLanguage([], text[..0]);
    assert text[..|text|] == text;
  }

  // ----- the matcher -----

  // match: search for re anywhere in text.
  method Match(re: string, text: string) returns (b: bool)
    ensures b <==> MatchesSomewhere(re, text)
  {
    if |re| > 0 && re[0] == '^' {
      b := MatchHere(re[1..], text);
      return;
    }
    // Also looks at the empty suffix.
    var i := 0;
    while i <= |text|
      invariant 0 <= i <= |text| + 1
      invariant forall j :: 0 <= j < i ==> !MatchesHere(Parse(re), text[j..])
    {
      b := MatchHere(re, text[i..]);
      if b {
        return;
      }
      i := i + 1;
    }
    b := false;
  }

  // matchhere: search for re at the beginning of text.
  method MatchHere(re: string, text: string) returns (b: bool)
    ensures b <==> MatchesHere(Parse(re), text)
    decreases |re|, 0
  {
    HereEmpty(text);
    if |re| == 0 {
      return true;
    }
    if |re| >= 2 && re[1] == '*' {
      HereStar(re[0], Parse(re[2..]), text);
      b := MatchStar(re[0], re[2..], text);
      return;
    }
    if re[0] == '$' && |re| == 1 {
      return |text| == 0;
    }
    HereOne(re[0], Parse(re[1..]), text);
    if |text| > 0 && (re[0] == '.' || re[0] == text[0]) {
      b := MatchHere(re[1..], text[1..]);
      return;
    }
    return false;
  }

  // matchstar: search for c* followed by re at the beginning of text.
  method MatchStar(c: char, re: string, text: string) returns (b: bool)
    ensures b <==> exists n :: 0 <= n <= |text| && AllAccepted(c, text[..n]) && MatchesHere(Parse(re), text[n..])
    decreases |re|, 1
  {
    var n := 0;
    while true
      invariant 0 <= n <= |text| && AllAccepted(c, text[..n])
      invariant forall m :: 0 <= m < n ==> !MatchesHere(Parse(re), text[m..])
      decreases |text| - n
    {
      b := MatchHere(re, text[n..]);
      if b {
        return;
      }
      if !(n < |text| && (text[n] == c || c == '.')) {
        break;
      }
      n := n + 1;
    }
    // No longer run of c exists.
    forall m | n < m <= |text|
      ensures !AllAccepted(c, text[..m])
    {
      assert !Accepts(c, text[..m][n]);
    }
  }
}
