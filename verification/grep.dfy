/** The regular-expression matcher of user/grep.c against the language its patterns denote. */
module Grep {

  /** A pattern read as a sequence of items; `toEnd` says it ends in an anchor. */
  datatype Item = One(c: char) | Star(c: char)

  datatype Pattern = Pattern(items: seq<Item>, toEnd: bool)

  /** c* wherever a star follows, a final $, and single characters. */
  function Parse(re: string): (p: Pattern)
    ensures |p.items| <= |re|
  {
    if re == "" then Pattern([], false)
    else if |re| > 1 && re[1] == '*' then
      var rest := Parse(re[2..]);
      Pattern([Star(re[0])] + rest.items, rest.toEnd)
    else if re == "$" then Pattern([], true)
    else
      var rest := Parse(re[1..]);
      Pattern([One(re[0])] + rest.items, rest.toEnd)
  }

  /** A '.' stands for any character. */
  predicate Accepts(c: char, x: char) { c == '.' || c == x }

  ghost predicate AllAccepted(c: char, s: string) {
    forall i {:trigger s[i]} :: 0 <= i < |s| ==> Accepts(c, s[i])
  }

  /** s is a concatenation of one string for each item. */
  ghost predicate InLanguage(items: seq<Item>, s: string)
    decreases |items|
  {
    if items == [] then s == ""
    else if items[0].One? then s != "" && Accepts(items[0].c, s[0]) && InLanguage(items[1..], s[1..])
    else exists k {:trigger s[..k]} :: 0 <= k <= |s| && AllAccepted(items[0].c, s[..k]) && InLanguage(items[1..], s[k..])
  }

  /** Some beginning of text, all of it if the pattern is anchored at its end, is in the language. */
  ghost predicate MatchesHere(re: string, text: string) {
    exists n {:trigger text[..n]} :: 0 <= n <= |text| && InLanguage(Parse(re).items, text[..n]) && (Parse(re).toEnd ==> n == |text|)
  }

  /** Some substring of text, a beginning of it if re starts with ^. */
  ghost predicate Matches(re: string, text: string) {
    if re != "" && re[0] == '^' then MatchesHere(re[1..], text)
    else exists i {:trigger text[i..]} :: 0 <= i <= |text| && MatchesHere(re, text[i..])
  }

  // ---- How a match at a place unfolds ----

  lemma HereEmpty(text: string)
    ensures MatchesHere("", text)
  {
    assert text[..0] == "";
  }

  lemma HereEnd(text: string)
    ensures MatchesHere("$", text) <==> text == ""
  {
    assert Parse("$") == Pattern([], true);
    if text == "" {
      assert text[..0] == "";
    }
    if MatchesHere("$", text) {
      var n :| 0 <= n <= |text| && InLanguage(Parse("$").items, text[..n]) && n == |text|;
      assert text[..n] == text;
    }
  }

  lemma HereOne(re: string, text: string)
    requires re != "" && re != "$" && !(|re| > 1 && re[1] == '*')
    ensures MatchesHere(re, text) <==> text != "" && Accepts(re[0], text[0]) && MatchesHere(re[1..], text[1..])
  {
    var p, rest := Parse(re), Parse(re[1..]);
    assert p.items[0] == One(re[0]) && p.items[1..] == rest.items;
    if MatchesHere(re, text) {
      var n :| 0 <= n <= |text| && InLanguage(p.items, text[..n]) && (p.toEnd ==> n == |text|);
      assert text[..n][1..] == text[1..][..n - 1];
    }
    if text != "" && Accepts(re[0], text[0]) && MatchesHere(re[1..], text[1..]) {
      var n :| 0 <= n <= |text[1..]| && InLanguage(rest.items, text[1..][..n]) && (rest.toEnd ==> n == |text[1..]|);
      assert text[..n + 1][1..] == text[1..][..n];
    }
  }

  /** c*re here: some number of accepted characters, then re. */
  ghost predicate StarHere(c: char, re: string, text: string) {
    exists k {:trigger text[k..]} :: 0 <= k <= |text| && AllAccepted(c, text[..k]) && MatchesHere(re, text[k..])
  }

  lemma HereStar(re: string, text: string)
    requires |re| > 1 && re[1] == '*'
    ensures MatchesHere(re, text) <==> StarHere(re[0], re[2..], text)
  {
    var p, rest := Parse(re), Parse(re[2..]);
    assert p.items[0] == Star(re[0]) && p.items[1..] == rest.items;
    if MatchesHere(re, text) {
      var n :| 0 <= n <= |text| && InLanguage(p.items, text[..n]) && (p.toEnd ==> n == |text|);
      var s := text[..n];
      var k :| 0 <= k <= |s| && AllAccepted(re[0], s[..k]) && InLanguage(rest.items, s[k..]);
      assert s[..k] == text[..k] && s[k..] == text[k..][..n - k];
      assert MatchesHere(re[2..], text[k..]);
    }
    if StarHere(re[0], re[2..], text) {
      var k :| 0 <= k <= |text| && AllAccepted(re[0], text[..k]) && MatchesHere(re[2..], text[k..]);
      var m :| 0 <= m <= |text[k..]| && InLanguage(rest.items, text[k..][..m]) && (rest.toEnd ==> m == |text[k..]|);
      var s := text[..k + m];
      assert s[..k] == text[..k] && s[k..] == text[k..][..m];
    }
  }

  // ---- The matcher ----

  /** match(): look for the expression at every place of the text, or at its start after a ^. */
  method Match(re: string, text: string) returns (found: bool)
    ensures found <==> Matches(re, text)
  {
    if re != "" && re[0] == '^' {
      found := MatchHere(re[1..], text);
      return;
    }
    var t := 0;
    while true
      invariant 0 <= t <= |text|
      invariant forall i {:trigger text[i..]} :: 0 <= i < t ==> !MatchesHere(re, text[i..])
      decreases |text| - t
    {
      found := MatchHere(re, text[t..]);
      if found {
        return true;
      }
      if t == |text| {
        return false;
      }
      t := t + 1;
    }
  }

  /** matchhere(): match the expression at the start of the text, item by item. */
  method MatchHere(re: string, text: string) returns (found: bool)
    ensures found <==> MatchesHere(re, text)
    decreases |re|, 0
  {
    if re == "" {
      HereEmpty(text);
      return true;
    }
    if |re| > 1 && re[1] == '*' {
      HereStar(re, text);
      found := MatchStar(re[0], re[2..], text);
      return;
    }
    if re[0] == '$' && |re| == 1 {
      HereEnd(text);
      return text == "";
    }
    HereOne(re, text);
    if text != "" && (re[0] == '.' || re[0] == text[0]) {
      found := MatchHere(re[1..], text[1..]);
      return;
    }
    found := false;
  }

  /** matchstar(): skip accepted characters one by one until the rest of the expression matches. */
  method MatchStar(c: char, re: string, text: string) returns (found: bool)
    ensures found <==> StarHere(c, re, text)
    decreases |re|, 1
  {
    var t := 0;
    while true
      invariant 0 <= t <= |text| && AllAccepted(c, text[..t])
      invariant forall k {:trigger text[k..]} :: 0 <= k < t ==> !MatchesHere(re, text[k..])
      decreases |text| - t
    {
      found := MatchHere(re, text[t..]);
      if found {
        return true;
      }
      if t == |text| || !(text[t] == c || c == '.') {
        StarStops(c, re, text, t);
        return false;
      }
      t := t + 1;
    }
  }

  lemma StarStops(c: char, re: string, text: string, t: int)
    requires 0 <= t <= |text| && (t == |text| || !Accepts(c, text[t]))
    requires forall k {:trigger text[k..]} :: 0 <= k <= t ==> !MatchesHere(re, text[k..])
    ensures !StarHere(c, re, text)
  {
    forall k | t < k <= |text|
      ensures !AllAccepted(c, text[..k])
    {
      assert text[..k][t] == text[t];
    }
  }

  // ---- What patterns mean ----

  /** No character of re has a meaning of its own. */
  predicate Plain(re: string) {
    forall i {:trigger re[i]} :: 0 <= i < |re| ==> re[i] != '.' && re[i] != '*' && re[i] != '^' && re[i] != '$'
  }

  lemma {:induction false} PlainHere(re: string, text: string)
    requires Plain(re)
    ensures MatchesHere(re, text) <==> re <= text
  {
    if re == "" {
      HereEmpty(text);
    } else {
      assert re[0] != "$"[0];
      HereOne(re, text);
      if text != "" {
        PlainHere(re[1..], text[1..]);
        assert re <= text <==> re[0] == text[0] && re[1..] <= text[1..] by {
          assert re == [re[0]] + re[1..] && text == [text[0]] + text[1..];
        }
      }
    }
  }

  lemma {:induction false} PlainToEnd(re: string, text: string)
    requires Plain(re)
    ensures MatchesHere(re + "$", text) <==> text == re
  {
    if re == "" {
      assert re + "$" == "$";
      HereEnd(text);
    } else {
      var all := re + "$";
      HereOne(all, text);
      if text != "" {
        assert all[1..] == re[1..] + "$";
        PlainToEnd(re[1..], text[1..]);
        assert text == re <==> re[0] == text[0] && text[1..] == re[1..] by {
          assert re == [re[0]] + re[1..] && text == [text[0]] + text[1..];
        }
      }
    }
  }

  /** A plain pattern finds itself: anywhere in the text, at its beginning after ^, at its end before $, and as the
      whole text between the two. */
  lemma PlainMatches(re: string, text: string)
    requires Plain(re)
    ensures Matches(re, text) <==> exists i {:trigger text[i..]} :: 0 <= i <= |text| && re <= text[i..]
    ensures Matches("^" + re, text) <==> re <= text
    ensures Matches(re + "$", text) <==> exists i {:trigger text[i..]} :: 0 <= i <= |text| && text[i..] == re
    ensures Matches("^" + re + "$", text) <==> text == re
  {
    hide MatchesHere;
    forall i | 0 <= i <= |text|
      ensures MatchesHere(re, text[i..]) <==> re <= text[i..]
      ensures MatchesHere(re + "$", text[i..]) <==> text[i..] == re
    {
      PlainHere(re, text[i..]);
      PlainToEnd(re, text[i..]);
    }
    PlainHere(re, text);
    PlainToEnd(re, text);
    assert ("^" + re)[1..] == re && ("^" + re + "$")[1..] == re + "$";
  }

  /** n dots find any n characters in a row. */
  lemma {:induction false} DotsMatch(n: nat, text: string)
    ensures MatchesHere(seq(n, _ => '.'), text) <==> n <= |text|
    decreases n
  {
    var dots := seq(n, _ => '.');
    if n == 0 {
      assert dots == "";
      HereEmpty(text);
    } else {
      assert dots[0] != "$"[0];
      HereOne(dots, text);
      assert dots[1..] == seq(n - 1, _ => '.');
      if text != "" {
        DotsMatch(n - 1, text[1..]);
      }
    }
  }

  /** A starred character followed by $ takes a text of that character alone, and a starred dot any text. */
  lemma StarToEnd(c: char, text: string)
    ensures MatchesHere([c, '*', '$'], text) <==> c == '.' || forall i {:trigger text[i]} :: 0 <= i < |text| ==> text[i] == c
  {
    var re := [c, '*', '$'];
    HereStar(re, text);
    assert re[2..] == "$";
    forall k | 0 <= k <= |text|
      ensures MatchesHere("$", text[k..]) <==> k == |text|
    {
      HereEnd(text[k..]);
    }
    assert text[..|text|] == text && text[|text|..] == "";
    assert StarHere(c, "$", text) <==> AllAccepted(c, text);
    if c != '.' && AllAccepted(c, text) {
      assert forall i {:trigger text[i]} :: 0 <= i < |text| ==> Accepts(c, text[i]);
    }
  }
}
