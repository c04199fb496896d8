/** Positions and substrings of a text, shared by the readers of both grammars. */
module Texts {
  predicate All(p: char -> bool, s: string) {
    forall i :: 0 <= i < |s| ==> p(s[i])
  }

  /** The first position from i on whose character does not satisfy p. */
  function SkipWhile(p: char -> bool, text: string, i: nat): (j: nat)
    requires i <= |text|
    ensures i <= j <= |text|
    decreases |text| - i
  {
    if i < |text| && p(text[i]) then SkipWhile(p, text, i + 1) else i
  }

  lemma {:induction false} SkipWhileAll(p: char -> bool, text: string, i: nat)
    requires i <= |text|
    ensures var j := SkipWhile(p, text, i); All(p, text[i..j]) && (j < |text| ==> !p(text[j]))
    decreases |text| - i
  {
    if i < |text| && p(text[i]) {
      SkipWhileAll(p, text, i + 1);
      var j := SkipWhile(p, text, i + 1);
      assert forall k :: i < k < j ==> text[k] == text[i + 1..j][k - i - 1];
    }
  }

  lemma {:induction false} SkipWhileAt(p: char -> bool, text: string, i: nat, s: string)
    requires At(text, i, s) && All(p, s)
    requires i + |s| < |text| ==> !p(text[i + |s|])
    ensures SkipWhile(p, text, i) == i + |s|
    decreases |s|
  {
    if s != "" {
      assert text[i] == text[i..i + |s|][0];
      assert text[i + 1..i + |s|] == s[1..];
      SkipWhileAt(p, text, i + 1, s[1..]);
    }
  }

  lemma {:induction false} SkipWhileTwice(p: char -> bool, text: string, i: nat)
    requires i <= |text|
    ensures SkipWhile(p, text, SkipWhile(p, text, i)) == SkipWhile(p, text, i)
    decreases |text| - i
  {
    if i < |text| && p(text[i]) {
      SkipWhileTwice(p, text, i + 1);
    }
  }

  /** The string s stands in the text at position i. */
  predicate At(text: string, i: nat, s: string) {
    i + |s| <= |text| && text[i..i + |s|] == s
  }

  lemma {:induction false} AtConcat(text: string, i: nat, a: string, b: string)
    requires At(text, i, a + b)
    ensures At(text, i, a) && At(text, i + |a|, b)
  {
    assert text[i..i + |a|] == (a + b)[..|a|];
    assert text[i + |a|..i + |a| + |b|] == (a + b)[|a|..];
  }

  /** Three pieces in a row, the middle one with its first character. */
  lemma {:induction false} AtSplit(text: string, i: nat, a: string, b: string, c: string)
    requires At(text, i, a + b + c) && b != ""
    ensures i + |a| + |b| + |c| <= |text|
    ensures At(text, i, a) && At(text, i + |a|, b) && At(text, i + |a| + |b|, c)
    ensures text[i + |a|] == b[0]
  {
    AtConcat(text, i, a + b, c);
    AtConcat(text, i, a, b);
    assert text[i + |a|..i + |a| + |b|][0] == b[0];
  }

  lemma {:induction false} AtChar(text: string, i: nat, s: string, k: nat)
    requires At(text, i, s) && k < |s|
    ensures i + k < |text| && text[i + k] == s[k]
  {
    assert text[i + k] == text[i..i + |s|][k];
  }

  lemma {:induction false} AtIsSlice(text: string, i: nat, s: string)
    requires At(text, i, s)
    ensures i + |s| <= |text| && text[i..i + |s|] == s
  {
  }

  lemma {:induction false} SliceJoin(text: string, i: nat, j: nat, k: nat)
    requires i <= j <= k <= |text|
    ensures text[i..k] == text[i..j] + text[j..k]
  {
  }
}
