/**
 The tokens of JSON text as `meojson::parser` reads them: white space, numbers, strings
 and the three literal names. Each reader is proved to accept exactly its token.
 */
module JsonTokens {
  import opened Options
  import opened Texts
  import opened JsonStrings

  // ---------------------------------------------------------------- white space

  predicate IsWs(c: char) {
    c == ' ' || c == '\t' || c == '\r' || c == '\n'
  }

  predicate AllWs(s: string) {
    All(IsWs, s)
  }

  function SkipWs(text: string, i: nat): (j: nat)
    requires i <= |text|
    ensures i <= j <= |text|
  {
    SkipWhile(IsWs, text, i)
  }

  /** The result of `skip_whitespace`: there is something other than NUL to read at j. */
  predicate Readable(text: string, j: nat) {
    j < |text| && text[j] != '\0'
  }

  // ---------------------------------------------------------------- numbers

  predicate IsDigit(c: char) {
    '0' <= c <= '9'
  }

  predicate AllDigits(s: string) {
    All(IsDigit, s)
  }

  /** The parts of a number in section 6 of RFC 8259. */
  datatype NumberParts = NumberParts(minus: string, whole: string, frac: string, exp: string)

  predicate IsInt(s: string) {
    s != "" && AllDigits(s) && (s[0] == '0' ==> |s| == 1)
  }

  predicate IsFrac(s: string) {
    s == "" || (|s| > 1 && s[0] == '.' && AllDigits(s[1..]))
  }

  predicate IsSign(c: char) {
    c == '+' || c == '-'
  }

  predicate IsE(c: char) {
    c == 'e' || c == 'E'
  }

  predicate IsExp(s: string) {
    || s == ""
    || (|s| > 1 && IsE(s[0]) && AllDigits(s[1..]))
    || (|s| > 2 && IsE(s[0]) && IsSign(s[1]) && AllDigits(s[2..]))
  }

  predicate ValidParts(n: NumberParts) {
    (n.minus == "" || n.minus == "-") && IsInt(n.whole) && IsFrac(n.frac) && IsExp(n.exp)
  }

  function PartsText(n: NumberParts): string {
    n.minus + n.whole + (n.frac + n.exp)
  }

  ghost predicate IsNumber(s: string) {
    exists n :: ValidParts(n) && PartsText(n) == s
  }

  /** `skip_digit`: at least one digit, and not up to the end of the text. */
  function SkipDigits(text: string, i: nat): (r: Option<nat>)
    requires i <= |text|
    ensures r.Some? ==> i < r.value < |text|
  {
    var k := SkipWhile(IsDigit, text, i);
    if k == i || k == |text| then None else Some(k)
  }

  function FracEnd(text: string, i: nat): (r: Option<nat>)
    requires i < |text|
    ensures r.Some? ==> i <= r.value < |text|
  {
    if text[i] == '.' then SkipDigits(text, i + 1) else Some(i)
  }

  function ExpEnd(text: string, i: nat): (r: Option<nat>)
    requires i < |text|
    ensures r.Some? ==> i <= r.value < |text|
  {
    if !IsE(text[i]) then Some(i)
    else if i + 1 == |text| then None
    else SkipDigits(text, if IsSign(text[i + 1]) then i + 2 else i + 1)
  }

  function IntStart(text: string, i: nat): (j: nat)
    requires i < |text|
    ensures i <= j <= i + 1
  {
    if text[i] == '-' then i + 1 else i
  }

  /** The end of the number that starts at i, if there is one. */
  function NumberEnd(text: string, i: nat): (r: Option<nat>)
    requires i < |text|
    ensures r.Some? ==> i < r.value < |text|
  {
    var j := IntStart(text, i);
    if j + 1 < |text| && text[j] == '0' && IsDigit(text[j + 1]) then None
    else
      match SkipDigits(text, j)
      case None => None
      case Some(k) =>
        match FracEnd(text, k)
        case None => None
        case Some(m) => ExpEnd(text, m)
  }

  lemma {:induction false} SkipDigitsSound(text: string, i: nat)
    requires i <= |text| && SkipDigits(text, i).Some?
    ensures AllDigits(text[i..SkipDigits(text, i).value])
  {
    SkipWhileAll(IsDigit, text, i);
  }

  lemma {:induction false} FracSound(text: string, i: nat)
    requires i < |text| && FracEnd(text, i).Some?
    ensures IsFrac(text[i..FracEnd(text, i).value])
  {
    if text[i] == '.' {
      SkipDigitsSound(text, i + 1);
      var k := FracEnd(text, i).value;
      assert text[i..k][1..] == text[i + 1..k];
    }
  }

  lemma {:induction false} ExpSound(text: string, i: nat)
    requires i < |text| && ExpEnd(text, i).Some?
    ensures IsExp(text[i..ExpEnd(text, i).value])
  {
    if IsE(text[i]) {
      var k := ExpEnd(text, i).value;
      var p := if IsSign(text[i + 1]) then i + 2 else i + 1;
      SkipDigitsSound(text, p);
      assert text[i..k][p - i..] == text[p..k];
    }
  }

  lemma {:induction false} NumberSound(text: string, i: nat)
    requires i < |text| && NumberEnd(text, i).Some?
    ensures IsNumber(text[i..NumberEnd(text, i).value])
  {
    hide SkipDigits, FracEnd, ExpEnd;
    var j := IntStart(text, i);
    var k := SkipDigits(text, j).value;
    var m := FracEnd(text, k).value;
    var e := ExpEnd(text, m).value;
    IntSound(text, j);
    FracSound(text, k);
    ExpSound(text, m);
    var n := NumberParts(text[i..j], text[j..k], text[k..m], text[m..e]);
    PartsJoin(text, i, j, k, m, e);
    assert n.minus == "" || n.minus == "-";
    hide IsInt, IsFrac, IsExp, PartsText;
    assert ValidParts(n) && PartsText(n) == text[i..e];
  }

  lemma {:induction false} PartsJoin(text: string, i: nat, j: nat, k: nat, m: nat, e: nat)
    requires i <= j <= k <= m <= e <= |text|
    ensures PartsText(NumberParts(text[i..j], text[j..k], text[k..m], text[m..e])) == text[i..e]
  {
    SliceJoin(text, k, m, e);
    SliceJoin(text, j, k, e);
    SliceJoin(text, i, j, e);
    PartsAssoc(NumberParts(text[i..j], text[j..k], text[k..m], text[m..e]));
  }

  /** Where the parts of a number stand. */
  lemma {:induction false} PartsAt(text: string, i: nat, n: NumberParts)
    requires At(text, i, PartsText(n))
    ensures var j := i + |n.minus|;
            var k := j + |n.whole|;
            var m := k + |n.frac|;
            && At(text, i, n.minus) && At(text, j, n.whole) && At(text, k, n.frac) && At(text, m, n.exp)
            && m + |n.exp| == i + |PartsText(n)|
  {
    hide At;
    var j := i + |n.minus|;
    PartsAssoc(n);
    AtConcat(text, i, n.minus, n.whole + (n.frac + n.exp));
    AtConcat(text, j, n.whole, n.frac + n.exp);
    AtConcat(text, j + |n.whole|, n.frac, n.exp);
  }

  lemma {:induction false} PartsAssoc(n: NumberParts)
    ensures PartsText(n) == n.minus + (n.whole + (n.frac + n.exp))
  {
  }

  lemma {:induction false} IntSound(text: string, j: nat)
    requires j <= |text| && SkipDigits(text, j).Some?
    requires !(j + 1 < |text| && text[j] == '0' && IsDigit(text[j + 1]))
    ensures IsInt(text[j..SkipDigits(text, j).value])
  {
    SkipDigitsSound(text, j);
    var s := text[j..SkipDigits(text, j).value];
    if |s| > 1 {
      assert text[j + 1] == s[1];
    }
  }

  /** A character that cannot continue a number. */
  predicate EndsNumber(c: char) {
    !IsDigit(c) && c != '.' && !IsE(c)
  }

  lemma {:induction false} SkipDigitsAt(text: string, i: nat, s: string)
    requires s != "" && AllDigits(s) && At(text, i, s)
    requires i + |s| < |text| && !IsDigit(text[i + |s|])
    ensures SkipDigits(text, i) == Some(i + |s|)
  {
    SkipWhileAt(IsDigit, text, i, s);
  }

  lemma {:induction false} ExpAt(text: string, i: nat, s: string)
    requires IsExp(s) && At(text, i, s) && i + |s| < |text| && EndsNumber(text[i + |s|])
    ensures ExpEnd(text, i) == Some(i + |s|)
    ensures !IsDigit(text[i]) && text[i] != '.'
  {
    if s != "" {
      AtChar(text, i, s, 0);
      AtChar(text, i, s, 1);
      if IsSign(s[1]) {
        assert s == s[..2] + s[2..];
        AtConcat(text, i, s[..2], s[2..]);
        assert !IsDigit(s[1..][0]);
        SkipDigitsAt(text, i + 2, s[2..]);
      } else {
        assert s == s[..1] + s[1..];
        AtConcat(text, i, s[..1], s[1..]);
        SkipDigitsAt(text, i + 1, s[1..]);
      }
    }
  }

  lemma {:induction false} FracAt(text: string, i: nat, s: string)
    requires IsFrac(s) && At(text, i, s) && i + |s| < |text|
    requires !IsDigit(text[i + |s|]) && text[i + |s|] != '.'
    ensures FracEnd(text, i) == Some(i + |s|)
    ensures !IsDigit(text[i])
  {
    if s != "" {
      AtChar(text, i, s, 0);
      assert s == s[..1] + s[1..];
      AtConcat(text, i, s[..1], s[1..]);
      SkipDigitsAt(text, i + 1, s[1..]);
    }
  }

  lemma {:induction false} IntAt(text: string, i: nat, s: string)
    requires IsInt(s) && At(text, i, s) && i + |s| < |text| && !IsDigit(text[i + |s|])
    ensures SkipDigits(text, i) == Some(i + |s|)
    ensures !(text[i] == '0' && IsDigit(text[i + 1]))
    ensures IsDigit(text[i])
  {
    AtChar(text, i, s, 0);
    SkipDigitsAt(text, i, s);
  }

  lemma {:induction false} NumberAt(text: string, i: nat, s: string)
    requires IsNumber(s) && At(text, i, s) && i + |s| < |text| && EndsNumber(text[i + |s|])
    ensures NumberEnd(text, i) == Some(i + |s|)
    ensures text[i] == '-' || IsDigit(text[i])
  {
    hide At, SkipDigits, FracEnd, ExpEnd, IsInt, IsFrac, IsExp;
    var n :| ValidParts(n) && PartsText(n) == s;
    var j := i + |n.minus|;
    var k := j + |n.whole|;
    var m := k + |n.frac|;
    PartsAt(text, i, n);
    hide PartsText;
    ExpAt(text, m, n.exp);
    FracAt(text, k, n.frac);
    IntAt(text, j, n.whole);
    if n.minus != "" {
      AtChar(text, i, n.minus, 0);
    }
  }

  // ---------------------------------------------------------------- strings

  /** The position of the closing quote, reading a string body from i on. */
  function StringEnd(text: string, i: nat): (r: Option<nat>)
    requires i <= |text|
    ensures r.Some? ==> i <= r.value < |text|
    decreases |text| - i
  {
    if i == |text| then None
    else
      match text[i]
      case '\t' => None
      case '\r' => None
      case '\n' => None
      case '\\' =>
        if i + 1 < |text| && IsEscapeLetter(text[i + 1]) then StringEnd(text, i + 2) else None
      case '\"' => Some(i)
      case _ => StringEnd(text, i + 1)
  }

  /** A quoted string at i: its stored form and the position after it. A string is never
      accepted at the very end of the text. */
  function ReadString(text: string, i: nat): (r: Option<(string, nat)>)
    requires i <= |text|
    ensures r.Some? ==> i + 1 < r.value.1 < |text|
  {
    if i < |text| && text[i] == '\"' then
      match StringEnd(text, i + 1)
      case None => None
      case Some(q) => if q + 1 == |text| then None else Some((text[i + 1..q], q + 1))
    else None
  }

  lemma {:induction false} StringEndSound(text: string, i: nat)
    requires i <= |text| && StringEnd(text, i).Some?
    ensures var q := StringEnd(text, i).value; text[q] == '\"' && ValidRaw(text[i..q])
    decreases |text| - i
  {
    var q := StringEnd(text, i).value;
    if text[i] == '\\' {
      StringEndSound(text, i + 2);
      assert text[i..q][1] == text[i + 1] && text[i..q][2..] == text[i + 2..q];
    } else if text[i] != '\"' {
      StringEndSound(text, i + 1);
      assert text[i..q][1..] == text[i + 1..q];
    }
  }

  lemma {:induction false} StringEndAt(text: string, i: nat, raw: string)
    requires ValidRaw(raw) && At(text, i, raw) && i + |raw| < |text| && text[i + |raw|] == '\"'
    ensures StringEnd(text, i) == Some(i + |raw|)
    decreases |raw|
  {
    if raw != "" {
      AtChar(text, i, raw, 0);
      if raw[0] == '\\' {
        AtChar(text, i, raw, 1);
        assert raw == raw[..2] + raw[2..];
        AtConcat(text, i, raw[..2], raw[2..]);
        StringEndAt(text, i + 2, raw[2..]);
      } else {
        assert raw == raw[..1] + raw[1..];
        AtConcat(text, i, raw[..1], raw[1..]);
        StringEndAt(text, i + 1, raw[1..]);
      }
    }
  }

  function QuotedText(raw: string): string {
    "\"" + raw + "\""
  }

  lemma {:induction false} ReadStringSound(text: string, i: nat)
    requires i <= |text| && ReadString(text, i).Some?
    ensures var (raw, k) := ReadString(text, i).value; ValidRaw(raw) && text[i..k] == QuotedText(raw)
  {
    StringEndSound(text, i + 1);
    var q := StringEnd(text, i + 1).value;
    assert text[i..q + 1] == [text[i]] + text[i + 1..q] + [text[q]];
  }

  lemma {:induction false} ReadStringAt(text: string, i: nat, raw: string)
    requires ValidRaw(raw) && At(text, i, QuotedText(raw)) && i + |raw| + 2 < |text|
    ensures ReadString(text, i) == Some((raw, i + |raw| + 2))
    ensures text[i] == '\"'
  {
    AtConcat(text, i, "\"" + raw, "\"");
    AtConcat(text, i, "\"", raw);
    AtChar(text, i, "\"", 0);
    AtChar(text, i + 1 + |raw|, "\"", 0);
    StringEndAt(text, i + 1, raw);
  }

  /** The stored form of any string at all is accepted whole by `parse_stdstring`. */
  lemma {:induction false} QuotedAccepted(s: string, more: string)
    requires more != ""
    ensures ReadString(QuotedText(Quoted(s)) + more, 0) == Some((Quoted(s), |Quoted(s)| + 2))
  {
    var text := QuotedText(Quoted(s)) + more;
    QuotedValid(s);
    assert At(text, 0, QuotedText(Quoted(s)));
    ReadStringAt(text, 0, Quoted(s));
  }

  // ---------------------------------------------------------------- characters

  /** The classes of characters in sections 2 and 6 of RFC 8259, by code points. */
  lemma {:induction false} ClassesExactly(c: char)
    ensures IsWs(c) <==> c as int in {0x20, 0x09, 0x0A, 0x0D}
    ensures IsDigit(c) <==> 0x30 <= c as int <= 0x39
    ensures IsE(c) <==> c as int in {0x65, 0x45}
    ensures IsSign(c) <==> c as int in {0x2B, 0x2D}
  {
  }
}
