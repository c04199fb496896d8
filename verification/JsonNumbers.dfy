/**
 The numbers of section 6 of RFC 8259 once more, as what an automaton accepts that reads
 them from left to right, by code points.
 */
module JsonNumbers {
  import opened JsonTokens

  datatype Place = Begin | Minus | Zero | Whole | Point | Fraction | Letter | Sign | Exponent | Wrong

  /** Where the next character leads. */
  function Next(q: Place, c: char): Place {
    var n := c as int;
    var zero, digit := n == 0x30, 0x30 <= n <= 0x39;
    match q
    case Begin => if n == 0x2D then Minus else if zero then Zero else if digit then Whole else Wrong
    case Minus => if zero then Zero else if digit then Whole else Wrong
    case Zero => if n == 0x2E then Point else if n == 0x65 || n == 0x45 then Letter else Wrong
    case Whole => if digit then Whole else if n == 0x2E then Point else if n == 0x65 || n == 0x45 then Letter else Wrong
    case Point => if digit then Fraction else Wrong
    case Fraction => if digit then Fraction else if n == 0x65 || n == 0x45 then Letter else Wrong
    case Letter => if digit then Exponent else if n == 0x2B || n == 0x2D then Sign else Wrong
    case Sign => if digit then Exponent else Wrong
    case Exponent => if digit then Exponent else Wrong
    case Wrong => Wrong
  }

  function Reach(q: Place, s: string): Place
    decreases |s|
  {
    if s == "" then q else Reach(Next(q, s[0]), s[1..])
  }

  predicate Final(q: Place) {
    q.Zero? || q.Whole? || q.Fraction? || q.Exponent?
  }

  lemma {:induction false} ReachConcat(q: Place, a: string, b: string)
    ensures Reach(q, a + b) == Reach(Reach(q, a), b)
    decreases |a|
  {
    if a == "" {
      assert a + b == b;
    } else {
      assert (a + b)[1..] == a[1..] + b;
      ReachConcat(Next(q, a[0]), a[1..], b);
    }
  }

  lemma {:induction false} ReachDigits(q: Place, s: string)
    requires (q.Whole? || q.Fraction? || q.Exponent?) && AllDigits(s)
    ensures Reach(q, s) == q
    decreases |s|
  {
    if s != "" {
      ReachDigits(q, s[1..]);
    }
  }

  // ---------------------------------------------------------------- numbers are accepted

  lemma {:induction false} ReachInt(q: Place, s: string)
    requires (q.Begin? || q.Minus?) && IsInt(s)
    ensures Reach(q, s).Zero? || Reach(q, s).Whole?
  {
    if s[0] == '0' {
      assert s[1..] == "";
    } else {
      ReachDigits(Whole, s[1..]);
    }
  }

  lemma {:induction false} ReachFrac(q: Place, s: string)
    requires (q.Zero? || q.Whole?) && IsFrac(s)
    ensures Reach(q, s) == if s == "" then q else Fraction
  {
    if s != "" {
      ReachDigits(Fraction, s[2..]);
      assert s[1..][1..] == s[2..];
      assert Reach(q, s) == Reach(Point, s[1..]);
      assert IsDigit(s[1..][0]);
    }
  }

  lemma {:induction false} ReachExp(q: Place, s: string)
    requires (q.Zero? || q.Whole? || q.Fraction?) && IsExp(s)
    ensures Reach(q, s) == if s == "" then q else Exponent
  {
    if s != "" {
      assert Reach(q, s) == Reach(Letter, s[1..]);
      if IsSign(s[1]) {
        assert !IsDigit(s[1..][0]);
        assert s[1..][1..] == s[2..] && s[2..][1..] == s[3..];
        assert Reach(Letter, s[1..]) == Reach(Sign, s[2..]);
        assert IsDigit(s[2..][0]);
        ReachDigits(Exponent, s[3..]);
      } else {
        assert IsDigit(s[1..][0]);
        assert s[1..][1..] == s[2..];
        ReachDigits(Exponent, s[2..]);
      }
    }
  }

  lemma {:induction false} PartsAccepted(n: NumberParts)
    requires ValidParts(n)
    ensures Final(Reach(Begin, PartsText(n)))
  {
    hide IsInt, IsFrac, IsExp;
    ReachConcat(Begin, n.minus + n.whole, n.frac + n.exp);
    ReachConcat(Begin, n.minus, n.whole);
    var p := if n.minus == "" then Begin else Minus;
    assert Reach(Begin, n.minus) == p by {
      assert Reach(Minus, "") == Minus && "-"[1..] == "";
    }
    ReachInt(p, n.whole);
    var q := Reach(p, n.whole);
    ReachConcat(q, n.frac, n.exp);
    ReachFrac(q, n.frac);
    ReachExp(Reach(q, n.frac), n.exp);
  }

  // ---------------------------------------------------------------- what is accepted is a number

  /** The parts read so far. */
  predicate Holds(q: Place, n: NumberParts) {
    && (n.minus == "" || n.minus == "-")
    && match q
       case Begin => n == NumberParts("", "", "", "")
       case Minus => n == NumberParts("-", "", "", "")
       case Zero => n.whole == "0" && n.frac == "" && n.exp == ""
       case Whole => n.whole != "" && AllDigits(n.whole) && n.whole[0] != '0' && n.frac == "" && n.exp == ""
       case Point => IsInt(n.whole) && n.frac == "." && n.exp == ""
       case Fraction => IsInt(n.whole) && n.frac != "" && IsFrac(n.frac) && n.exp == ""
       case Letter => IsInt(n.whole) && IsFrac(n.frac) && |n.exp| == 1 && IsE(n.exp[0])
       case Sign => IsInt(n.whole) && IsFrac(n.frac) && |n.exp| == 2 && IsE(n.exp[0]) && IsSign(n.exp[1])
       case Exponent => IsInt(n.whole) && IsFrac(n.frac) && n.exp != "" && IsExp(n.exp)
       case Wrong => true
  }

  /** The parts with one more character. */
  function Grown(q: Place, n: NumberParts, c: char): NumberParts {
    match Next(q, c)
    case Begin => n
    case Minus => n.(minus := n.minus + [c])
    case Zero => n.(whole := n.whole + [c])
    case Whole => n.(whole := n.whole + [c])
    case Point => n.(frac := n.frac + [c])
    case Fraction => n.(frac := n.frac + [c])
    case Letter => n.(exp := n.exp + [c])
    case Sign => n.(exp := n.exp + [c])
    case Exponent => n.(exp := n.exp + [c])
    case Wrong => n
  }

  lemma {:induction false} DigitsAppend(s: string, c: char)
    requires AllDigits(s) && IsDigit(c)
    ensures AllDigits(s + [c])
  {
  }

  lemma {:induction false} GrownHolds(q: Place, n: NumberParts, c: char)
    requires Holds(q, n) && !Next(q, c).Wrong?
    ensures Holds(Next(q, c), Grown(q, n, c))
  {
    match q
    case Whole => if IsDigit(c) { DigitsAppend(n.whole, c); }
    case Fraction =>
      if IsDigit(c) {
        DigitsAppend(n.frac[1..], c);
        assert (n.frac + [c])[1..] == n.frac[1..] + [c];
      }
    case Point => assert (n.frac + [c])[1..] == [c];
    case Letter => assert (n.exp + [c])[1..] == [c];
    case Sign => assert (n.exp + [c])[2..] == [c];
    case Exponent => GrownExponent(n.exp, c);
    case _ =>
  }

  lemma {:induction false} GrownExponent(e: string, c: char)
    requires e != "" && IsExp(e) && IsDigit(c)
    ensures IsExp(e + [c])
  {
    assert (e + [c])[1..] == e[1..] + [c];
    if AllDigits(e[1..]) {
      DigitsAppend(e[1..], c);
    } else {
      assert (e + [c])[2..] == e[2..] + [c];
      DigitsAppend(e[2..], c);
    }
  }

  lemma {:induction false} GrownText(q: Place, n: NumberParts, c: char)
    requires Holds(q, n) && !Next(q, c).Wrong?
    ensures PartsText(Grown(q, n, c)) == PartsText(n) + [c]
  {
    hide IsInt, IsFrac, IsExp, AllDigits, PartsText;
    match Next(q, c)
    case Minus => GrowWhole(n.minus, n.whole, c);
    case Zero => GrowWhole(n.minus, n.whole, c);
    case Whole => GrowWhole(n.minus, n.whole, c);
    case Point => GrowFrac(n.minus, n.whole, n.frac, c);
    case Fraction => GrowFrac(n.minus, n.whole, n.frac, c);
    case _ => GrowExp(n.minus, n.whole, n.frac, n.exp, c);
  }

  lemma {:induction false} GrowWhole(m: string, w: string, c: char)
    ensures PartsText(NumberParts(m, w + [c], "", "")) == PartsText(NumberParts(m, w, "", "")) + [c]
    ensures w == "" ==> PartsText(NumberParts(m + [c], w, "", "")) == PartsText(NumberParts(m, w, "", "")) + [c]
  {
    assert PartsText(NumberParts(m, w, "", "")) == m + w;
    assert PartsText(NumberParts(m, w + [c], "", "")) == m + w + [c];
    assert w == "" ==> PartsText(NumberParts(m + [c], w, "", "")) == m + [c];
  }

  lemma {:induction false} GrowFrac(m: string, w: string, f: string, c: char)
    ensures PartsText(NumberParts(m, w, f + [c], "")) == PartsText(NumberParts(m, w, f, "")) + [c]
  {
    assert PartsText(NumberParts(m, w, f, "")) == m + w + f;
    assert PartsText(NumberParts(m, w, f + [c], "")) == m + w + f + [c];
  }

  lemma {:induction false} GrowExp(m: string, w: string, f: string, e: string, c: char)
    ensures PartsText(NumberParts(m, w, f, e + [c])) == PartsText(NumberParts(m, w, f, e)) + [c]
  {
    assert m + w + (f + (e + [c])) == m + w + (f + e) + [c];
  }

  lemma {:induction false} PartsRead(s: string) returns (n: NumberParts)
    requires !Reach(Begin, s).Wrong?
    ensures PartsText(n) == s && Holds(Reach(Begin, s), n)
    decreases |s|
  {
    if s == "" {
      n := NumberParts("", "", "", "");
    } else {
      var k := |s| - 1;
      assert s == s[..k] + [s[k]];
      ReachConcat(Begin, s[..k], [s[k]]);
      var q := Reach(Begin, s[..k]);
      assert [s[k]][1..] == "" && Reach(q, [s[k]]) == Reach(Next(q, s[k]), "") == Next(q, s[k]);
      var m := PartsRead(s[..k]);
      hide Holds;
      GrownHolds(q, m, s[k]);
      GrownText(q, m, s[k]);
      n := Grown(q, m, s[k]);
    }
  }

  /** The two descriptions of numbers agree on every text. */
  lemma {:induction false} NumbersExactly(s: string)
    ensures IsNumber(s) <==> Final(Reach(Begin, s))
  {
    if IsNumber(s) {
      var n :| ValidParts(n) && PartsText(n) == s;
      PartsAccepted(n);
    }
    if Final(Reach(Begin, s)) {
      var n := PartsRead(s);
      HoldsValid(Reach(Begin, s), n);
      assert ValidParts(n) && PartsText(n) == s;
    }
  }

  lemma {:induction false} HoldsValid(q: Place, n: NumberParts)
    requires Final(q) && Holds(q, n)
    ensures ValidParts(n)
  {
  }
}
