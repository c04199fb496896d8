/**
 What the evaluator's operators, literals and table mean, as laws over results: none names
 how a result is computed. The same for texts: which symbol stands for which operation.
 */
module CalcLaws {
  import opened Options
  import opened CalcTrees
  import opened CalcSyntax
  import opened CalcParser
  import opened CalcPrinter

  // ---------------------------------------------------------------- arithmetic

  /** Adding is counting on. */
  lemma {:induction false} AddLaws(bits: BitOps, a: int, b: int)
    ensures Calculate(bits, Add, a, 0) == Some(a)
    ensures Calculate(bits, Add, a, b).Some?
    ensures Calculate(bits, Add, a, b + 1) == Some(Calculate(bits, Add, a, b).value + 1)
  {
  }

  /** Subtracting undoes adding. */
  lemma {:induction false} SubLaw(bits: BitOps, a: int, b: int, c: int)
    requires Calculate(bits, Add, a, b) == Some(c)
    ensures Calculate(bits, Sub, c, b) == Some(a) && Calculate(bits, Sub, c, a) == Some(b)
  {
  }

  /** Multiplying is adding repeatedly. */
  lemma {:induction false} MulLaws(bits: BitOps, a: int, b: int)
    ensures Calculate(bits, Mul, a, 0) == Some(0)
    ensures Calculate(bits, Mul, a, b).Some?
    ensures Calculate(bits, Mul, a, b + 1) == Calculate(bits, Add, Calculate(bits, Mul, a, b).value, a)
  {
  }

  /** Quotient and remainder exist exactly for a divisor other than 0; they make up the
      dividend, the remainder is smaller than the divisor and has the dividend's sign. */
  lemma {:induction false} DivLaws(bits: BitOps, a: int, b: int)
    ensures Calculate(bits, Div, a, b).Some? <==> b != 0
    ensures Calculate(bits, Mod, a, b).Some? <==> b != 0
    ensures b != 0 ==>
              var q, r := Calculate(bits, Div, a, b).value, Calculate(bits, Mod, a, b).value;
              var product := Calculate(bits, Mul, b, q);
              && product.Some? && Calculate(bits, Add, product.value, r) == Some(a)
              && Magnitude(r) < Magnitude(b) && (r != 0 ==> (r < 0 <==> a < 0))
  {
    if b != 0 {
      TruncatingDivision(a, b);
    }
  }

  /** No other pair has these properties. */
  lemma {:induction false} DivUnique(bits: BitOps, a: int, b: int, q: int, r: int)
    requires b != 0 && b * q + r == a && Magnitude(r) < Magnitude(b) && (r != 0 ==> (r < 0 <==> a < 0))
    ensures Calculate(bits, Div, a, b) == Some(q) && Calculate(bits, Mod, a, b) == Some(r)
  {
    hide Quotient, Remainder;
    TruncatingDivision(a, b);
    var p, s := Quotient(a, b), Remainder(a, b);
    assert b * (q - p) == s - r by {
      assert b * (q - p) == b * q - b * p;
    }
    SmallMultiple(b, q - p, s - r);
  }

  /** A multiple of b smaller than b is 0. */
  lemma {:induction false} SmallMultiple(b: int, k: int, m: int)
    requires b * k == m && Magnitude(m) < Magnitude(b)
    ensures k == 0 && m == 0
  {
    if k != 0 {
      MagnitudeGrows(b, k);
    }
  }

  /** Raising to a power is multiplying repeatedly; a negative exponent counts as 0. */
  lemma {:induction false} PowLaws(bits: BitOps, a: int, n: int)
    ensures n <= 0 ==> Calculate(bits, Pow, a, n) == Some(1)
    ensures Calculate(bits, Pow, a, n).Some?
    ensures n >= 0 ==> Calculate(bits, Pow, a, n + 1) == Calculate(bits, Mul, a, Calculate(bits, Pow, a, n).value)
  {
  }

  /** Scientific notation multiplies by a power of ten. */
  lemma {:induction false} ExpLaw(bits: BitOps, a: int, n: int)
    ensures Calculate(bits, Pow, 10, n).Some?
    ensures Calculate(bits, Exp, a, n) == Calculate(bits, Mul, a, Calculate(bits, Pow, 10, n).value)
  {
  }

  lemma {:induction false} SignLaws(x: int)
    ensures UnaryValue(Minus, x) + x == 0
    ensures UnaryValue(Complement, x) + x == -1
    ensures UnaryValue(Plus, x) == x
  {
  }

  // ---------------------------------------------------------------- characters and literals

  /** White space is that of the C locale, by code points. */
  lemma {:induction false} SpacesExactly(c: char)
    ensures IsSpace(c) <==> c as int == 0x20 || 0x09 <= c as int <= 0x0D
  {
  }

  /** A character's value as a digit is its place among the sixteen, in either case. */
  lemma {:induction false} DigitsExactly(c: char, k: nat)
    requires k < 16
    ensures DigitOf(c) == k <==> c == "0123456789abcdef"[k] || c == "0123456789ABCDEF"[k]
  {
  }

  /** Digits count from the right: a zero in front changes nothing... */
  lemma {:induction false} LeadingZero(s: string, c: char, radix: nat)
    requires DigitOf(c) == 0
    ensures DigitsValue([c] + s, radix) == DigitsValue(s, radix)
    decreases |s|
  {
    hide DigitOf;
    if s == "" {
      assert [c] + s == "" + [c];
      DigitsSnoc("", c, radix);
    } else {
      var n := |s| - 1;
      LeadingZero(s[..n], c, radix);
      assert s == s[..n] + [s[n]] && [c] + s == ([c] + s[..n]) + [s[n]];
      hide DigitsValue;
      DigitsSnoc(s[..n], s[n], radix);
      DigitsSnoc([c] + s[..n], s[n], radix);
    }
  }

  /** ...and a zero behind makes the rest count radix times as much. */
  lemma {:induction false} TrailingZero(s: string, c: char, radix: nat)
    requires DigitOf(c) == 0
    ensures DigitsValue(s + [c], radix) == radix * DigitsValue(s, radix)
  {
    hide DigitsValue, DigitOf;
    DigitsSnoc(s, c, radix);
    Commutes(radix, DigitsValue(s, radix));
  }

  lemma {:induction false} Commutes(a: int, b: int)
    ensures a * b == b * a
  {
  }

  lemma {:induction false} DigitsSnoc(s: string, c: char, radix: nat)
    ensures DigitsValue(s + [c], radix) == DigitsValue(s, radix) * radix + DigitOf(c)
    ensures DigitsValue("", radix) == 0
  {
    assert (s + [c])[..|s|] == s;
  }

  /** The hexadecimal digits of a number. */
  function Hex(n: nat): string {
    if n < 16 then ["0123456789abcdef"[n]] else Hex(n / 16) + ["0123456789abcdef"[n % 16]]
  }

  lemma {:induction false} HexReads(n: nat)
    ensures Hex(n) != "" && AllDigits(Hex(n), 16) && DigitsValue(Hex(n), 16) == n
  {
    DigitsExactly("0123456789abcdef"[n % 16], n % 16);
    if n < 16 {
      assert Hex(n)[..0] == "";
    } else {
      HexReads(n / 16);
      assert Hex(n)[..|Hex(n)| - 1] == Hex(n / 16);
    }
  }

  // ---------------------------------------------------------------- texts

  lemma {:induction false} ValidEvaluates(bits: BitOps, text: string, e: Expr)
    requires ValidExpr(e) && ExprText(e) == text
    ensures EvalText(bits, text) == Evaluate(bits, ExprAst(e))
  {
    ReadWholeExact(text, e);
  }

  lemma {:induction false} OperandEvaluates(bits: BitOps, v: Operand)
    requires ValidOperand(v)
    ensures EvalText(bits, OperandText(v)) == Evaluate(bits, OperandAst(v))
  {
    var e := Expr(v, End(""));
    assert ExprText(e) == OperandText(v);
    ValidEvaluates(bits, OperandText(v), e);
    assert ExprAst(e) == OperandAst(v);
  }

  /** A number's decimal digits, and its hexadecimal ones after `0x` or `0X`, evaluate to it. */
  lemma {:induction false} LiteralText(bits: BitOps, n: nat, prefix: string)
    requires prefix == "0x" || prefix == "0X"
    ensures EvalText(bits, Decimal(n)) == Some(n)
    ensures EvalText(bits, prefix + Hex(n)) == Some(n)
  {
    DecimalLiteral(n);
    NumberText(bits, Decimal(n));
    HexLiteral(n, prefix);
    NumberText(bits, prefix + Hex(n));
  }

  lemma {:induction false} NumberText(bits: BitOps, s: string)
    requires IsLiteral(s)
    ensures EvalText(bits, s) == Some(LiteralValue(s))
  {
    hide IsLiteral, LiteralValue, EvalText;
    var v := Number("", s);
    assert OperandText(v) == s;
    OperandEvaluates(bits, v);
  }

  lemma {:induction false} HexLiteral(n: nat, prefix: string)
    requires prefix == "0x" || prefix == "0X"
    ensures IsLiteral(prefix + Hex(n)) && LiteralValue(prefix + Hex(n)) == n
  {
    hide Hex, DigitsValue;
    HexReads(n);
    assert (prefix + Hex(n))[2..] == Hex(n);
  }

  /** Signs before a number. */
  lemma {:induction false} SignTexts(bits: BitOps, n: nat)
    ensures EvalText(bits, "-" + Decimal(n)) == Some(0 - n)
    ensures EvalText(bits, "+" + Decimal(n)) == Some(n)
    ensures EvalText(bits, "~" + Decimal(n)) == Some(-1 - n)
  {
    SignText(bits, Minus, n);
    SignText(bits, Plus, n);
    SignText(bits, Complement, n);
  }

  lemma {:induction false} SignText(bits: BitOps, op: UnOp, n: nat)
    ensures EvalText(bits, UnOpText(op) + Decimal(n)) == Some(UnaryValue(op, n))
  {
    hide EvalText, UnaryValue, LiteralValue, IsLiteral, Decimal;
    DecimalLiteral(n);
    var v := Signed("", op, Number("", Decimal(n)));
    SignedIs(v, op, Decimal(n));
    OperandEvaluates(bits, v);
    SignedValue(bits, op, n, OperandAst(v));
  }

  lemma {:induction false} SignedIs(v: Operand, op: UnOp, digits: string)
    requires v == Signed("", op, Number("", digits)) && IsLiteral(digits)
    ensures OperandText(v) == UnOpText(op) + digits && ValidOperand(v)
    ensures OperandAst(v) == Unary(op, Literal(LiteralValue(digits)))
  {
    hide IsLiteral, LiteralValue, UnOpText;
    var inner := v.operand;
    assert OperandText(inner) == "" + digits && "" + digits == digits;
    assert OperandText(v) == "" + UnOpText(op) + digits && "" + UnOpText(op) == UnOpText(op);
    assert AllSpace("");
  }

  lemma {:induction false} SignedValue(bits: BitOps, op: UnOp, n: nat, a: Ast)
    requires a == Unary(op, Literal(n))
    ensures Evaluate(bits, a) == Some(UnaryValue(op, n))
  {
    assert Evaluate(bits, a.arg) == Some(n);
  }

  lemma {:induction false} BinaryText(bits: BitOps, a: nat, op: BinOp, s: string, b: nat)
    requires IsBinOpText(op, s)
    ensures EvalText(bits, Decimal(a) + s + Decimal(b)) == Calculate(bits, op, a, b)
  {
    DecimalLiteral(a);
    DecimalLiteral(b);
    var v, w := Number("", Decimal(a)), Number("", Decimal(b));
    var e := Expr(v, More("", op, s, w, End("")));
    hide Calculate, Decimal, IsLiteral, IsHexLiteral, LiteralValue, IsBinOpText;
    BinaryParts(v, op, s, w);
    ValidEvaluates(bits, Decimal(a) + s + Decimal(b), e);
  }

  lemma {:induction false} BinaryParts(v: Operand, op: BinOp, s: string, w: Operand)
    requires v.Number? && w.Number? && v.ws == w.ws == ""
    ensures var e := Expr(v, More("", op, s, w, End("")));
            && ExprText(e) == v.digits + s + w.digits
            && ExprAst(e) == Binary(op, OperandAst(v), OperandAst(w))
  {
    BinaryTextIs(v, op, s, w);
    var rest := More("", op, s, w, End(""));
    assert RestAsts(rest.rest) == [];
    assert RestAsts(rest) == [(op, OperandAst(w))];
    OneItem(OperandAst(v), op, OperandAst(w));
    NodeAst(op, OperandAst(v), OperandAst(w));
  }

  lemma {:induction false} BinaryTextIs(v: Operand, op: BinOp, s: string, w: Operand)
    requires v.Number? && w.Number? && v.ws == w.ws == ""
    ensures ExprText(Expr(v, More("", op, s, w, End("")))) == v.digits + s + w.digits
  {
    var rest := More("", op, s, w, End(""));
    assert RestText(rest.rest) == "";
    assert OperandText(v) == v.digits && OperandText(w) == w.digits;
    assert RestText(rest) == "" + s + OperandText(w) + "";
    assert RestText(rest) == s + w.digits;
    assert v.digits + (s + w.digits) == v.digits + s + w.digits;
  }

  lemma {:induction false} NodeAst(op: BinOp, l: Ast, r: Ast)
    ensures ToAst(Node(op, Leaf(l), Leaf(r))) == Binary(op, l, r)
  {
    assert ToAst(Leaf(l)) == l && ToAst(Leaf(r)) == r;
  }

  lemma {:induction false} OneItem<A>(a: A, op: BinOp, b: A)
    ensures Build(a, [(op, b)]) == Node(op, Leaf(a), Leaf(b))
  {
    InsertFirst(Leaf(a), (op, b), []);
    InsertFirst(Insert(Leaf(a), op, b), (op, b), []);
    assert [(op, b)] == [(op, b)] + [];
  }

  lemma {:induction false} InsertFirst<A>(t: Tree<A>, item: (BinOp, A), items: seq<(BinOp, A)>)
    ensures InsertAll(t, [item] + items) == InsertAll(Insert(t, item.0, item.1), items)
    ensures InsertAll(t, []) == t
  {
    assert ([item] + items)[1..] == items;
  }

  /** What each symbol between two numbers stands for. */
  lemma {:induction false} SymbolTexts(bits: BitOps, a: nat, b: nat)
    ensures EvalText(bits, Decimal(a) + "+" + Decimal(b)) == Some(a + b)
    ensures EvalText(bits, Decimal(a) + "-" + Decimal(b)) == Some(a - b)
    ensures EvalText(bits, Decimal(a) + "*" + Decimal(b)) == Some(a * b)
    ensures EvalText(bits, Decimal(a) + "/" + Decimal(b)) == if b == 0 then None else Some(a / b)
    ensures EvalText(bits, Decimal(a) + "%" + Decimal(b)) == if b == 0 then None else Some(a % b)
    ensures EvalText(bits, Decimal(a) + "|" + Decimal(b)) == Some(bits.or(a, b))
    ensures EvalText(bits, Decimal(a) + "^" + Decimal(b)) == Some(bits.xor(a, b))
    ensures EvalText(bits, Decimal(a) + "&" + Decimal(b)) == Some(bits.and(a, b))
    ensures EvalText(bits, Decimal(a) + "<<" + Decimal(b)) == Some(bits.shl(a, b))
    ensures EvalText(bits, Decimal(a) + ">>" + Decimal(b)) == Some(bits.shr(a, b))
  {
    hide EvalText, Decimal;
    BinaryText(bits, a, Add, "+", b);
    BinaryText(bits, a, Sub, "-", b);
    BinaryText(bits, a, Mul, "*", b);
    BinaryText(bits, a, Div, "/", b);
    BinaryText(bits, a, Mod, "%", b);
    BinaryText(bits, a, Or, "|", b);
    BinaryText(bits, a, Xor, "^", b);
    BinaryText(bits, a, And, "&", b);
    BinaryText(bits, a, Shl, "<<", b);
    BinaryText(bits, a, Shr, ">>", b);
  }

  /** Powers: `**` multiplies the first number with itself, `e` and `E` the number 10. */
  lemma {:induction false} PowerTexts(bits: BitOps, a: nat, n: nat)
    ensures EvalText(bits, Decimal(a) + "**" + Decimal(0)) == Some(1)
    ensures EvalText(bits, Decimal(a) + "e" + Decimal(0)) == Some(a)
    ensures EvalText(bits, Decimal(a) + "E" + Decimal(n)) == EvalText(bits, Decimal(a) + "e" + Decimal(n))
    ensures var p := EvalText(bits, Decimal(a) + "**" + Decimal(n));
            p.Some? && EvalText(bits, Decimal(a) + "**" + Decimal(n + 1)) == Some(a * p.value)
    ensures var p := EvalText(bits, Decimal(a) + "e" + Decimal(n));
            p.Some? && EvalText(bits, Decimal(a) + "e" + Decimal(n + 1)) == Some(10 * p.value)
  {
    hide EvalText, Decimal;
    BinaryText(bits, a, Pow, "**", 0);
    BinaryText(bits, a, Pow, "**", n);
    BinaryText(bits, a, Pow, "**", n + 1);
    BinaryText(bits, a, Exp, "e", 0);
    BinaryText(bits, a, Exp, "E", n);
    BinaryText(bits, a, Exp, "e", n);
    BinaryText(bits, a, Exp, "e", n + 1);
    Tens(a, n);
  }

  lemma {:induction false} Tens(a: int, n: nat)
    ensures a * Power(10, n + 1) == 10 * (a * Power(10, n))
  {
    assert Power(10, n + 1) == 10 * Power(10, n);
  }

  /** Parentheses around a text with a value keep it. */
  lemma {:induction false} ParenthesesKeep(bits: BitOps, text: string)
    requires EvalText(bits, text).Some?
    ensures EvalText(bits, "(" + text + ")") == EvalText(bits, text)
  {
    var e := ReadWhole(text).value;
    ReadWholeExact(text, e);
    var v := Paren("", e);
    assert "" + "(" + ExprText(e) + ")" == "(" + text + ")";
    OperandEvaluates(bits, v);
  }

  // ---------------------------------------------------------------- the table

  /** The rows of the table from weak to strong, operators of one precedence together. */
  const ROWS: seq<set<BinOp>> :=
    [{Or}, {Xor}, {And}, {Shl, Shr}, {Add, Sub}, {Mul, Div, Mod}, {Pow}, {Exp}]

  lemma {:induction false} RowOf(op: BinOp) returns (i: nat)
    ensures i < |ROWS| && op in ROWS[i]
    ensures forall j :: 0 <= j < |ROWS| && op in ROWS[j] ==> j == i
    ensures op.Pow? || op.Exp? <==> i >= 6
  {
    i := match op
      case Or => 0
      case Xor => 1
      case And => 2
      case Shl | Shr => 3
      case Add | Sub => 4
      case Mul | Div | Mod => 5
      case Pow => 6
      case Exp => 7;
  }

  /** Of two operators the one in the later row takes the operand between them; in one row
      the left one does, but the right one of two `**` or two `e`. */
  lemma {:induction false} GroupsExactly(a: Ast, first: BinOp, b: Ast, second: BinOp, c: Ast, i: nat, j: nat)
    requires i < |ROWS| && first in ROWS[i] && j < |ROWS| && second in ROWS[j]
    ensures ToAst(Build(a, [(first, b), (second, c)])) ==
            if i < j || (i == j && second in {Pow, Exp}) then Binary(first, a, Binary(second, b, c))
            else Binary(second, Binary(first, a, b), c)
  {
    ShiftsByRow(first, second, i, j);
    hide Shifts, InsertAll;
    assert [(first, b), (second, c)] == [(first, b)] + ([(second, c)] + []);
    InsertFirst(Leaf(a), (first, b), [(second, c)]);
    InsertFirst(Insert(Leaf(a), first, b), (second, c), []);
    InsertFirst(Insert(Insert(Leaf(a), first, b), second, c), (second, c), []);
    NodeAst(first, a, b);
    NodeAst(second, b, c);
    assert ToAst(Leaf(a)) == a && ToAst(Leaf(c)) == c;
    assert Insert(Leaf(a), first, b) == Node(first, Leaf(a), Leaf(b));
    assert Insert(Leaf(b), second, c) == Node(second, Leaf(b), Leaf(c));
  }

  lemma {:induction false} ShiftsByRow(first: BinOp, second: BinOp, i: nat, j: nat)
    requires i < |ROWS| && first in ROWS[i] && j < |ROWS| && second in ROWS[j]
    ensures Shifts(first, second) <==> i < j || (i == j && second in {Pow, Exp})
  {
    RowPrec(first, i);
    RowPrec(second, j);
  }

  lemma {:induction false} RowPrec(op: BinOp, i: nat)
    requires i < |ROWS| && op in ROWS[i]
    ensures Prec(op) == [4, 5, 6, 9, 10, 20, 30, 40][i]
  {
  }
}
