/**
 A printer for calculator syntax trees: decimal literals, no white space, and only the
 parentheses the operator table requires. Evaluating the printed text gives the tree's
 value, and no text with the same syntax tree has fewer parentheses.
 */
module CalcPrinter {
  import opened CalcTrees
  import opened CalcSyntax
  import opened CalcParser

  // ---------------------------------------------------------------- decimal literals

  function DigitChar(d: nat): char
    requires d < 10
  {
    '0' + d as char
  }

  function Decimal(n: nat): string {
    if n < 10 then [DigitChar(n)] else Decimal(n / 10) + [DigitChar(n % 10)]
  }

  lemma {:induction false} DecimalReads(n: nat)
    ensures Decimal(n) != "" && AllDigits(Decimal(n), 10)
    ensures DigitsValue(Decimal(n), 10) == n
  {
    if n < 10 {
      assert Decimal(n)[..0] == "";
    } else {
      DecimalReads(n / 10);
      assert Decimal(n)[..|Decimal(n)| - 1] == Decimal(n / 10);
    }
  }

  lemma {:induction false} DecimalLiteral(n: nat)
    ensures IsLiteral(Decimal(n)) && !IsHexLiteral(Decimal(n)) && LiteralValue(Decimal(n)) == n
  {
    DecimalReads(n);
    if |Decimal(n)| > 2 {
      assert IsDigit(Decimal(n)[1], 10);
    }
  }

  // ---------------------------------------------------------------- the printer

  /** The left argument stands without parentheses. */
  predicate InlineLeft(op: BinOp, l: Ast) {
    l.Binary? && !Shifts(l.binary, op)
  }

  /** The right argument stands without parentheses. */
  predicate InlineRight(op: BinOp, r: Ast) {
    r.Binary? && Shifts(op, r.binary)
  }

  /** The operands of the printed expression, arranged as the tree that will be read. */
  function Layout(a: Ast): Tree<Operand>
    decreases a, 0
  {
    match a
    case Literal(n) => Leaf(Number("", Decimal(n)))
    case Unary(op, x) => Leaf(Signed("", op, PrintOperand(x)))
    case Binary(op, l, r) =>
      Node(op,
           if InlineLeft(op, l) then Layout(l) else Leaf(PrintOperand(l)),
           if InlineRight(op, r) then Layout(r) else Leaf(PrintOperand(r)))
  }

  function PrintRest(items: seq<(BinOp, Operand)>): Rest {
    if items == [] then End("")
    else More("", items[0].0, BinOpText(items[0].0), items[0].1, PrintRest(items[1..]))
  }

  function PrintExpr(a: Ast): Expr
    decreases a, 1
  {
    Expr(First(Layout(a)), PrintRest(Items(Layout(a))))
  }

  function PrintOperand(a: Ast): Operand
    decreases a, 2
  {
    match a
    case Literal(n) => Number("", Decimal(n))
    case Unary(op, x) => Signed("", op, PrintOperand(x))
    case Binary(_, _, _) => Paren("", PrintExpr(a))
  }

  // ---------------------------------------------------------------- the printed text is valid

  predicate Plain(v: Operand) {
    ValidOperand(v) && !EndsHex(v)
  }

  predicate AllPlain(items: seq<(BinOp, Operand)>) {
    forall i :: 0 <= i < |items| ==> Plain(items[i].1)
  }

  lemma {:induction false} PrintRestValid(prev: Operand, items: seq<(BinOp, Operand)>)
    requires Plain(prev) && AllPlain(items)
    ensures ValidRest(prev, PrintRest(items))
    decreases |items|
  {
    if items != [] {
      PrintRestValid(items[0].1, items[1..]);
    }
  }

  lemma {:induction false} LayoutPlain(a: Ast)
    ensures Plain(First(Layout(a))) && AllPlain(Items(Layout(a)))
    decreases a, 0
  {
    match a
    case Literal(n) => DecimalLiteral(n);
    case Unary(_, x) => PrintOperandPlain(x);
    case Binary(op, l, r) =>
      if InlineLeft(op, l) { LayoutPlain(l); } else { PrintOperandPlain(l); }
      if InlineRight(op, r) { LayoutPlain(r); } else { PrintOperandPlain(r); }
  }

  lemma {:induction false} PrintExprValid(a: Ast)
    ensures ValidExpr(PrintExpr(a))
    decreases a, 1
  {
    LayoutPlain(a);
    PrintRestValid(First(Layout(a)), Items(Layout(a)));
  }

  lemma {:induction false} PrintOperandPlain(a: Ast)
    ensures Plain(PrintOperand(a))
    decreases a, 2
  {
    match a
    case Literal(n) => DecimalLiteral(n);
    case Unary(_, x) => PrintOperandPlain(x);
    case Binary(_, _, _) => PrintExprValid(a);
  }

  // ---------------------------------------------------------------- the printed text means the tree

  function AstReader(): Operand -> Ast {
    (v: Operand) => OperandAst(v)
  }

  lemma {:induction false} PrintRestAsts(items: seq<(BinOp, Operand)>)
    ensures RestAsts(PrintRest(items)) == MapItems(AstReader(), items)
    decreases |items|
  {
    if items != [] {
      PrintRestAsts(items[1..]);
    }
  }

  lemma {:induction false} LayoutMeans(a: Ast)
    ensures Respects(Layout(a)) && ToAst(MapTree(AstReader(), Layout(a))) == a
    ensures Layout(a).Node? <==> a.Binary?
    ensures a.Binary? ==> Layout(a).op == a.binary
    decreases a, 0
  {
    match a
    case Literal(n) => DecimalLiteral(n);
    case Unary(_, x) => PrintOperandMeans(x);
    case Binary(op, l, r) =>
      if InlineLeft(op, l) { LayoutMeans(l); } else { PrintOperandMeans(l); }
      if InlineRight(op, r) { LayoutMeans(r); } else { PrintOperandMeans(r); }
  }

  lemma {:induction false} PrintExprMeans(a: Ast)
    ensures ExprAst(PrintExpr(a)) == a
    decreases a, 1
  {
    LayoutMeans(a);
    MapTreeShape(AstReader(), Layout(a));
    PrintRestAsts(Items(Layout(a)));
    ExprAstUnique(PrintExpr(a), MapTree(AstReader(), Layout(a)));
  }

  lemma {:induction false} PrintOperandMeans(a: Ast)
    ensures OperandAst(PrintOperand(a)) == a
    decreases a, 2
  {
    match a
    case Literal(n) => DecimalLiteral(n);
    case Unary(_, x) => PrintOperandMeans(x);
    case Binary(_, _, _) => PrintExprMeans(a);
  }

  /** Evaluating a printed tree gives the tree's value, or fails exactly when it divides by zero. */
  lemma {:induction false} PrintEvaluates(bits: BitOps, a: Ast)
    ensures EvalText(bits, ExprText(PrintExpr(a))) == Evaluate(bits, a)
    ensures EvalText(bits, ExprText(PrintExpr(a))).None? <==> HasZeroDivisor(bits, a)
  {
    PrintExprValid(a);
    PrintExprMeans(a);
    ReadWholeExact(ExprText(PrintExpr(a)), PrintExpr(a));
    EvaluateFailsExactly(bits, a);
  }

  // ---------------------------------------------------------------- no fewer parentheses

  function Parens(v: Operand): nat
    decreases v
  {
    match v
    case Number(_, _) => 0
    case Signed(_, _, x) => Parens(x)
    case Paren(_, e) => 1 + ParensExpr(e)
  }

  function ParensExpr(e: Expr): nat
    decreases e
  {
    Parens(e.first) + ParensRest(e.rest)
  }

  function ParensRest(r: Rest): nat
    decreases r
  {
    match r
    case End(_) => 0
    case More(_, _, _, v, tail) => Parens(v) + ParensRest(tail)
  }

  /** A measure that grows with every literal, sign and parenthesis. */
  function Size(v: Operand): nat
    decreases v
  {
    match v
    case Number(_, _) => 1
    case Signed(_, _, x) => 1 + Size(x)
    case Paren(_, e) => 1 + Size(e.first) + SizeRest(e.rest)
  }

  function SizeRest(r: Rest): nat
    decreases r
  {
    match r
    case End(_) => 0
    case More(_, _, _, v, tail) => Size(v) + SizeRest(tail)
  }

  function Sum(f: Operand -> nat, t: Tree<Operand>): nat {
    match t
    case Leaf(v) => f(v)
    case Node(_, l, r) => Sum(f, l) + Sum(f, r)
  }

  function SumItems(f: Operand -> nat, items: seq<(BinOp, Operand)>): nat {
    if items == [] then 0 else f(items[0].1) + SumItems(f, items[1..])
  }

  lemma {:induction false} SumItemsAppend(f: Operand -> nat, xs: seq<(BinOp, Operand)>, ys: seq<(BinOp, Operand)>)
    ensures SumItems(f, xs + ys) == SumItems(f, xs) + SumItems(f, ys)
    decreases |xs|
  {
    if xs == [] {
      assert xs + ys == ys;
    } else {
      assert (xs + ys)[1..] == xs[1..] + ys;
      SumItemsAppend(f, xs[1..], ys);
    }
  }

  lemma {:induction false} SumFlat(f: Operand -> nat, t: Tree<Operand>)
    ensures Sum(f, t) == f(First(t)) + SumItems(f, Items(t))
  {
    if t.Node? {
      SumFlat(f, t.left);
      SumFlat(f, t.right);
      SumItemsAppend(f, Items(t.left) + [(t.op, First(t.right))], Items(t.right));
      SumItemsAppend(f, Items(t.left), [(t.op, First(t.right))]);
    }
  }

  function ParensOf(): Operand -> nat {
    (v: Operand) => Parens(v)
  }

  function SizeOf(): Operand -> nat {
    (v: Operand) => Size(v)
  }

  /** The operands of an expression after the first, as read. */
  function RestOperands(r: Rest): seq<(BinOp, Operand)> {
    match r
    case End(_) => []
    case More(_, op, _, v, tail) => [(op, v)] + RestOperands(tail)
  }

  lemma {:induction false} RestOperandsSums(r: Rest)
    ensures ParensRest(r) == SumItems(ParensOf(), RestOperands(r))
    ensures SizeRest(r) == SumItems(SizeOf(), RestOperands(r))
    ensures RestAsts(r) == MapItems(AstReader(), RestOperands(r))
  {
    if r.More? {
      RestOperandsSums(r.rest);
    }
  }

  lemma {:induction false} PrintRestOperands(items: seq<(BinOp, Operand)>)
    ensures RestOperands(PrintRest(items)) == items
    decreases |items|
  {
    if items != [] {
      PrintRestOperands(items[1..]);
    }
  }

  lemma {:induction false} PrintExprParens(a: Ast)
    ensures ParensExpr(PrintExpr(a)) == Sum(ParensOf(), Layout(a))
  {
    SumFlat(ParensOf(), Layout(a));
    PrintRestOperands(Items(Layout(a)));
    RestOperandsSums(PrintRest(Items(Layout(a))));
  }

  lemma {:induction false} LayoutParens(a: Ast)
    ensures Parens(PrintOperand(a)) == (if a.Binary? then 1 else 0) + Sum(ParensOf(), Layout(a))
  {
    PrintExprParens(a);
  }

  lemma {:induction false} SumPositive(t: Tree<Operand>)
    ensures Sum(SizeOf(), t) >= 1
  {
    if t.Node? {
      SumPositive(t.left);
    } else {
      assert Size(t.item) >= 1;
    }
  }

  lemma {:induction false} FewestInTree(t: Tree<Operand>, a: Ast)
    requires Respects(t) && ToAst(MapTree(AstReader(), t)) == a
    ensures Sum(ParensOf(), t) >= Sum(ParensOf(), Layout(a))
    decreases Sum(SizeOf(), t), 1
  {
    match t
    case Leaf(v) =>
      FewestInOperand(v, a);
      LayoutParens(a);
    case Node(op, tl, tr) =>
      SumPositive(tl);
      SumPositive(tr);
      FewestInTree(tl, a.left);
      FewestInTree(tr, a.right);
      LayoutParens(a.left);
      LayoutParens(a.right);
      if tl.Leaf? {
        FewestInOperand(tl.item, a.left);
      }
      if tr.Leaf? {
        FewestInOperand(tr.item, a.right);
      }
  }

  lemma {:induction false} FewestInOperand(v: Operand, a: Ast)
    requires OperandAst(v) == a
    ensures Parens(v) >= Parens(PrintOperand(a))
    decreases Size(v), 0
  {
    match v
    case Number(_, _) =>
    case Signed(_, _, x) => FewestInOperand(x, a.arg);
    case Paren(_, e) =>
      ExprTree(e);
      FewestInTree(Build(e.first, RestOperands(e.rest)), a);
      LayoutParens(a);
  }

  lemma {:induction false} ExprTree(e: Expr)
    ensures var t := Build(e.first, RestOperands(e.rest));
            && Respects(t) && ToAst(MapTree(AstReader(), t)) == ExprAst(e)
            && Sum(ParensOf(), t) == ParensExpr(e)
            && Sum(SizeOf(), t) == Size(e.first) + SizeRest(e.rest)
  {
    var t := Build(e.first, RestOperands(e.rest));
    TreeExists(e.first, RestOperands(e.rest));
    RestOperandsSums(e.rest);
    MapTreeShape(AstReader(), t);
    ExprAstUnique(e, MapTree(AstReader(), t));
    SumFlat(ParensOf(), t);
    SumFlat(SizeOf(), t);
  }

  /** Only the parentheses the table requires: every text with the same syntax tree has at
      least as many. */
  lemma {:induction false} PrintFewestParens(e: Expr)
    ensures ParensExpr(e) >= ParensExpr(PrintExpr(ExprAst(e)))
  {
    ExprTree(e);
    FewestInTree(Build(e.first, RestOperands(e.rest)), ExprAst(e));
    PrintExprParens(ExprAst(e));
  }
}
