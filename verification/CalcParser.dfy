/**
 `ExpressionParser` of calculator.hpp: syntax trees and their values, and the parser
 class with its character index and the one stack shared by all parenthesis levels,
 proved to return exactly the value of the text's syntax tree.
 */
module CalcParser {
  import opened Options
  import opened CalcTrees
  import opened CalcSyntax
  import opened Texts

  // ---------------------------------------------------------------- syntax trees

  datatype Ast =
    | Literal(n: nat)
    | Unary(unary: UnOp, arg: Ast)
    | Binary(binary: BinOp, left: Ast, right: Ast)

  function UnaryValue(op: UnOp, x: int): int {
    match op
    case Complement => -x - 1
    case Plus => x
    case Minus => -x
  }

  function Evaluate(bits: BitOps, a: Ast): Option<int> {
    match a
    case Literal(n) => Some(n)
    case Unary(op, x) =>
      var v := Evaluate(bits, x);
      if v.Some? then Some(UnaryValue(op, v.value)) else None
    case Binary(op, l, r) => Apply(bits, op, Evaluate(bits, l), Evaluate(bits, r))
  }

  /** Somewhere in the tree a division or modulo has a right argument with value 0. */
  predicate HasZeroDivisor(bits: BitOps, a: Ast) {
    match a
    case Literal(_) => false
    case Unary(_, x) => HasZeroDivisor(bits, x)
    case Binary(op, l, r) =>
      || HasZeroDivisor(bits, l) || HasZeroDivisor(bits, r)
      || ((op == Div || op == Mod) && Evaluate(bits, r) == Some(0))
  }

  /** A tree has a value unless it divides by zero. */
  lemma {:induction false} EvaluateFailsExactly(bits: BitOps, a: Ast)
    ensures Evaluate(bits, a).None? <==> HasZeroDivisor(bits, a)
  {
    match a
    case Literal(_) =>
    case Unary(_, x) => EvaluateFailsExactly(bits, x);
    case Binary(_, l, r) =>
      EvaluateFailsExactly(bits, l);
      EvaluateFailsExactly(bits, r);
  }

  function ToAst(t: Tree<Ast>): Ast {
    match t
    case Leaf(a) => a
    case Node(op, l, r) => Binary(op, ToAst(l), ToAst(r))
  }

  function OperandAst(v: Operand): Ast
    decreases v
  {
    match v
    case Number(_, digits) => Literal(LiteralValue(digits))
    case Signed(_, op, x) => Unary(op, OperandAst(x))
    case Paren(_, e) => ExprAst(e)
  }

  /** The syntax tree of an expression: the tree the table prescribes for its operands. */
  function ExprAst(e: Expr): Ast
    decreases e
  {
    ToAst(Build(OperandAst(e.first), RestAsts(e.rest)))
  }

  function RestAsts(r: Rest): seq<(BinOp, Ast)>
    decreases r
  {
    match r
    case End(_) => []
    case More(_, op, _, v, tail) => [(op, OperandAst(v))] + RestAsts(tail)
  }

  /** Any tree over the expression's operands that obeys the table is its syntax tree. */
  lemma {:induction false} ExprAstUnique(e: Expr, t: Tree<Ast>)
    requires Respects(t) && First(t) == OperandAst(e.first) && Items(t) == RestAsts(e.rest)
    ensures ExprAst(e) == ToAst(t)
  {
    TreeExists(OperandAst(e.first), RestAsts(e.rest));
    TreeUnique(t, Build(OperandAst(e.first), RestAsts(e.rest)));
  }

  // ---------------------------------------------------------------- values by the machine

  function Evaluator(bits: BitOps): Ast -> Option<int> {
    (a: Ast) => Evaluate(bits, a)
  }

  lemma {:induction false} ToAstValue(bits: BitOps, t: Tree<Ast>)
    ensures Evaluate(bits, ToAst(t)) == TreeValue(bits, MapTree(Evaluator(bits), t))
  {
    if t.Node? {
      ToAstValue(bits, t.left);
      ToAstValue(bits, t.right);
    }
  }

  function RestValues(bits: BitOps, r: Rest): seq<Pending> {
    match r
    case End(_) => []
    case More(_, op, _, v, tail) => [(op, Evaluate(bits, OperandAst(v)))] + RestValues(bits, tail)
  }

  lemma {:induction false} RestValuesMap(bits: BitOps, r: Rest)
    ensures RestValues(bits, r) == MapItems(Evaluator(bits), RestAsts(r))
  {
    if r.More? {
      RestValuesMap(bits, r.rest);
    }
  }

  /** The shift/reduce machine, run over an expression's operand values, computes the
      value of its syntax tree. */
  lemma {:induction false} RunIsEvaluate(bits: BitOps, e: Expr)
    ensures Run(bits, [], Evaluate(bits, OperandAst(e.first)), RestValues(bits, e.rest)) == Evaluate(bits, ExprAst(e))
  {
    var f := Evaluator(bits);
    var t := Build(OperandAst(e.first), RestAsts(e.rest));
    TreeExists(OperandAst(e.first), RestAsts(e.rest));
    MapTreeShape(f, t);
    RestValuesMap(bits, e.rest);
    ToAstValue(bits, t);
    RunIsTreeValue(bits, MapTree(f, t));
  }

  // ---------------------------------------------------------------- the parser's stack

  datatype OpCode = NullOp | BinaryOp(op: BinOp)

  /** An operator as `parseOp` returns it. */
  datatype Operator = Operator(code: OpCode, precedence: nat, associativity: char)

  datatype OperatorValue = OperatorValue(op: Operator, value: int)

  const NULL_OPERATOR := Operator(NullOp, 0, 'L')

  function TableEntry(op: BinOp): Operator {
    Operator(BinaryOp(op), Prec(op), if RightAssoc(op) then 'R' else 'L')
  }

  predicate IsFrame(s: seq<OperatorValue>) {
    forall i :: 0 <= i < |s| ==> s[i].op.code.BinaryOp? && s[i].op == TableEntry(s[i].op.code.op)
  }

  /** A stretch of the parser's stack as the machine sees it. */
  function FrameOf(s: seq<OperatorValue>): (f: seq<Pending>)
    requires IsFrame(s)
    ensures |f| == |s|
    ensures forall i :: 0 <= i < |s| ==> f[i] == (s[i].op.code.op, Some(s[i].value))
  {
    if s == [] then [] else FrameOf(s[..|s| - 1]) + [(s[|s| - 1].op.code.op, Some(s[|s| - 1].value))]
  }

  // ---------------------------------------------------------------- what the parser returns

  /** The result for a whole text; `None` is a thrown `calculator::error`. */
  function EvalText(bits: BitOps, text: string): Option<int> {
    match ReadWhole(text)
    case None => None
    case Some(e) => Evaluate(bits, ExprAst(e))
  }

  /** A value is returned exactly for the texts of valid expressions without a zero
      divisor, and it is the value of the expression's syntax tree. */
  lemma {:induction false} EvalTextExact(bits: BitOps, text: string, n: int)
    ensures EvalText(bits, text) == Some(n) <==>
            exists e :: ValidExpr(e) && ExprText(e) == text
                        && !HasZeroDivisor(bits, ExprAst(e)) && Evaluate(bits, ExprAst(e)) == Some(n)
  {
    if ReadWhole(text).Some? {
      var e := ReadWhole(text).value;
      ReadWholeExact(text, e);
      EvaluateFailsExactly(bits, ExprAst(e));
      assert ValidExpr(e) && ExprText(e) == text;
    }
    if e :| ValidExpr(e) && ExprText(e) == text
            && !HasZeroDivisor(bits, ExprAst(e)) && Evaluate(bits, ExprAst(e)) == Some(n) {
      ReadWholeExact(text, e);
    }
  }

  /** The result from position i with a parenthesis level starting there. */
  function ExprOutcome(bits: BitOps, text: string, i: nat): Option<int>
    requires i <= |text|
  {
    match ReadExpr(text, i)
    case None => None
    case Some((e, _)) => Evaluate(bits, ExprAst(e))
  }

  function OperandOutcome(bits: BitOps, text: string, i: nat): Option<int>
    requires i <= |text|
  {
    match ReadOperand(text, i)
    case None => None
    case Some((v, _)) => Evaluate(bits, OperandAst(v))
  }

  lemma {:induction false} OperandOutcomeNone(bits: BitOps, text: string, i: nat)
    requires i <= |text|
    ensures ReadOperand(text, i).None? ==> OperandOutcome(bits, text, i).None?
  {
  }

  lemma {:induction false} ExprOutcomeNone(bits: BitOps, text: string, i: nat)
    requires i <= |text|
    ensures ReadExpr(text, i).None? ==> ExprOutcome(bits, text, i).None?
  {
  }

  /** How an operand's result comes from its parts. */
  lemma {:induction false} OperandOutcomeParts(bits: BitOps, text: string, i: nat)
    requires i <= |text|
    ensures var j := SkipSpaces(text, i);
            var end := if ReadOperand(text, i).Some? then ReadOperand(text, i).value.1 else 0;
            if j == |text| then ReadOperand(text, i).None?
            else if IsDigit(text[j], 10) then
              && ReadOperand(text, i).Some? && end == LiteralEnd(text, j)
              && OperandOutcome(bits, text, i) == Some(LiteralValue(text[j..end]))
            else if text[j] == '(' then
              match ReadExpr(text, j + 1)
              case None => ReadOperand(text, i).None?
              case Some((e, k)) =>
                && SkipSpaces(text, k) == k
                && if k < |text| && text[k] == ')'
                   then end == k + 1 && OperandOutcome(bits, text, i) == ExprOutcome(bits, text, j + 1)
                   else ReadOperand(text, i).None?
            else if ScanUnOp(text[j]).None? || ReadOperand(text, j + 1).None? then
              ReadOperand(text, i).None?
            else
              var inner := OperandOutcome(bits, text, j + 1);
              && end == ReadOperand(text, j + 1).value.1
              && OperandOutcome(bits, text, i) ==
                 if inner.Some? then Some(UnaryValue(ScanUnOp(text[j]).value, inner.value)) else None
  {
    var j := SkipSpaces(text, i);
    if j < |text| && !IsDigit(text[j], 10) && text[j] == '(' && ReadExpr(text, j + 1).Some? {
      ReadExprEnd(text, j + 1);
    }
  }

  lemma {:induction false} ReadRestEnd(text: string, i: nat)
    requires i <= |text| && ReadRest(text, i).Some?
    ensures var k := ReadRest(text, i).value.1; SkipSpaces(text, k) == k
    decreases |text| - i
  {
    SkipWhileTwice(IsSpace, text, i);
    var j := SkipSpaces(text, i);
    if ScanOp(text, j).Found? {
      ReadRestEnd(text, ReadOperand(text, j + ScanOp(text, j).length).value.1);
    }
  }

  lemma {:induction false} ReadExprEnd(text: string, i: nat)
    requires i <= |text| && ReadExpr(text, i).Some?
    ensures var k := ReadExpr(text, i).value.1; SkipSpaces(text, k) == k
  {
    ReadRestEnd(text, ReadOperand(text, i).value.1);
  }

  /** The result from position i in the middle of a level, with the level's stack frame
      and current value given. */
  function RestOutcome(bits: BitOps, frame: seq<Pending>, v: Option<int>, text: string, i: nat): Option<int>
    requires i <= |text|
  {
    match ReadRest(text, i)
    case None => None
    case Some((r, _)) => Run(bits, frame, v, RestValues(bits, r))
  }

  /** Reading from `start` and reading on from i end at the same place. */
  predicate SameEnd(text: string, start: nat, i: nat)
    requires start <= |text| && i <= |text|
  {
    match ReadRest(text, i)
    case None => ReadExpr(text, start).None?
    case Some((_, k)) => ReadExpr(text, start).Some? && ReadExpr(text, start).value.1 == k
  }

  lemma {:induction false} RestOutcomeFailed(bits: BitOps, frame: seq<Pending>, v: Option<int>, text: string, i: nat)
    requires i <= |text| && AnyFailed(frame, v)
    ensures RestOutcome(bits, frame, v, text, i).None?
  {
    if ReadRest(text, i).Some? {
      RunFailed(bits, frame, v, RestValues(bits, ReadRest(text, i).value.0));
    }
  }

  /** The result of a level once its first operand is read. */
  lemma {:induction false} ExprOutcomeStarts(bits: BitOps, text: string, i: nat)
    requires i <= |text|
    ensures var v := OperandOutcome(bits, text, i);
            if v.None? then ExprOutcome(bits, text, i).None?
            else
              var j := ReadOperand(text, i).value.1;
              ExprOutcome(bits, text, i) == RestOutcome(bits, [], v, text, j) && SameEnd(text, i, j)
  {
    hide ReadOperand, ReadRest, Evaluate, Run;
    if ReadExpr(text, i).Some? {
      RunIsEvaluate(bits, ReadExpr(text, i).value.0);
    }
    if ReadOperand(text, i).Some? && OperandOutcome(bits, text, i).None? {
      RestOutcomeFailed(bits, [], None, text, ReadOperand(text, i).value.1);
    }
  }

  /** The reductions that an operator, or the end of the level, causes. */
  function Settle(bits: BitOps, frame: seq<Pending>, v: Option<int>, code: OpCode): (seq<Pending>, Option<int>) {
    match code
    case NullOp => ([], Collapse(bits, frame, v))
    case BinaryOp(op) => Reduce(bits, frame, v, op)
  }

  /** The result once the operator that ends at p has been read and its reductions are done. */
  function SettledOutcome(bits: BitOps, s: (seq<Pending>, Option<int>), code: OpCode, text: string, p: nat): Option<int>
    requires p <= |text|
  {
    match code
    case NullOp => s.1
    case BinaryOp(op) =>
      match ReadOperand(text, p)
      case None => None
      case Some((w, k)) => RestOutcome(bits, s.0 + [(op, s.1)], Evaluate(bits, OperandAst(w)), text, k)
  }

  lemma {:induction false} RestOutcomeSettles(bits: BitOps, frame: seq<Pending>, v: Option<int>, text: string, i: nat)
    requires i <= |text|
    ensures var j := SkipSpaces(text, i);
            match ScanOp(text, j)
            case NoOp =>
              RestOutcome(bits, frame, v, text, i) ==
              SettledOutcome(bits, Settle(bits, frame, v, NullOp), NullOp, text, j)
            case BadOp => RestOutcome(bits, frame, v, text, i).None?
            case Found(op, n) =>
              var code := BinaryOp(op);
              RestOutcome(bits, frame, v, text, i) ==
              SettledOutcome(bits, Settle(bits, frame, v, code), code, text, j + n)
  {
    hide Reduce, Collapse, Evaluate, ReadOperand;
    var j := SkipSpaces(text, i);
    var scan := ScanOp(text, j);
    if scan.Found? && ReadRest(text, i).Some? {
      var r := ReadRest(text, i).value.0;
      RunStep(bits, frame, v, (r.op, Evaluate(bits, OperandAst(r.operand))), RestValues(bits, r.rest));
    }
  }

  /** The guard of the reduction loop. */
  predicate Reduces(top: Operator, op: Operator) {
    op.precedence < top.precedence || (op.precedence == top.precedence && op.associativity == 'L')
  }

  /** An operator as it can come out of the table or from the end of a level. */
  predicate IsEntry(op: Operator) {
    match op.code
    case NullOp => op == NULL_OPERATOR
    case BinaryOp(o) => op == TableEntry(o)
  }

  lemma {:induction false} SettleEmpty(bits: BitOps, v: Option<int>, op: Operator)
    requires IsEntry(op)
    ensures Settle(bits, [], v, op.code) == ([], v)
    ensures Reduces(NULL_OPERATOR, op) == op.code.NullOp?
  {
  }

  lemma {:induction false} SettleReduce(bits: BitOps, frame: seq<OperatorValue>, v: int, op: Operator)
    requires IsEntry(op) && IsFrame(frame) && frame != [] && Reduces(frame[|frame| - 1].op, op)
    ensures var n := |frame| - 1;
            Settle(bits, FrameOf(frame), Some(v), op.code) ==
            Settle(bits, FrameOf(frame[..n]), Calculate(bits, frame[n].op.code.op, frame[n].value, v), op.code)
  {
    assert FrameOf(frame)[..|frame| - 1] == FrameOf(frame[..|frame| - 1]);
  }

  /** The result of a level once the operator is shifted and its right operand is read. */
  lemma {:induction false} SettleShift(bits: BitOps, frame: seq<OperatorValue>, v: int, op: Operator,
                                       text: string, p: nat)
    requires p <= |text| && IsEntry(op) && IsFrame(frame)
    requires !Reduces(if frame == [] then NULL_OPERATOR else frame[|frame| - 1].op, op)
    ensures op.code.BinaryOp? && IsFrame(frame + [OperatorValue(op, v)])
    ensures var s := SettledOutcome(bits, Settle(bits, FrameOf(frame), Some(v), op.code), op.code, text, p);
            var w := OperandOutcome(bits, text, p);
            if w.None? then s.None?
            else s == RestOutcome(bits, FrameOf(frame + [OperatorValue(op, v)]), w, text, ReadOperand(text, p).value.1)
  {
    hide ReadOperand, RestOutcome, Evaluate;
    var g := frame + [OperatorValue(op, v)];
    assert g[..|frame|] == frame;
    var f := FrameOf(frame);
    assert Reduce(bits, f, Some(v), op.code.op) == (f, Some(v));
    if ReadOperand(text, p).Some? && OperandOutcome(bits, text, p).None? {
      RestOutcomeFailed(bits, f + [(op.code.op, Some(v))], None, text, ReadOperand(text, p).value.1);
    }
  }

  lemma {:induction false} SettledNull(bits: BitOps, s: (seq<Pending>, Option<int>), text: string, p: nat)
    requires p <= |text|
    ensures SettledOutcome(bits, s, NullOp, text, p) == s.1
  {
  }

  lemma {:induction false} SameEndNext(text: string, start: nat, i: nat)
    requires start <= |text| && i <= |text| && SameEnd(text, start, i)
    ensures var j := SkipSpaces(text, i);
            match ScanOp(text, j)
            case NoOp => ReadExpr(text, start).Some? && ReadExpr(text, start).value.1 == j
            case BadOp => true
            case Found(op, n) =>
              ReadOperand(text, j + n).Some? ==> SameEnd(text, start, ReadOperand(text, j + n).value.1)
  {
    hide ReadOperand, ReadExpr;
  }

  lemma {:induction false} SettleFailed(bits: BitOps, frame: seq<Pending>, code: OpCode, text: string, p: nat)
    requires p <= |text|
    ensures SettledOutcome(bits, Settle(bits, frame, None, code), code, text, p).None?
  {
    match code
    case NullOp => CollapseFailed(bits, frame, None);
    case BinaryOp(op) =>
      ReduceFailed(bits, frame, None, op);
      if ReadOperand(text, p).Some? {
        var (w, k) := ReadOperand(text, p).value;
        var s := Reduce(bits, frame, None, op);
        FailedPush(s.0, s.1, op);
        RestOutcomeFailed(bits, s.0 + [(op, s.1)], Evaluate(bits, OperandAst(w)), text, k);
      }
  }

  lemma {:induction false} FailedPush(frame: seq<Pending>, v: Option<int>, op: BinOp)
    requires AnyFailed(frame, v)
    ensures forall w :: AnyFailed(frame + [(op, v)], w)
  {
    var f := frame + [(op, v)];
    if v.None? {
      assert f[|frame|].1.None?;
    } else {
      var i :| 0 <= i < |frame| && frame[i].1.None?;
      assert f[i].1.None?;
    }
  }

  // ---------------------------------------------------------------- exponentiation by squaring

  lemma {:induction false} PowerSquare(x: int, m: nat)
    ensures Power(x * x, m) == Power(x, 2 * m)
  {
    if m > 0 {
      PowerSquare(x, m - 1);
      assert Power(x, 2 * m) == x * (x * Power(x, 2 * m - 2));
      assert x * (x * Power(x, 2 * m - 2)) == (x * x) * Power(x, 2 * m - 2);
    }
  }

  lemma {:induction false} PowerZero(x: int, y: int)
    ensures Power(x, 0) == 1
    ensures forall n :: n <= 0 ==> Power(x, n) == 1 && Power(y, n) == 1
  {
  }

  lemma {:induction false} MagnitudeGrows(a: int, b: int)
    requires b != 0
    ensures Magnitude(a) <= Magnitude(a * b)
  {
    if a >= 0 {
      assert b > 0 ==> a * b >= a * 1;
      assert b < 0 ==> a * b <= a * -1;
    } else {
      assert b > 0 ==> a * b <= a * 1;
      assert b < 0 ==> a * b >= a * -1;
    }
  }

  lemma {:induction false} PowerNonzero(x: int, n: int)
    requires x != 0
    ensures Power(x, n) != 0
    decreases n
  {
    if n > 0 {
      PowerNonzero(x, n - 1);
    }
  }

  /** Multiplying into the result keeps it below the final power. */
  lemma {:induction false} OddStep(res: int, x: int, n: int, total: int)
    requires n > 0 && res * Power(x, n) == total && (res == 0 ==> x == 0)
    ensures (res * x) * Power(x, n - 1) == total && Magnitude(res * x) <= Magnitude(total)
    ensures res * x == 0 ==> x == 0
  {
    var rest := Power(x, n - 1);
    assert res * (x * rest) == (res * x) * rest;
    if x != 0 {
      PowerNonzero(x, n - 1);
      MagnitudeGrows(res * x, rest);
    }
  }

  /** Squaring the base stays below the final power while a factor is still due. */
  lemma {:induction false} SquareStep(res: int, x: int, m: int, total: int)
    requires m > 0 && res * Power(x, 2 * m) == total && (res == 0 ==> x == 0)
    ensures res * Power(x * x, m) == total && Magnitude(x * x) <= Magnitude(total)
    ensures res == 0 ==> x * x == 0
  {
    PowerSquare(x, m);
    var rest := Power(x * x, m - 1);
    assert res * ((x * x) * rest) == (x * x) * (res * rest);
    if x != 0 {
      PowerNonzero(x * x, m - 1);
      MagnitudeGrows(x * x, res * rest);
    }
  }

  /** The products that squaring computes from here on, in order: into the result for an
      odd exponent, then the square of the base while a factor is still due. */
  function Products(res: int, x: int, n: int): seq<int>
    decreases n
  {
    if n <= 0 then []
    else
      var odd, due := n % 2 != 0, n / 2 > 0;
      (if odd then [res * x] else [])
      + ((if due then [x * x] else [])
         + Products(if odd then res * x else res, if due then x * x else x, n / 2))
  }

  /** All values that `res` and `x` take, the initial ones first. */
  function PowValues(base: int, exponent: int): seq<int> {
    [1, base] + Products(1, base, exponent)
  }

  lemma {:induction false} ProductsStep(res: int, x: int, n: int)
    requires n > 0
    ensures Products(res, x, n) ==
            (if n % 2 != 0 then [res * x] else [])
            + ((if n / 2 > 0 then [x * x] else [])
               + Products(if n % 2 != 0 then res * x else res, if n / 2 > 0 then x * x else x, n / 2))
  {
  }

  lemma {:induction false} ProductsEnd(res: int, x: int, n: int)
    requires n <= 0
    ensures Products(res, x, n) == []
  {
  }

  lemma {:induction false} Joined(a: seq<int>, b: seq<int>, c: seq<int>)
    ensures a + (b + c) == (a + b) + c
  {
  }

  /** No product exceeds the final power. */
  lemma {:induction false} ProductsBounded(res: int, x: int, n: int, total: int)
    requires res * Power(x, n) == total && (res == 0 ==> x == 0)
    ensures forall p :: p in Products(res, x, n) ==> Magnitude(p) <= Magnitude(total)
    decreases n
  {
    hide Power;
    if n > 0 {
      var m := n / 2;
      var r := if n % 2 != 0 then res * x else res;
      if n % 2 != 0 {
        OddStep(res, x, n, total);
      }
      if m > 0 {
        SquareStep(r, x, m, total);
        ProductsBounded(r, x * x, m, total);
      }
    }
  }

  /** For a positive exponent every value of `res` and `x`, the initial ones included, is at
      most the power in magnitude, exactly if the base is not 0. */
  lemma {:induction false} PowBoundedExactly(base: int, exponent: int)
    requires exponent >= 1
    ensures (forall v :: v in PowValues(base, exponent) ==> Magnitude(v) <= Magnitude(Power(base, exponent)))
            <==> base != 0
  {
    var total := Power(base, exponent);
    assert total == base * Power(base, exponent - 1);
    if base == 0 {
      PowUnbounded(exponent);
    } else {
      PowerNonzero(base, exponent - 1);
      PowerNonzero(base, exponent);
      MagnitudeGrows(base, Power(base, exponent - 1));
      ProductsBounded(1, base, exponent, total);
    }
  }

  /** For base 0 it is the initial result that exceeds the power. */
  lemma {:induction false} PowUnbounded(exponent: int)
    requires exponent >= 1
    ensures 1 in PowValues(0, exponent) && Magnitude(1) > Magnitude(Power(0, exponent))
  {
    assert Power(0, exponent) == 0 * Power(0, exponent - 1);
    assert PowValues(0, exponent)[0] == 1;
  }

  // ---------------------------------------------------------------- the parser class

  class ExpressionParser {
    const bits: BitOps
    var expr: string
    var index: nat
    var stack: seq<OperatorValue>

    /** Between calls the stack is empty. */
    ghost predicate Valid()
      reads this
    {
      index <= |expr| && stack == []
    }

    constructor (bits: BitOps)
      ensures Valid() && this.bits == bits
    {
      this.bits := bits;
      expr, index, stack := "", 0, [];
    }

    /** Evaluates a text; `None` is a thrown error. Whatever the outcome, the parser is
        as good as new, and the outcome depends on the text alone. */
    method Eval(text: string) returns (result: Option<int>)
      requires Valid()
      modifies this
      ensures Valid()
      ensures result == EvalText(bits, text)
    {
      index := 0;
      expr := text;
      result := ParseExpr();
      if result.Some? && index < |expr| {
        result := None;
      }
      if result.None? {
        stack := [];
      }
    }

    /** Exponentiation by squaring. The ghost result lists the values that `res` and `x`
        take; every product among them is at most the power in magnitude. */
    static method Pow(base: int, exponent: int) returns (res: int, ghost values: seq<int>)
      ensures res == Power(base, exponent)
      ensures values == PowValues(base, exponent)
      ensures forall i :: 2 <= i < |values| ==> Magnitude(values[i]) <= Magnitude(Power(base, exponent))
    {
      hide Power, Products;
      res := 1;
      var x, n := base, exponent;
      values := [res, x];
      while n > 0
        invariant res * Power(x, n) == Power(base, exponent)
        invariant exponent > 0 ==> n >= 0
        invariant exponent <= 0 ==> n == exponent && res == 1
        invariant res == 0 ==> x == 0
        invariant values + Products(res, x, n) == PowValues(base, exponent)
      {
        ghost var m := n / 2;
        ghost var odd := if n % 2 != 0 then [res * x] else [];
        ghost var even := if m > 0 then [x * x] else [];
        ghost var rest := Products(if n % 2 != 0 then res * x else res, if m > 0 then x * x else x, m);
        ProductsStep(res, x, n);
        Joined(values, odd, even + rest);
        Joined(values + odd, even, rest);
        if n % 2 != 0 {
          OddStep(res, x, n, Power(base, exponent));
          res := res * x;
          n := n - 1;
          values := values + [res];
        }
        n := n / 2;
        if n > 0 {
          SquareStep(res, x, n, Power(base, exponent));
          x := x * x;
          values := values + [x];
        } else {
          PowerZero(x, base);
        }
      }
      PowerZero(x, base);
      ProductsEnd(res, x, n);
      ProductsBounded(1, base, exponent, Power(base, exponent));
    }

    method Calculate(v1: int, v2: int, op: Operator) returns (r: Option<int>)
      ensures op.code.BinaryOp? ==> r == CalcTrees.Calculate(bits, op.code.op, v1, v2)
      ensures op.code.NullOp? ==> r == Some(0)
    {
      match op.code {
        case NullOp => r := Some(0);
        case BinaryOp(Or) => r := Some(bits.or(v1, v2));
        case BinaryOp(Xor) => r := Some(bits.xor(v1, v2));
        case BinaryOp(And) => r := Some(bits.and(v1, v2));
        case BinaryOp(Shl) => r := Some(bits.shl(v1, v2));
        case BinaryOp(Shr) => r := Some(bits.shr(v1, v2));
        case BinaryOp(Add) => r := Some(v1 + v2);
        case BinaryOp(Sub) => r := Some(v1 - v2);
        case BinaryOp(Mul) => r := Some(v1 * v2);
        case BinaryOp(Div) => r := if v2 == 0 then None else Some(Quotient(v1, v2));
        case BinaryOp(Mod) => r := if v2 == 0 then None else Some(Remainder(v1, v2));
        case BinaryOp(Pow) =>
          var p, _ := Pow(v1, v2);
          r := Some(p);
        case BinaryOp(Exp) =>
          var p, _ := Pow(10, v2);
          r := Some(v1 * p);
      }
    }

    /** The current character, or NUL at the end. */
    function GetCharacter(): char
      reads this
    {
      if index < |expr| then expr[index] else '\0'
    }

    method EatSpaces()
      requires index <= |expr|
      modifies this`index
      ensures index == SkipSpaces(expr, old(index))
    {
      while IsSpace(GetCharacter())
        invariant index <= |expr|
        invariant SkipSpaces(expr, index) == SkipSpaces(expr, old(index))
        decreases |expr| - index
      {
        index := index + 1;
      }
    }

    /** Advances over the expected string, or fails. */
    method Expect(str: string) returns (ok: bool)
      requires index <= |expr|
      modifies this`index
      ensures ok <==> old(index) + |str| <= |expr| && expr[old(index)..old(index) + |str|] == str
      ensures index == if ok then old(index) + |str| else old(index)
    {
      ok := index + |str| <= |expr| && expr[index..index + |str|] == str;
      if ok {
        index := index + |str|;
      }
    }

    /** Expects an angle bracket that stands at the index to be doubled. */
    method ExpectAngles(c: char) returns (ok: bool)
      requires index < |expr| && expr[index] == c
      modifies this`index
      ensures ok <==> old(index) + 1 < |expr| && expr[old(index) + 1] == c
      ensures index == if ok then old(index) + 2 else old(index)
    {
      assert index + 2 <= |expr| ==> expr[index..index + 2] == [expr[index], expr[index + 1]];
      ok := Expect([c, c]);
    }

    /** Reads a binary operator with its table row; `None` is the error on a single angle bracket. */
    method ParseOp() returns (r: Option<Operator>)
      requires index <= |expr|
      modifies this`index
      ensures var j := SkipSpaces(expr, old(index));
              match ScanOp(expr, j)
              case NoOp => r == Some(NULL_OPERATOR) && index == j
              case BadOp => r == None
              case Found(op, n) => r == Some(TableEntry(op)) && index == j + n
      ensures old(index) <= index <= |expr|
      ensures r.Some? ==> IsEntry(r.value) && (r.value.code.BinaryOp? ==> old(index) < index)
    {
      hide SkipSpaces, IsSpace, DigitOf;
      EatSpaces();
      match GetCharacter() {
        case '|' => index := index + 1; r := Some(Operator(BinaryOp(Or), 4, 'L'));
        case '^' => index := index + 1; r := Some(Operator(BinaryOp(Xor), 5, 'L'));
        case '&' => index := index + 1; r := Some(Operator(BinaryOp(And), 6, 'L'));
        case '<' =>
          var ok := ExpectAngles('<');
          r := if ok then Some(Operator(BinaryOp(Shl), 9, 'L')) else None;
        case '>' =>
          var ok := ExpectAngles('>');
          r := if ok then Some(Operator(BinaryOp(Shr), 9, 'L')) else None;
        case '+' => index := index + 1; r := Some(Operator(BinaryOp(Add), 10, 'L'));
        case '-' => index := index + 1; r := Some(Operator(BinaryOp(Sub), 10, 'L'));
        case '/' => index := index + 1; r := Some(Operator(BinaryOp(Div), 20, 'L'));
        case '%' => index := index + 1; r := Some(Operator(BinaryOp(Mod), 20, 'L'));
        case '*' =>
          index := index + 1;
          if GetCharacter() != '*' {
            r := Some(Operator(BinaryOp(Mul), 20, 'L'));
          } else {
            index := index + 1;
            r := Some(Operator(BinaryOp(BinOp.Pow), 30, 'R'));
          }
        case 'e' => index := index + 1; r := Some(Operator(BinaryOp(Exp), 40, 'R'));
        case 'E' => index := index + 1; r := Some(Operator(BinaryOp(Exp), 40, 'R'));
        case _ => r := Some(NULL_OPERATOR);
      }
    }

    method ParseDecimal() returns (value: nat)
      requires index <= |expr|
      modifies this`index
      ensures index == DigitsEnd(expr, old(index), 10)
      ensures value == DigitsValue(expr[old(index)..index], 10)
    {
      value := 0;
      while DigitOf(GetCharacter()) <= 9
        invariant old(index) <= index <= |expr|
        invariant DigitsEnd(expr, index, 10) == DigitsEnd(expr, old(index), 10)
        invariant value == DigitsValue(expr[old(index)..index], 10)
        decreases |expr| - index
      {
        value := value * 10 + DigitOf(GetCharacter());
        index := index + 1;
        DigitsValueNext(expr, old(index), index, 10);
      }
    }

    static lemma {:induction false} DigitsValueNext(text: string, i: nat, j: nat, radix: nat)
      requires i < j <= |text|
      ensures DigitsValue(text[i..j], radix) == DigitsValue(text[i..j - 1], radix) * radix + DigitOf(text[j - 1])
    {
      assert text[i..j][..j - i - 1] == text[i..j - 1];
    }

    method ParseHex() returns (value: nat)
      requires index + 2 <= |expr|
      modifies this`index
      ensures index == DigitsEnd(expr, old(index) + 2, 16)
      ensures value == DigitsValue(expr[old(index) + 2..index], 16)
    {
      index := index + 2;
      value := 0;
      while DigitOf(GetCharacter()) <= 15
        invariant old(index) + 2 <= index <= |expr|
        invariant DigitsEnd(expr, index, 16) == DigitsEnd(expr, old(index) + 2, 16)
        invariant value == DigitsValue(expr[old(index) + 2..index], 16)
        decreases |expr| - index
      {
        value := value * 16 + DigitOf(GetCharacter());
        index := index + 1;
        DigitsValueNext(expr, old(index) + 2, index, 16);
      }
    }

    predicate IsHex()
      reads this
    {
      index + 2 < |expr| && IsX(expr[index + 1]) && DigitOf(expr[index + 2]) <= 15
    }

    /** Reads a literal that starts at the index. */
    method ParseLiteral() returns (value: nat)
      requires index < |expr| && IsDigit(expr[index], 10)
      modifies this`index
      ensures index == LiteralEnd(expr, old(index))
      ensures value == LiteralValue(expr[old(index)..index])
    {
      ghost var i := index;
      if expr[index] == '0' && IsHex() {
        value := ParseHex();
      } else {
        value := ParseDecimal();
      }
      LiteralEndIsLiteral(expr, i);
      LiteralKind(expr, i);
    }

    static lemma {:induction false} LiteralKind(text: string, i: nat)
      requires i < |text| && IsDigit(text[i], 10)
      ensures var j := LiteralEnd(text, i);
              if text[i] == '0' && IsHexAt(text, i) then IsHexLiteral(text[i..j]) && text[i..j][2..] == text[i + 2..j]
              else !IsHexLiteral(text[i..j])
    {
      var j := LiteralEnd(text, i);
      if text[i] == '0' && IsHexAt(text, i) {
        DigitsEndAll(text, i + 2, 16);
        assert text[i..j][2..] == text[i + 2..j];
      } else {
        DigitsEndAll(text, i + 1, 10);
        assert j > i + 1 ==> text[i..j][1] == text[i + 1..j][0];
      }
    }

    /** Reads one operand: a literal, a signed operand or a parenthesised expression. */
    method ParseValue() returns (r: Option<int>)
      requires index <= |expr|
      modifies this`index, this`stack
      ensures index <= |expr|
      ensures r == OperandOutcome(bits, expr, old(index))
      ensures r.Some? ==> ReadOperand(expr, old(index)).Some? && old(index) < index
      ensures r.Some? ==> stack == old(stack) && index == ReadOperand(expr, old(index)).value.1
      decreases |expr| - index, 0
    {
      hide ReadOperand, ReadExpr, OperandOutcome, ExprOutcome, SkipSpaces, LiteralEnd, LiteralValue, IsSpace;
      OperandOutcomeParts(bits, expr, index);
      OperandOutcomeNone(bits, expr, index);
      EatSpaces();
      if index == |expr| {
        return None;
      }
      match expr[index] {
        case '(' =>
          index := index + 1;
          ExprOutcomeNone(bits, expr, index);
          r := ParseExpr();
          if r.Some? {
            EatSpaces();
            if GetCharacter() != ')' {
              return None;
            }
            index := index + 1;
          }
        case '~' =>
          index := index + 1;
          OperandOutcomeNone(bits, expr, index);
          r := ParseValue();
          r := if r.Some? then Some(-r.value - 1) else None;
        case '+' =>
          index := index + 1;
          OperandOutcomeNone(bits, expr, index);
          r := ParseValue();
        case '-' =>
          index := index + 1;
          OperandOutcomeNone(bits, expr, index);
          r := ParseValue();
          r := if r.Some? then Some(r.value * -1) else None;
        case _ =>
          if IsDigit(expr[index], 10) {
            var n := ParseLiteral();
            r := Some(n);
          } else {
            return None;
          }
      }
    }

    /** The shift/reduce loop of one parenthesis level, on top of whatever the stack holds. */
    method ParseExpr() returns (r: Option<int>)
      requires index <= |expr|
      modifies this`index, this`stack
      ensures index <= |expr|
      ensures r == ExprOutcome(bits, expr, old(index))
      ensures r.Some? ==> stack == old(stack) && index == ReadExpr(expr, old(index)).value.1
      decreases |expr| - index, 1
    {
      hide ReadOperand, ReadExpr, OperandOutcome, ExprOutcome, RestOutcome, SettledOutcome, SameEnd,
           SkipSpaces, ScanOp, Settle, Evaluate, Reduces, IsEntry, CalcTrees.Calculate, FrameOf;
      ghost var start := index;
      stack := stack + [OperatorValue(NULL_OPERATOR, 0)];
      ghost var base := stack;
      ghost var frame: seq<OperatorValue> := [];
      ExprOutcomeStarts(bits, expr, start);
      r := ParseValue();
      if r.None? {
        return;
      }
      while true
        invariant start <= index <= |expr| && r.Some?
        invariant stack == base + frame && IsFrame(frame)
        invariant ExprOutcome(bits, expr, start) == RestOutcome(bits, FrameOf(frame), r, expr, index)
        invariant SameEnd(expr, start, index)
        decreases |expr| - index
      {
        RestOutcomeSettles(bits, FrameOf(frame), r, expr, index);
        SameEndNext(expr, start, index);
        var scanned := ParseOp();
        if scanned.None? {
          return None;
        }
        var op := scanned.value;
        ghost var p := index;
        ghost var settled := Settle(bits, FrameOf(frame), r, op.code);
        assert IsEntry(op);
        while true
          invariant start <= index <= |expr| && index == p
          invariant stack == base + frame && IsFrame(frame) && r.Some?
          invariant Settle(bits, FrameOf(frame), r, op.code) == settled
          decreases |frame|
        {
          var top := stack[|stack| - 1];
          if !Reduces(top.op, op) {
            break;
          }
          if top.op.code.NullOp? {
            stack := stack[..|stack| - 1];
            assert stack == old(stack);
            SettleEmpty(bits, r, op);
            SettledNull(bits, settled, expr, p);
            return;
          }
          SettleReduce(bits, frame, r.value, op);
          r := Calculate(top.value, r.value, top.op);
          stack := stack[..|stack| - 1];
          frame := frame[..|frame| - 1];
          assert stack == base + frame;
          if r.None? {
            SettleFailed(bits, FrameOf(frame), op.code, expr, p);
            return;
          }
        }
        SettleShift(bits, frame, r.value, op, expr, p);
        stack := stack + [OperatorValue(op, r.value)];
        frame := frame + [OperatorValue(op, r.value)];
        assert stack == base + frame;
        r := ParseValue();
        if r.None? {
          return;
        }
      }
    }
  }
}
