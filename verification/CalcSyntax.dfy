/**
 The text of calculator expressions: a concrete syntax that keeps every character,
 the printer of that syntax, and the syntax-only reading of a text, proved to be
 exact inverses.
 */
module CalcSyntax {
  import opened Options
  import opened CalcTrees
  import opened Texts

  // ---------------------------------------------------------------- characters

  /** `std::isspace` in the C locale. */
  predicate IsSpace(c: char) {
    c == ' ' || c == '\t' || c == '\n' || c == '\r' || c == '\U{0B}' || c == '\U{0C}'
  }

  /** The value of a digit up to hexadecimal `f`, and 16 for any other character. */
  function DigitOf(c: char): nat {
    if '0' <= c <= '9' then c as int - '0' as int
    else if 'a' <= c <= 'f' then c as int - 'a' as int + 10
    else if 'A' <= c <= 'F' then c as int - 'A' as int + 10
    else 16
  }

  /** Digits are those below the radix: 10 or 16. */
  predicate IsDigit(c: char, radix: nat) {
    DigitOf(c) < radix
  }

  predicate IsX(c: char) {
    c == 'x' || c == 'X'
  }

  predicate AllSpace(s: string) {
    All(IsSpace, s)
  }

  function Digit(radix: nat): char -> bool {
    (c: char) => IsDigit(c, radix)
  }

  predicate AllDigits(s: string, radix: nat) {
    All(Digit(radix), s)
  }

  function SkipSpaces(text: string, i: nat): (j: nat)
    requires i <= |text|
    ensures i <= j <= |text|
  {
    SkipWhile(IsSpace, text, i)
  }

  function DigitsEnd(text: string, i: nat, radix: nat): (j: nat)
    requires i <= |text|
    ensures i <= j <= |text|
  {
    SkipWhile(Digit(radix), text, i)
  }

  lemma {:induction false} SkipSpacesAll(text: string, i: nat)
    requires i <= |text|
    ensures var j := SkipSpaces(text, i); AllSpace(text[i..j]) && (j < |text| ==> !IsSpace(text[j]))
  {
    SkipWhileAll(IsSpace, text, i);
  }

  lemma {:induction false} DigitsEndAll(text: string, i: nat, radix: nat)
    requires i <= |text|
    ensures var j := DigitsEnd(text, i, radix);
            AllDigits(text[i..j], radix) && (j < |text| ==> !IsDigit(text[j], radix))
  {
    SkipWhileAll(Digit(radix), text, i);
  }

  function DigitsValue(s: string, radix: nat): nat {
    if s == "" then 0 else DigitsValue(s[..|s| - 1], radix) * radix + DigitOf(s[|s| - 1])
  }

  // ---------------------------------------------------------------- concrete syntax

  /** An operand with the white space before it. */
  datatype Operand =
    | Number(ws: string, digits: string)
    | Signed(ws: string, op: UnOp, operand: Operand)
    | Paren(ws: string, body: Expr)

  datatype Expr = Expr(first: Operand, rest: Rest)

  /** What follows an operand up to the end of its parenthesis level. */
  datatype Rest =
    | End(ws: string)
    | More(ws: string, op: BinOp, opText: string, operand: Operand, rest: Rest)

  function UnOpText(op: UnOp): string {
    match op
    case Complement => "~"
    case Plus => "+"
    case Minus => "-"
  }

  function BinOpText(op: BinOp): (s: string)
    ensures 1 <= |s| <= 2
  {
    match op
    case Or => "|"
    case Xor => "^"
    case And => "&"
    case Shl => "<<"
    case Shr => ">>"
    case Add => "+"
    case Sub => "-"
    case Mul => "*"
    case Div => "/"
    case Mod => "%"
    case Pow => "**"
    case Exp => "e"
  }

  predicate IsBinOpText(op: BinOp, s: string) {
    s == BinOpText(op) || (op == Exp && s == "E")
  }

  predicate IsHexLiteral(s: string) {
    |s| > 2 && s[0] == '0' && IsX(s[1]) && AllDigits(s[2..], 16)
  }

  predicate IsLiteral(s: string) {
    IsHexLiteral(s) || (s != "" && AllDigits(s, 10))
  }

  function LiteralValue(s: string): nat {
    if IsHexLiteral(s) then DigitsValue(s[2..], 16) else DigitsValue(s, 10)
  }

  function OperandText(v: Operand): string {
    match v
    case Number(ws, digits) => ws + digits
    case Signed(ws, op, x) => ws + UnOpText(op) + OperandText(x)
    case Paren(ws, e) => ws + "(" + ExprText(e) + ")"
  }

  function ExprText(e: Expr): string {
    OperandText(e.first) + RestText(e.rest)
  }

  function RestText(r: Rest): string {
    match r
    case End(ws) => ws
    case More(ws, _, s, v, tail) => ws + s + OperandText(v) + RestText(tail)
  }

  /** The operand's last character belongs to a hexadecimal literal. */
  predicate EndsHex(v: Operand) {
    match v
    case Number(_, digits) => IsHexLiteral(digits)
    case Signed(_, _, x) => EndsHex(x)
    case Paren(_, _) => false
  }

  predicate ValidOperand(v: Operand)
    decreases v
  {
    match v
    case Number(ws, digits) => AllSpace(ws) && IsLiteral(digits)
    case Signed(ws, _, x) => AllSpace(ws) && ValidOperand(x)
    case Paren(ws, e) => AllSpace(ws) && ValidExpr(e)
  }

  predicate ValidExpr(e: Expr)
    decreases e
  {
    ValidOperand(e.first) && ValidRest(e.first, e.rest)
  }

  /** The letter `e` directly after a hexadecimal literal is a digit of it, never an operator. */
  predicate ValidRest(prev: Operand, r: Rest)
    decreases r
  {
    match r
    case End(ws) => AllSpace(ws)
    case More(ws, op, s, v, tail) =>
      && AllSpace(ws) && IsBinOpText(op, s) && ValidOperand(v)
      && (ws == "" && op == Exp ==> !EndsHex(prev))
      && ValidRest(v, tail)
  }

  // ---------------------------------------------------------------- reading

  datatype OpScan = NoOp | BadOp | Found(op: BinOp, length: nat)

  /** The binary operator at position i; `<` and `>` are errors unless doubled. */
  function ScanOp(text: string, i: nat): (r: OpScan)
    requires i <= |text|
    ensures r.Found? ==> 1 <= r.length && i + r.length <= |text|
  {
    if i == |text| then NoOp
    else
      var doubled := i + 1 < |text| && text[i + 1] == text[i];
      match text[i]
      case '|' => Found(Or, 1)
      case '^' => Found(Xor, 1)
      case '&' => Found(And, 1)
      case '<' => if doubled then Found(Shl, 2) else BadOp
      case '>' => if doubled then Found(Shr, 2) else BadOp
      case '+' => Found(Add, 1)
      case '-' => Found(Sub, 1)
      case '/' => Found(Div, 1)
      case '%' => Found(Mod, 1)
      case '*' => if doubled then Found(Pow, 2) else Found(Mul, 1)
      case 'e' => Found(Exp, 1)
      case 'E' => Found(Exp, 1)
      case _ => NoOp
  }

  predicate IsHexAt(text: string, i: nat) {
    i + 2 < |text| && IsX(text[i + 1]) && IsDigit(text[i + 2], 16)
  }

  function LiteralEnd(text: string, i: nat): (j: nat)
    requires i < |text| && IsDigit(text[i], 10)
    ensures i < j <= |text|
  {
    if text[i] == '0' && IsHexAt(text, i) then DigitsEnd(text, i + 2, 16) else DigitsEnd(text, i + 1, 10)
  }

  lemma {:induction false} LiteralEndIsLiteral(text: string, i: nat)
    requires i < |text| && IsDigit(text[i], 10)
    ensures var j := LiteralEnd(text, i);
            && IsLiteral(text[i..j])
            && (IsHexLiteral(text[i..j]) && j < |text| ==> !IsDigit(text[j], 16))
  {
    var j := LiteralEnd(text, i);
    if text[i] == '0' && IsHexAt(text, i) {
      DigitsEndAll(text, i + 2, 16);
      assert text[i..j][2..] == text[i + 2..j];
    } else {
      DigitsEndAll(text, i + 1, 10);
      assert forall k :: i < k < j ==> text[k] == text[i + 1..j][k - i - 1];
    }
  }

  function ScanUnOp(c: char): Option<UnOp> {
    match c
    case '~' => Some(Complement)
    case '+' => Some(Plus)
    case '-' => Some(Minus)
    case _ => None
  }

  function ReadOperand(text: string, i: nat): (r: Option<(Operand, nat)>)
    requires i <= |text|
    ensures r.Some? ==> i < r.value.1 <= |text|
    decreases |text| - i, 0
  {
    var j := SkipSpaces(text, i);
    var ws := text[i..j];
    if j == |text| then None
    else if IsDigit(text[j], 10) then
      var k := LiteralEnd(text, j);
      Some((Number(ws, text[j..k]), k))
    else if text[j] == '(' then
      match ReadExpr(text, j + 1)
      case None => None
      case Some((e, k)) => if k < |text| && text[k] == ')' then Some((Paren(ws, e), k + 1)) else None
    else
      match ScanUnOp(text[j])
      case None => None
      case Some(op) =>
        match ReadOperand(text, j + 1)
        case None => None
        case Some((v, k)) => Some((Signed(ws, op, v), k))
  }

  function ReadExpr(text: string, i: nat): (r: Option<(Expr, nat)>)
    requires i <= |text|
    ensures r.Some? ==> i < r.value.1 <= |text|
    decreases |text| - i, 1
  {
    match ReadOperand(text, i)
    case None => None
    case Some((v, j)) =>
      match ReadRest(text, j)
      case None => None
      case Some((rest, k)) => Some((Expr(v, rest), k))
  }

  function ReadRest(text: string, i: nat): (r: Option<(Rest, nat)>)
    requires i <= |text|
    ensures r.Some? ==> i <= r.value.1 <= |text|
    decreases |text| - i, 0
  {
    var j := SkipSpaces(text, i);
    match ScanOp(text, j)
    case NoOp => Some((End(text[i..j]), j))
    case BadOp => None
    case Found(op, n) =>
      match ReadOperand(text, j + n)
      case None => None
      case Some((v, k)) =>
        match ReadRest(text, k)
        case None => None
        case Some((rest, m)) => Some((More(text[i..j], op, text[j..j + n], v, rest), m))
  }

  lemma {:induction false} ReadNumberStep(text: string, i: nat, j: nat, k: nat)
    requires i <= j < k <= |text| && SkipSpaces(text, i) == j
    requires IsDigit(text[j], 10) && LiteralEnd(text, j) == k
    ensures ReadOperand(text, i) == Some((Number(text[i..j], text[j..k]), k))
  {
  }

  lemma {:induction false} ReadSignedStep(text: string, i: nat, j: nat, op: UnOp, x: Operand, k: nat)
    requires i <= j < |text| && SkipSpaces(text, i) == j
    requires ScanUnOp(text[j]) == Some(op) && ReadOperand(text, j + 1) == Some((x, k))
    ensures ReadOperand(text, i) == Some((Signed(text[i..j], op, x), k))
  {
  }

  lemma {:induction false} ReadParenStep(text: string, i: nat, j: nat, e: Expr, k: nat)
    requires i <= j < |text| && SkipSpaces(text, i) == j && text[j] == '('
    requires ReadExpr(text, j + 1) == Some((e, k)) && k < |text| && text[k] == ')'
    ensures ReadOperand(text, i) == Some((Paren(text[i..j], e), k + 1))
  {
  }

  lemma {:induction false} ReadMoreStep(text: string, i: nat, j: nat, op: BinOp, n: nat, v: Operand, k: nat,
                                        r: Rest, m: nat)
    requires i <= j < |text| && SkipSpaces(text, i) == j && ScanOp(text, j) == Found(op, n)
    requires ReadOperand(text, j + n) == Some((v, k)) && ReadRest(text, k) == Some((r, m))
    ensures ReadRest(text, i) == Some((More(text[i..j], op, text[j..j + n], v, r), m))
  {
  }

  // ---------------------------------------------------------------- soundness

  /** The literal that ends at k cannot be longer. */
  predicate Follows(v: Operand, text: string, k: nat) {
    k < |text| ==>
      && !IsX(text[k])
      && (IsDigit(text[k], 16) ==> (text[k] == 'e' || text[k] == 'E') && !EndsHex(v))
  }

  predicate HexMunched(v: Operand, text: string, k: nat) {
    EndsHex(v) && k < |text| ==> !IsDigit(text[k], 16)
  }

  lemma {:induction false} SignedText(text: string, i: nat, j: nat, k: nat, op: UnOp, x: Operand)
    requires i <= j < k <= |text| && ScanUnOp(text[j]) == Some(op) && text[j + 1..k] == OperandText(x)
    ensures text[i..k] == OperandText(Signed(text[i..j], op, x))
  {
    assert text[i..k] == text[i..j] + [text[j]] + text[j + 1..k];
  }

  lemma {:induction false} ParenText(text: string, i: nat, j: nat, k: nat, e: Expr)
    requires i <= j < k < |text| && text[j] == '(' && text[k] == ')' && text[j + 1..k] == ExprText(e)
    ensures text[i..k + 1] == OperandText(Paren(text[i..j], e))
  {
    assert text[i..k + 1] == text[i..j] + [text[j]] + text[j + 1..k] + [text[k]];
  }

  /** What reading an operand from i to k promises. */
  predicate Munched(text: string, i: nat, v: Operand, k: nat) {
    i <= k <= |text| && ValidOperand(v) && text[i..k] == OperandText(v) && HexMunched(v, text, k)
  }

  lemma {:induction false} ReadNumberSound(text: string, i: nat, j: nat)
    requires i <= j < |text| && AllSpace(text[i..j]) && IsDigit(text[j], 10)
    ensures Munched(text, i, Number(text[i..j], text[j..LiteralEnd(text, j)]), LiteralEnd(text, j))
  {
    hide LiteralEnd, IsLiteral, IsHexLiteral, AllSpace, IsDigit;
    LiteralEndIsLiteral(text, j);
    SliceJoin(text, i, j, LiteralEnd(text, j));
  }

  lemma {:induction false} ReadOperandSound(text: string, i: nat)
    requires i <= |text|
    ensures match ReadOperand(text, i)
            case None => true
            case Some((v, k)) => Munched(text, i, v, k)
    decreases |text| - i, 0
  {
    hide OperandText, ExprText, SkipSpaces, AllSpace, ReadExpr, IsLiteral, LiteralEnd;
    var j := SkipSpaces(text, i);
    SkipSpacesAll(text, i);
    if j == |text| {
    } else if IsDigit(text[j], 10) {
      ReadNumberSound(text, i, j);
    } else if text[j] == '(' {
      ReadExprSound(text, j + 1);
      if ReadOperand(text, i).Some? {
        var (e, k) := ReadExpr(text, j + 1).value;
        ParenText(text, i, j, k, e);
      }
    } else {
      ReadOperandSound(text, j + 1);
      if ReadOperand(text, i).Some? {
        var (x, k) := ReadOperand(text, j + 1).value;
        SignedText(text, i, j, k, ScanUnOp(text[j]).value, x);
      }
    }
  }

  lemma {:induction false} ReadExprSound(text: string, i: nat)
    requires i <= |text|
    ensures match ReadExpr(text, i)
            case None => true
            case Some((e, k)) => ValidExpr(e) && text[i..k] == ExprText(e)
    decreases |text| - i, 1
  {
    hide ValidOperand, OperandText, ReadOperand, ReadRest;
    if ReadExpr(text, i).Some? {
      var (v, j) := ReadOperand(text, i).value;
      var (rest, k) := ReadRest(text, j).value;
      ReadOperandSound(text, i);
      ReadRestSound(text, j, v);
      assert text[i..k] == text[i..j] + text[j..k];
    }
  }

  lemma {:induction false} ReadRestSound(text: string, i: nat, prev: Operand)
    requires i <= |text| && HexMunched(prev, text, i)
    ensures match ReadRest(text, i)
            case None => true
            case Some((r, k)) => ValidRest(prev, r) && text[i..k] == RestText(r)
    decreases |text| - i, 0
  {
    var j := SkipSpaces(text, i);
    var scan := ScanOp(text, j);
    SkipSpacesAll(text, i);
    if scan.Found? && ReadRest(text, i).Some? {
      var p := j + scan.length;
      var (v, k) := ReadOperand(text, p).value;
      ReadOperandSound(text, p);
      ReadRestSound(text, k, v);
      ReadMoreSound(text, i, prev, j, p, v, k);
    }
  }

  lemma {:induction false} ReadMoreSound(text: string, i: nat, prev: Operand, j: nat, p: nat, v: Operand, k: nat)
    requires i <= j < p <= k <= |text| && HexMunched(prev, text, i)
    requires SkipSpaces(text, i) == j && AllSpace(text[i..j])
    requires ScanOp(text, j).Found? && p == j + ScanOp(text, j).length
    requires ReadOperand(text, p) == Some((v, k)) && ValidOperand(v) && text[p..k] == OperandText(v)
    requires ReadRest(text, k).Some?
    requires var (r, m) := ReadRest(text, k).value; ValidRest(v, r) && text[k..m] == RestText(r)
    ensures ReadRest(text, i).Some?
    ensures var (r, m) := ReadRest(text, i).value; ValidRest(prev, r) && text[i..m] == RestText(r)
  {
    hide ReadOperand, ReadRest, SkipSpaces, AllSpace, OperandText;
    var op := ScanOp(text, j).op;
    var (r, m) := ReadRest(text, k).value;
    ReadMoreStep(text, i, j, op, p - j, v, k, r, m);
    ScanOpText(text, j);
    MoreText(text, i, j, p, k, m, op, v, r);
    if i == j && op == Exp {
      assert IsDigit(text[i], 16);
    }
  }

  lemma {:induction false} MoreText(text: string, i: nat, j: nat, p: nat, k: nat, m: nat, op: BinOp, v: Operand,
                                    r: Rest)
    requires i <= j <= p <= k <= m <= |text|
    requires text[p..k] == OperandText(v) && text[k..m] == RestText(r)
    ensures text[i..m] == RestText(More(text[i..j], op, text[j..p], v, r))
  {
    SliceJoin(text, i, j, p);
    SliceJoin(text, i, p, k);
    SliceJoin(text, i, k, m);
  }

  lemma {:induction false} ScanOpText(text: string, i: nat)
    requires i <= |text|
    ensures var scan := ScanOp(text, i);
            scan.Found? ==> IsBinOpText(scan.op, text[i..i + scan.length])
  {
  }

  // ---------------------------------------------------------------- completeness

  lemma {:induction false} SkipSpacesAt(text: string, i: nat, ws: string)
    requires At(text, i, ws) && AllSpace(ws)
    requires i + |ws| < |text| ==> !IsSpace(text[i + |ws|])
    ensures SkipSpaces(text, i) == i + |ws|
  {
    SkipWhileAt(IsSpace, text, i, ws);
  }

  lemma {:induction false} DigitsEndAt(text: string, i: nat, s: string, radix: nat)
    requires At(text, i, s) && AllDigits(s, radix)
    requires i + |s| < |text| ==> !IsDigit(text[i + |s|], radix)
    ensures DigitsEnd(text, i, radix) == i + |s|
  {
    SkipWhileAt(Digit(radix), text, i, s);
  }

  lemma {:induction false} LiteralEndAt(text: string, i: nat, s: string)
    requires At(text, i, s) && IsLiteral(s)
    requires Follows(Number("", s), text, i + |s|)
    ensures i < |text| && IsDigit(text[i], 10) && LiteralEnd(text, i) == i + |s|
  {
    assert text[i] == text[i..i + |s|][0];
    if IsHexLiteral(s) {
      assert text[i + 1] == text[i..i + |s|][1] && text[i + 2] == text[i..i + |s|][2];
      assert s[2] == s[2..][0];
      assert text[i + 2..i + |s|] == s[2..];
      DigitsEndAt(text, i + 2, s[2..], 16);
    } else {
      assert |s| > 1 ==> text[i + 1] == text[i..i + |s|][1];
      DigitsEndAt(text, i, s, 10);
    }
  }

  lemma {:induction false} OperandStart(v: Operand)
    requires ValidOperand(v)
    ensures OperandText(v) != ""
    ensures forall i :: 0 <= i < |v.ws| ==> IsSpace(OperandText(v)[i])
    ensures |v.ws| < |OperandText(v)| && OperandText(v)[..|v.ws|] == v.ws
    ensures var c := OperandText(v)[|v.ws|]; IsDigit(c, 10) || c == '(' || c == '+' || c == '-' || c == '~'
  {
  }

  lemma {:induction false} ReadOperandComplete(text: string, i: nat, v: Operand)
    requires ValidOperand(v) && At(text, i, OperandText(v)) && Follows(v, text, i + |OperandText(v)|)
    ensures ReadOperand(text, i) == Some((v, i + |OperandText(v)|))
    decreases v
  {
    hide ReadOperand, ReadExpr, SkipSpaces, At, IsSpace, AllSpace, Follows, IsLiteral;
    var j := i + |v.ws|;
    match v
    case Number(ws, digits) =>
      ReadNumberComplete(text, i, ws, digits);
    case Signed(ws, op, x) =>
      AtSplit(text, i, ws, UnOpText(op), OperandText(x));
      FollowsSigned(text, ws, op, x, i + |OperandText(v)|);
      NoSpace(text[j]);
      SkipSpacesAt(text, i, ws);
      AtIsSlice(text, i, ws);
      ReadOperandComplete(text, j + 1, x);
      ReadSignedStep(text, i, j, op, x, j + 1 + |OperandText(x)|);
    case Paren(ws, e) =>
      assert OperandText(v) == ws + "(" + (ExprText(e) + ")");
      AtParen(text, i, ws, ExprText(e));
      AtIsSlice(text, i, ws);
      ReadExprComplete(text, j + 1, e);
      ReadParenStep(text, i, j, e, j + 1 + |ExprText(e)|);
  }

  lemma {:induction false} FollowsSigned(text: string, ws: string, op: UnOp, x: Operand, k: nat)
    ensures Follows(Signed(ws, op, x), text, k) == Follows(x, text, k)
  {
  }

  lemma {:induction false} AtParen(text: string, i: nat, ws: string, body: string)
    requires At(text, i, ws + "(" + (body + ")")) && AllSpace(ws)
    ensures var j := i + |ws|;
            && At(text, i, ws) && At(text, j + 1, body)
            && j + 1 + |body| < |text| && text[j] == '(' && text[j + 1 + |body|] == ')'
            && SkipSpaces(text, i) == j
  {
    AtSplit(text, i, ws, "(", body + ")");
    AtConcat(text, i + |ws| + 1, body, ")");
    AtChar(text, i + |ws| + 1 + |body|, ")", 0);
    SkipSpacesAt(text, i, ws);
  }

  lemma {:induction false} ReadNumberComplete(text: string, i: nat, ws: string, digits: string)
    requires AllSpace(ws) && IsLiteral(digits) && At(text, i, ws + digits)
    requires Follows(Number(ws, digits), text, i + |ws + digits|)
    ensures ReadOperand(text, i) == Some((Number(ws, digits), i + |ws + digits|))
  {
    hide ReadOperand, ReadExpr, SkipSpaces, LiteralEnd, IsLiteral, AllSpace;
    AtConcat(text, i, ws, digits);
    LiteralEndAt(text, i + |ws|, digits);
    NoSpace(text[i + |ws|]);
    SkipSpacesAt(text, i, ws);
    ReadNumberStep(text, i, i + |ws|, i + |ws| + |digits|);
  }

  lemma {:induction false} NoSpace(c: char)
    ensures IsSpace(c) ==> !IsDigit(c, 10) && c != '(' && ScanUnOp(c).None?
  {
  }

  lemma {:induction false} ReadExprComplete(text: string, i: nat, e: Expr)
    requires ValidExpr(e) && At(text, i, ExprText(e))
    requires i + |ExprText(e)| < |text| ==> text[i + |ExprText(e)|] == ')'
    ensures ReadExpr(text, i) == Some((e, i + |ExprText(e)|))
    decreases e
  {
    hide ReadOperand, ReadRest, At, OperandText, RestText, Follows, SkipSpaces;
    AtConcat(text, i, OperandText(e.first), RestText(e.rest));
    AtIsSlice(text, i, OperandText(e.first));
    var j := i + |OperandText(e.first)|;
    RestFollows(text, j, e.first, e.rest);
    ReadOperandComplete(text, i, e.first);
    ReadRestComplete(text, j, e.first, e.rest);
  }

  lemma {:induction false} RestFollows(text: string, i: nat, prev: Operand, r: Rest)
    requires ValidRest(prev, r) && At(text, i, RestText(r))
    requires i + |RestText(r)| < |text| ==> text[i + |RestText(r)|] == ')'
    ensures Follows(prev, text, i)
  {
    if RestText(r) != "" {
      assert text[i] == text[i..i + |RestText(r)|][0];
    }
  }

  lemma {:induction false} ReadRestComplete(text: string, i: nat, prev: Operand, r: Rest)
    requires ValidRest(prev, r) && At(text, i, RestText(r))
    requires i + |RestText(r)| < |text| ==> text[i + |RestText(r)|] == ')'
    ensures ReadRest(text, i) == Some((r, i + |RestText(r)|))
    decreases r
  {
    hide ReadOperand, ReadRest, SkipSpaces, AllSpace, At, IsSpace, IsBinOpText, Follows, OperandText, ScanOp;
    match r
    case End(ws) =>
      ReadEndComplete(text, i, ws);
    case More(ws, op, s, v, tail) =>
      var j, p := i + |ws|, i + |ws| + |s|;
      var k := p + |OperandText(v)|;
      assert RestText(r) == ws + s + (OperandText(v) + RestText(tail));
      BinOpTextNotEmpty(op, s);
      AtSplit(text, i, ws, s, OperandText(v) + RestText(tail));
      AtConcat(text, p, OperandText(v), RestText(tail));
      ScanOpAt(text, j, op, s, v);
      SkipSpacesAt(text, i, ws);
      RestFollows(text, k, v, tail);
      ReadOperandComplete(text, p, v);
      ReadRestComplete(text, k, v, tail);
      AtIsSlice(text, i, ws);
      AtIsSlice(text, j, s);
      ReadMoreStep(text, i, j, op, |s|, v, k, tail, k + |RestText(tail)|);
  }

  lemma {:induction false} BinOpTextNotEmpty(op: BinOp, s: string)
    requires IsBinOpText(op, s)
    ensures s != ""
  {
  }

  lemma {:induction false} ReadEndComplete(text: string, i: nat, ws: string)
    requires At(text, i, ws) && AllSpace(ws)
    requires i + |ws| < |text| ==> text[i + |ws|] == ')'
    ensures ReadRest(text, i) == Some((End(ws), i + |ws|))
  {
    SkipSpacesAt(text, i, ws);
  }

  lemma {:induction false} OperandHead(v: Operand)
    requires ValidOperand(v)
    ensures OperandText(v) != "" && OperandText(v)[0] != '*'
  {
    OperandStart(v);
  }

  lemma {:induction false} ScanOpAt(text: string, i: nat, op: BinOp, s: string, v: Operand)
    requires IsBinOpText(op, s) && ValidOperand(v)
    requires At(text, i, s) && At(text, i + |s|, OperandText(v))
    ensures i < |text| && ScanOp(text, i) == Found(op, |s|) && !IsSpace(text[i])
  {
    hide At, OperandText, ValidOperand;
    OperandHead(v);
    BinOpTextNotEmpty(op, s);
    AtChar(text, i, s, 0);
    AtChar(text, i + |s|, OperandText(v), 0);
    if |s| > 1 {
      AtChar(text, i, s, 1);
    }
  }

  // ---------------------------------------------------------------- the grammar

  /** The text read as one whole expression. */
  function ReadWhole(text: string): Option<Expr> {
    match ReadExpr(text, 0)
    case Some((e, k)) => if k == |text| then Some(e) else None
    case None => None
  }

  /** Reading accepts exactly the valid expressions, and finds the one with that text. */
  lemma {:induction false} ReadWholeExact(text: string, e: Expr)
    ensures ReadWhole(text) == Some(e) <==> ValidExpr(e) && ExprText(e) == text
  {
    if ReadWhole(text) == Some(e) {
      ReadExprSound(text, 0);
      assert text[0..|text|] == text;
    }
    if ValidExpr(e) && ExprText(e) == text {
      assert text[0..|text|] == text;
      ReadExprComplete(text, 0, e);
    }
  }
}
