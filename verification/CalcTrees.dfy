/**
 Operators of calculator.hpp, the trees its precedence table prescribes, and the
 shift/reduce machine over one stack frame that computes their values.
 */
module CalcTrees {
  import opened Options

  datatype BinOp = Or | Xor | And | Shl | Shr | Add | Sub | Mul | Div | Mod | Pow | Exp

  datatype UnOp = Complement | Plus | Minus

  /** The precedence column of the operator table. */
  function Prec(op: BinOp): nat {
    match op
    case Or => 4
    case Xor => 5
    case And => 6
    case Shl | Shr => 9
    case Add | Sub => 10
    case Mul | Div | Mod => 20
    case Pow => 30
    case Exp => 40
  }

  /** The associativity column of the operator table. */
  predicate RightAssoc(op: BinOp) {
    op.Pow? || op.Exp?
  }

  /** With `top` pending to its left, operator `next` takes the operand between them. */
  predicate Shifts(top: BinOp, next: BinOp) {
    Prec(top) < Prec(next) || (Prec(top) == Prec(next) && RightAssoc(next))
  }

  // ---------------------------------------------------------------- trees

  /** A binary tree over operands of type A. */
  datatype Tree<A> = Leaf(item: A) | Node(op: BinOp, left: Tree<A>, right: Tree<A>)

  /** The tree obeys the table: each operator's left argument binds at least as it
      does, each right argument binds tighter, ties going by associativity. */
  predicate Respects<A>(t: Tree<A>) {
    match t
    case Leaf(_) => true
    case Node(op, l, r) =>
      && Respects(l) && Respects(r)
      && (l.Node? ==> !Shifts(l.op, op))
      && (r.Node? ==> Shifts(op, r.op))
  }

  /** The leftmost operand. */
  function First<A>(t: Tree<A>): A {
    match t
    case Leaf(a) => a
    case Node(_, l, _) => First(l)
  }

  /** The remaining operands in reading order, each with the operator before it. */
  function Items<A>(t: Tree<A>): seq<(BinOp, A)> {
    match t
    case Leaf(_) => []
    case Node(op, l, r) => Items(l) + [(op, First(r))] + Items(r)
  }

  /** Extends a tree by one operator and operand on its right edge. */
  function Insert<A>(t: Tree<A>, op: BinOp, a: A): Tree<A> {
    if t.Node? && Shifts(t.op, op) then
      Node(t.op, t.left, Insert(t.right, op, a))
    else
      Node(op, t, Leaf(a))
  }

  function InsertAll<A>(t: Tree<A>, items: seq<(BinOp, A)>): Tree<A>
    decreases |items|
  {
    if items == [] then t else InsertAll(Insert(t, items[0].0, items[0].1), items[1..])
  }

  /** The tree of an operand followed by operator/operand pairs. */
  function Build<A>(first: A, items: seq<(BinOp, A)>): Tree<A> {
    InsertAll(Leaf(first), items)
  }

  lemma {:induction false} InsertRespects<A>(t: Tree<A>, op: BinOp, a: A)
    requires Respects(t)
    ensures Respects(Insert(t, op, a))
    ensures First(Insert(t, op, a)) == First(t)
    ensures Items(Insert(t, op, a)) == Items(t) + [(op, a)]
  {
    if t.Node? && Shifts(t.op, op) {
      InsertRespects(t.right, op, a);
    }
  }

  lemma {:induction false} InsertAllRespects<A>(t: Tree<A>, items: seq<(BinOp, A)>)
    requires Respects(t)
    ensures Respects(InsertAll(t, items))
    ensures First(InsertAll(t, items)) == First(t)
    ensures Items(InsertAll(t, items)) == Items(t) + items
    decreases |items|
  {
    if items != [] {
      InsertRespects(t, items[0].0, items[0].1);
      InsertAllRespects(Insert(t, items[0].0, items[0].1), items[1..]);
    }
  }

  /** Existence: every flat expression has a tree that obeys the table and reads back as it. */
  lemma {:induction false} TreeExists<A>(first: A, items: seq<(BinOp, A)>)
    ensures Respects(Build(first, items))
    ensures First(Build(first, items)) == first && Items(Build(first, items)) == items
  {
    InsertAllRespects(Leaf(first), items);
  }

  lemma {:induction false} InsertAllAppend<A>(t: Tree<A>, xs: seq<(BinOp, A)>, ys: seq<(BinOp, A)>)
    ensures InsertAll(t, xs + ys) == InsertAll(InsertAll(t, xs), ys)
    decreases |xs|
  {
    if xs == [] {
      assert xs + ys == ys;
    } else {
      assert (xs + ys)[1..] == xs[1..] + ys;
      InsertAllAppend(Insert(t, xs[0].0, xs[0].1), xs[1..], ys);
    }
  }

  /** Below an operator's right edge only operators that shift over it occur. */
  lemma {:induction false} ItemsShift<A>(t: Tree<A>, top: BinOp)
    requires Respects(t)
    requires t.Node? ==> Shifts(top, t.op)
    ensures forall i :: 0 <= i < |Items(t)| ==> Shifts(top, Items(t)[i].0)
  {
    if t.Node? {
      ItemsShift(t.left, top);
      ItemsShift(t.right, top);
    }
  }

  lemma {:induction false} InsertAllRight<A>(op: BinOp, l: Tree<A>, r: Tree<A>, items: seq<(BinOp, A)>)
    requires forall i :: 0 <= i < |items| ==> Shifts(op, items[i].0)
    ensures InsertAll(Node(op, l, r), items) == Node(op, l, InsertAll(r, items))
    decreases |items|
  {
    if items != [] {
      InsertAllRight(op, l, Insert(r, items[0].0, items[0].1), items[1..]);
    }
  }

  lemma {:induction false} RespectsIsBuilt<A>(t: Tree<A>)
    requires Respects(t)
    ensures t == Build(First(t), Items(t))
  {
    if t.Node? {
      var fl, il, fr, ir := First(t.left), Items(t.left), First(t.right), Items(t.right);
      RespectsIsBuilt(t.left);
      RespectsIsBuilt(t.right);
      ItemsShift(t.right, t.op);
      InsertAllAppend(Leaf(fl), il + [(t.op, fr)], ir);
      InsertAllAppend(Leaf(fl), il, [(t.op, fr)]);
      assert InsertAll(t.left, [(t.op, fr)]) == InsertAll(Insert(t.left, t.op, fr), []);
      InsertAllRight(t.op, t.left, Leaf(fr), ir);
    }
  }

  /** Uniqueness: the table leaves exactly one tree for a flat expression. */
  lemma {:induction false} TreeUnique<A>(t: Tree<A>, u: Tree<A>)
    requires Respects(t) && Respects(u)
    requires First(t) == First(u) && Items(t) == Items(u)
    ensures t == u
  {
    RespectsIsBuilt(t);
    RespectsIsBuilt(u);
  }

  /** The same tree with every operand translated. */
  function MapTree<A, B>(f: A -> B, t: Tree<A>): Tree<B> {
    match t
    case Leaf(a) => Leaf(f(a))
    case Node(op, l, r) => Node(op, MapTree(f, l), MapTree(f, r))
  }

  function MapItems<A, B>(f: A -> B, items: seq<(BinOp, A)>): (r: seq<(BinOp, B)>)
    ensures |r| == |items|
    ensures forall i :: 0 <= i < |r| ==> r[i] == (items[i].0, f(items[i].1))
  {
    if items == [] then [] else [(items[0].0, f(items[0].1))] + MapItems(f, items[1..])
  }

  /** The shape of the prescribed tree depends on the operators only. */
  lemma {:induction false} MapTreeShape<A, B>(f: A -> B, t: Tree<A>)
    ensures Respects(MapTree(f, t)) == Respects(t)
    ensures First(MapTree(f, t)) == f(First(t))
    ensures Items(MapTree(f, t)) == MapItems(f, Items(t))
  {
    if t.Node? {
      MapTreeShape(f, t.left);
      MapTreeShape(f, t.right);
    }
  }

  // ---------------------------------------------------------------- arithmetic

  /** What the hardware does for the bitwise and shift operators. */
  datatype BitOps = BitOps(or: (int, int) -> int, xor: (int, int) -> int, and: (int, int) -> int,
                           shl: (int, int) -> int, shr: (int, int) -> int)

  /** C++ integer division: truncation toward zero. */
  function Quotient(a: int, b: int): int
    requires b != 0
  {
    var q := (if a < 0 then -a else a) / (if b < 0 then -b else b);
    if (a < 0) == (b < 0) then q else -q
  }

  /** C++ remainder: the one that goes with `Quotient`. */
  function Remainder(a: int, b: int): int
    requires b != 0
  {
    a - b * Quotient(a, b)
  }

  function Magnitude(x: int): nat {
    if x < 0 then -x else x
  }

  /** Truncation: the quotient's product never exceeds the dividend, what remains is
      smaller than the divisor and has the dividend's sign. */
  lemma {:induction false} TruncatingDivision(a: int, b: int)
    requires b != 0
    ensures a == b * Quotient(a, b) + Remainder(a, b)
    ensures Magnitude(Remainder(a, b)) < Magnitude(b)
    ensures Remainder(a, b) != 0 ==> (Remainder(a, b) < 0 <==> a < 0)
  {
    var m, d := Magnitude(a), Magnitude(b);
    var q := m / d;
    assert m == d * q + m % d;
    var p: int := d * q;
    assert b * Quotient(a, b) == if a < 0 then -p else p;
  }

  /** The power operator: non-positive exponents give 1. */
  function Power(x: int, n: int): int
    decreases n
  {
    if n <= 0 then 1 else x * Power(x, n - 1)
  }

  /** One reduction; `None` is the division-by-zero error. */
  function Calculate(bits: BitOps, op: BinOp, a: int, b: int): Option<int> {
    match op
    case Or => Some(bits.or(a, b))
    case Xor => Some(bits.xor(a, b))
    case And => Some(bits.and(a, b))
    case Shl => Some(bits.shl(a, b))
    case Shr => Some(bits.shr(a, b))
    case Add => Some(a + b)
    case Sub => Some(a - b)
    case Mul => Some(a * b)
    case Div => if b == 0 then None else Some(Quotient(a, b))
    case Mod => if b == 0 then None else Some(Remainder(a, b))
    case Pow => Some(Power(a, b))
    case Exp => Some(a * Power(10, b))
  }

  /** `Calculate` on operands that may have failed already. */
  function Apply(bits: BitOps, op: BinOp, a: Option<int>, b: Option<int>): Option<int> {
    if a.Some? && b.Some? then Calculate(bits, op, a.value, b.value) else None
  }

  /** The value of a tree over operand values. */
  function TreeValue(bits: BitOps, t: Tree<Option<int>>): Option<int> {
    match t
    case Leaf(v) => v
    case Node(op, l, r) => Apply(bits, op, TreeValue(bits, l), TreeValue(bits, r))
  }

  // ---------------------------------------------------------------- machine

  /** A pending operator with its left operand, as stored on the parser's stack. */
  type Pending = (BinOp, Option<int>)

  /** Reduces the frame until `next` shifts. */
  function Reduce(bits: BitOps, frame: seq<Pending>, v: Option<int>, next: BinOp): (seq<Pending>, Option<int>)
    decreases |frame|
  {
    if frame == [] || Shifts(frame[|frame| - 1].0, next) then (frame, v)
    else
      var top := frame[|frame| - 1];
      Reduce(bits, frame[..|frame| - 1], Apply(bits, top.0, top.1, v), next)
  }

  /** Reduces the whole frame, as at the end of an expression. */
  function Collapse(bits: BitOps, frame: seq<Pending>, v: Option<int>): Option<int>
    decreases |frame|
  {
    if frame == [] then v
    else
      var top := frame[|frame| - 1];
      Collapse(bits, frame[..|frame| - 1], Apply(bits, top.0, top.1, v))
  }

  /** The shift/reduce loop on one frame, with `v` the current value. */
  function Run(bits: BitOps, frame: seq<Pending>, v: Option<int>, items: seq<Pending>): Option<int>
    decreases |items|
  {
    if items == [] then Collapse(bits, frame, v)
    else
      var (f, w) := Reduce(bits, frame, v, items[0].0);
      Run(bits, f + [(items[0].0, w)], items[0].1, items[1..])
  }

  predicate AnyFailed(frame: seq<Pending>, v: Option<int>) {
    v.None? || exists i :: 0 <= i < |frame| && frame[i].1.None?
  }

  lemma {:induction false} ReduceFailed(bits: BitOps, frame: seq<Pending>, v: Option<int>, next: BinOp)
    requires AnyFailed(frame, v)
    ensures var (f, w) := Reduce(bits, frame, v, next); AnyFailed(f, w)
    decreases |frame|
  {
    if !(frame == [] || Shifts(frame[|frame| - 1].0, next)) {
      var n := |frame| - 1;
      var top := frame[n];
      if v.Some? && top.1.Some? {
        var i :| 0 <= i < |frame| && frame[i].1.None?;
        assert frame[..n][i] == frame[i];
      }
      ReduceFailed(bits, frame[..n], Apply(bits, top.0, top.1, v), next);
    }
  }

  lemma {:induction false} CollapseFailed(bits: BitOps, frame: seq<Pending>, v: Option<int>)
    requires AnyFailed(frame, v)
    ensures Collapse(bits, frame, v).None?
    decreases |frame|
  {
    if frame != [] {
      var n := |frame| - 1;
      var top := frame[n];
      if v.Some? && top.1.Some? {
        var i :| 0 <= i < |frame| && frame[i].1.None?;
        assert frame[..n][i] == frame[i];
      }
      CollapseFailed(bits, frame[..n], Apply(bits, top.0, top.1, v));
    }
  }

  /** A failed operation stays failed whatever text follows. */
  lemma {:induction false} RunFailed(bits: BitOps, frame: seq<Pending>, v: Option<int>, items: seq<Pending>)
    requires AnyFailed(frame, v)
    ensures Run(bits, frame, v, items).None?
    decreases |items|
  {
    if items == [] {
      CollapseFailed(bits, frame, v);
    } else {
      ReduceFailed(bits, frame, v, items[0].0);
      var (f, w) := Reduce(bits, frame, v, items[0].0);
      var g := f + [(items[0].0, w)];
      if w.None? {
        assert g[|f|].1.None?;
      } else {
        var i :| 0 <= i < |f| && f[i].1.None?;
        assert g[i].1.None?;
      }
      RunFailed(bits, g, items[0].1, items[1..]);
    }
  }

  /** The operators on a tree's right edge, as they wait on the stack. */
  function Spine(bits: BitOps, t: Tree<Option<int>>): seq<Pending> {
    match t
    case Leaf(_) => []
    case Node(op, l, r) => [(op, TreeValue(bits, l))] + Spine(bits, r)
  }

  function Last<A>(t: Tree<A>): A {
    match t
    case Leaf(a) => a
    case Node(_, _, r) => Last(r)
  }

  lemma {:induction false} ReduceSpine(bits: BitOps, frame: seq<Pending>, t: Tree<Option<int>>, next: BinOp)
    requires Respects(t)
    requires t.Node? ==> !Shifts(t.op, next)
    ensures Reduce(bits, frame + Spine(bits, t), Last(t), next) == Reduce(bits, frame, TreeValue(bits, t), next)
    decreases t
  {
    match t
    case Leaf(_) =>
      assert frame + Spine(bits, t) == frame;
    case Node(op, l, r) =>
      var f := frame + [(op, TreeValue(bits, l))];
      assert frame + Spine(bits, t) == f + Spine(bits, r);
      ReduceSpine(bits, f, r, next);
      assert f[..|f| - 1] == frame;
  }

  lemma {:induction false} CollapseSpine(bits: BitOps, frame: seq<Pending>, t: Tree<Option<int>>)
    ensures Collapse(bits, frame + Spine(bits, t), Last(t)) == Collapse(bits, frame, TreeValue(bits, t))
    decreases t
  {
    match t
    case Leaf(_) =>
      assert frame + Spine(bits, t) == frame;
    case Node(op, l, r) =>
      var f := frame + [(op, TreeValue(bits, l))];
      assert frame + Spine(bits, t) == f + Spine(bits, r);
      CollapseSpine(bits, f, r);
      assert f[..|f| - 1] == frame;
  }

  /** Reading a tree's operands leaves its right edge on the stack. */
  lemma {:induction false} FeedTree(bits: BitOps, frame: seq<Pending>, t: Tree<Option<int>>, rest: seq<Pending>)
    requires Respects(t)
    requires frame != [] && t.Node? ==> Shifts(frame[|frame| - 1].0, t.op)
    ensures Run(bits, frame, First(t), Items(t) + rest) == Run(bits, frame + Spine(bits, t), Last(t), rest)
    decreases t
  {
    hide Reduce, Run;
    match t
    case Leaf(_) =>
      assert Items(t) + rest == rest;
      assert frame + Spine(bits, t) == frame;
    case Node(op, l, r) =>
      var item := (op, First(r));
      assert Items(t) + rest == Items(l) + ([item] + (Items(r) + rest));
      FeedTree(bits, frame, l, [item] + (Items(r) + rest));
      RunStep(bits, frame + Spine(bits, l), Last(l), item, Items(r) + rest);
      ReduceSpine(bits, frame, l, op);
      ReduceShifts(bits, frame, TreeValue(bits, l), op);
      var f := frame + [(op, TreeValue(bits, l))];
      FeedTree(bits, f, r, rest);
      assert frame + Spine(bits, t) == f + Spine(bits, r);
  }

  lemma {:induction false} RunStep(bits: BitOps, frame: seq<Pending>, v: Option<int>, item: Pending,
                                   items: seq<Pending>)
    ensures Run(bits, frame, v, [item] + items) ==
            var (f, w) := Reduce(bits, frame, v, item.0); Run(bits, f + [(item.0, w)], item.1, items)
  {
    assert ([item] + items)[1..] == items;
  }

  lemma {:induction false} ReduceShifts(bits: BitOps, frame: seq<Pending>, v: Option<int>, next: BinOp)
    requires frame != [] ==> Shifts(frame[|frame| - 1].0, next)
    ensures Reduce(bits, frame, v, next) == (frame, v)
  {
  }

  /** The machine computes the value of the one tree the table prescribes. */
  lemma {:induction false} RunIsTreeValue(bits: BitOps, t: Tree<Option<int>>)
    requires Respects(t)
    ensures Run(bits, [], First(t), Items(t)) == TreeValue(bits, t)
  {
    FeedTree(bits, [], t, []);
    assert Items(t) + [] == Items(t) && [] + Spine(bits, t) == Spine(bits, t);
    CollapseSpine(bits, [], t);
  }
}
