/** The expression printer with minimal parentheses, a reader for what it prints, and when
    reading back gives an expression of the same value. */
module Printer {
  import opened Collections
  import opened Instructions
  import opened Words
  import opened Expressions
  import opened Simplifier

  /** The operators of the printed text: the binary operators, and `!=`. */
  datatype Symbol = Op(op: BinOp) | NotEqual

  datatype Token<V> =
    | Open
    | Close
    | Infix(sym: Symbol)
    | Prefix(uop: UnaryOp)
    | Name(x: V)
    | Num(n: int)

  function Precedence(op: BinOp): nat {
    match op
    case Or | OrInv => 1
    case Xor | Xnor => 2
    case And | AndInv => 3
    case LtU | LtS | GeU | GeS | GtU | GtS | LeU | LeS | Max | MaxU | Min | MinU => 4
    case Shl | ShrU | ShrS | RotL | RotR => 5
    case Add | Sub | NegAdd => 6
    case Mul | DivU | DivS | RemU | RemS | MulUpperSS | MulUpperUU | MulUpperSU => 7
  }

  const ATOM: nat := 8

  function Binding(s: Symbol): (p: nat)
    ensures p == Tightness(s)
  {
    if s.NotEqual? then Precedence(LtU) else Precedence(s.op)
  }

  predicate IsCommutative(op: BinOp) { op in {Add, Mul, And, Or, Xor} }

  predicate NeedsParens<V>(e: Expr<V>, parent: BinOp, isLeft: bool) {
    e.BinOp? &&
    (Precedence(e.op) < Precedence(parent) ||
     (Precedence(e.op) == Precedence(parent) && !isLeft && !IsCommutative(parent)))
  }

  /** How a binary expression is laid out: the symbol between two operands, each with or
      without parentheses. */
  datatype Layout<V> = Layout(left: Expr<V>, leftParens: bool, sym: Symbol, right: Expr<V>, rightParens: bool)

  /** Adding a negative constant shows as a subtraction, and `0 <u e` as `e != 0`. */
  function LayoutOf<V>(e: Expr<V>): (s: Layout<V>)
    requires e.BinOp?
    ensures Size(s.left) < Size(e) && Size(s.right) < Size(e)
    ensures Binding(s.sym) == Precedence(e.op)
    ensures Printable(e) ==> Printable(s.left) && Printable(s.right)
  {
    if e.op == Add && e.rhs.Const? && e.rhs.value < 0 then
      Layout(e.lhs, NeedsParens(e.lhs, Sub, true), Op(Sub), Const(WrapI64(-e.rhs.value)), false)
    else if e.op == LtU && e.lhs == Const(0) && !IsBoolean(e.rhs) then
      Layout(e.rhs, e.rhs.BinOp?, NotEqual, Const(0), false)
    else
      Layout(e.lhs, NeedsParens(e.lhs, e.op, true), Op(e.op), e.rhs, NeedsParens(e.rhs, e.op, false))
  }

  function Size<V>(e: Expr<V>): nat {
    match e
    case BinOp(_, l, r) => 1 + Size(l) + Size(r)
    case UnaryOp(_, a) => 1 + Size(a)
    case _ => 0
  }

  /** Variables, constants and operators: what is printed as arithmetic. */
  predicate Printable<V>(e: Expr<V>) {
    match e
    case Const(_) => true
    case Var(_) => true
    case BinOp(_, l, r) => Printable(l) && Printable(r)
    case UnaryOp(_, a) => Printable(a)
    case _ => false
  }

  function Print<V>(e: Expr<V>): (ts: seq<Token<V>>)
    requires Printable(e)
    decreases Size(e), 0
  {
    match e
    case Const(v) => [Num(v)]
    case Var(x) => [Name(x)]
    case UnaryOp(op, a) => [Prefix(op), Open] + Print(a) + [Close]
    case BinOp(_, _, _) =>
      var s := LayoutOf(e);
      Operand(s.left, s.leftParens) + [Infix(s.sym)] + Operand(s.right, s.rightParens)
  }

  function Operand<V>(e: Expr<V>, parens: bool): seq<Token<V>>
    requires Printable(e)
    decreases Size(e), 1
  {
    if parens then [Open] + Print(e) + [Close] else Print(e)
  }

  // ----- Reading, left to right, by precedence

  datatype Tree<V> =
    | Number(n: int)
    | Variable(x: V)
    | Unary(uop: UnaryOp, operand: Tree<V>)
    | Binary(left: Tree<V>, sym: Symbol, right: Tree<V>)

  datatype Reading<V> = Reading(tree: Tree<V>, rest: seq<Token<V>>)

  /** An operand, then every following operator that binds at least as tightly as `min`. */
  function ReadExpr<V>(min: nat, ts: seq<Token<V>>): (r: Option<Reading<V>>)
    ensures r.Some? ==> |r.value.rest| < |ts|
    decreases |ts|, 1
  {
    match ReadOperand(ts)
    case None => None
    case Some(r) => ReadTail(r.tree, min, r.rest)
  }

  function ReadOperand<V>(ts: seq<Token<V>>): (r: Option<Reading<V>>)
    ensures r.Some? ==> |r.value.rest| < |ts|
    decreases |ts|, 0
  {
    if ts == [] then None else
      match ts[0]
      case Num(n) => Some(Reading(Number(n), ts[1..]))
      case Name(x) => Some(Reading(Variable(x), ts[1..]))
      case Open => ReadClosed(ts[1..])
      case Prefix(op) =>
        if |ts| < 2 || !ts[1].Open? then None else (
          match ReadClosed(ts[2..])
          case None => None
          case Some(r) => Some(Reading(Tree.Unary(op, r.tree), r.rest)))
      case _ => None
  }

  /** An expression and the parenthesis that closes it. */
  function ReadClosed<V>(ts: seq<Token<V>>): (r: Option<Reading<V>>)
    ensures r.Some? ==> |r.value.rest| < |ts|
    decreases |ts|, 2
  {
    match ReadExpr(0, ts)
    case None => None
    case Some(r) => if r.rest != [] && r.rest[0].Close? then Some(Reading(r.tree, r.rest[1..])) else None
  }

  /** How tightly a reader takes a symbol to bind, as Rust orders its operators: disjunctions bind least, then
      exclusive ones, conjunctions, comparisons, shifts, sums and products. */
  function Tightness(s: Symbol): nat {
    match s
    case NotEqual => 4
    case Op(op) =>
      match op
      case Mul | MulUpperSS | MulUpperUU | MulUpperSU | DivU | DivS | RemU | RemS => 7
      case Add | Sub | NegAdd => 6
      case Shl | ShrU | ShrS | RotL | RotR => 5
      case And | AndInv => 3
      case Xor | Xnor => 2
      case Or | OrInv => 1
      case _ => 4
  }

  function ReadTail<V>(t: Tree<V>, min: nat, ts: seq<Token<V>>): (r: Option<Reading<V>>)
    ensures r.Some? ==> |r.value.rest| <= |ts|
    decreases |ts|, 0
  {
    if ts == [] || !ts[0].Infix? || Tightness(ts[0].sym) < min then Some(Reading(t, ts)) else
      match ReadExpr(Tightness(ts[0].sym) + 1, ts[1..])
      case None => None
      case Some(r) => ReadTail(Binary(t, ts[0].sym, r.tree), min, r.rest)
  }

  // ----- What is read back

  function BindingOf<V>(e: Expr<V>): nat { if e.BinOp? then Precedence(e.op) else ATOM }

  /** An operand of the same precedence, printed bare on the right, joins the chain on its left. */
  predicate Joins<V>(s: Symbol, e: Expr<V>, parens: bool) { !parens && e.BinOp? && Precedence(e.op) == Binding(s) }

  /** The tree read for `e`. */
  function ReadBack<V>(e: Expr<V>): Tree<V>
    requires Printable(e)
    decreases Size(e), 0
  {
    match e
    case Const(v) => Number(v)
    case Var(x) => Variable(x)
    case UnaryOp(op, a) => Tree.Unary(op, ReadBack(a))
    case BinOp(_, _, _) =>
      var s := LayoutOf(e);
      Attach(ReadBack(s.left), s.sym, s.right, s.rightParens)
  }

  /** The tree read for `t sym e`. */
  function Attach<V>(t: Tree<V>, sym: Symbol, e: Expr<V>, parens: bool): Tree<V>
    requires Printable(e)
    decreases Size(e), 1
  {
    if Joins(sym, e, parens) then
      var s := LayoutOf(e);
      Attach(Attach(t, sym, s.left, s.leftParens), s.sym, s.right, s.rightParens)
    else
      Binary(t, sym, ReadBack(e))
  }

  /** What follows does not bind more tightly than `p`. */
  predicate LooserThan<V>(rest: seq<Token<V>>, p: nat) {
    rest != [] && rest[0].Infix? ==> Binding(rest[0].sym) <= p
  }

  lemma {:induction false} ReadPrinted<V>(e: Expr<V>, min: nat, rest: seq<Token<V>>)
    requires Printable(e) && min <= BindingOf(e) && LooserThan(rest, BindingOf(e))
    ensures ReadExpr(min, Print(e) + rest) == ReadTail(ReadBack(e), min, rest)
    decreases Size(e), 0, 1
  {
    match e
    case Const(_) => assert (Print(e) + rest)[1..] == rest;
    case Var(_) => assert (Print(e) + rest)[1..] == rest;
    case UnaryOp(_, _) => ReadPrintedUnary(e, min, rest);
    case BinOp(_, _, _) => ReadPrintedBinary(e, min, rest);
  }

  lemma {:induction false} ReadPrintedUnary<V>(e: Expr<V>, min: nat, rest: seq<Token<V>>)
    requires Printable(e) && e.UnaryOp?
    ensures ReadExpr(min, Print(e) + rest) == ReadTail(ReadBack(e), min, rest)
    decreases Size(e), 0, 0
  {
    ReadParenthesised(e.operand, rest);
    assert (Print(e) + rest)[2..] == Print(e.operand) + ([Close] + rest);
  }

  lemma {:induction false} ReadPrintedBinary<V>(e: Expr<V>, min: nat, rest: seq<Token<V>>)
    requires Printable(e) && e.BinOp? && min <= BindingOf(e) && LooserThan(rest, BindingOf(e))
    ensures ReadExpr(min, Print(e) + rest) == ReadTail(ReadBack(e), min, rest)
    decreases Size(e), 0, 0
  {
    var s := LayoutOf(e);
    var more := [Infix(s.sym)] + Operand(s.right, s.rightParens) + rest;
    assert Print(e) + rest == Operand(s.left, s.leftParens) + more;
    ReadOperandOf(s.left, s.leftParens, min, more);
    ReadAttached(ReadBack(s.left), s.sym, s.right, s.rightParens, min, rest);
  }

  lemma {:induction false} ReadOperandOf<V>(e: Expr<V>, parens: bool, min: nat, rest: seq<Token<V>>)
    requires Printable(e) && (parens || (min <= BindingOf(e) && LooserThan(rest, BindingOf(e))))
    ensures ReadExpr(min, Operand(e, parens) + rest) == ReadTail(ReadBack(e), min, rest)
    decreases Size(e), 2
  {
    if parens {
      ReadParenthesised(e, rest);
      assert (Operand(e, parens) + rest)[1..] == Print(e) + ([Close] + rest);
    } else {
      ReadPrinted(e, min, rest);
    }
  }

  lemma {:induction false} ReadParenthesised<V>(e: Expr<V>, rest: seq<Token<V>>)
    requires Printable(e)
    ensures ReadClosed(Print(e) + ([Close] + rest)) == Some(Reading(ReadBack(e), rest))
    decreases Size(e), 1
  {
    ReadPrinted(e, 0, [Close] + rest);
    assert ([Close] + rest)[1..] == rest;
  }

  lemma {:induction false} ReadAttached<V>(t: Tree<V>, sym: Symbol, e: Expr<V>, parens: bool, min: nat,
      rest: seq<Token<V>>)
    requires Printable(e) && min <= Binding(sym) && LooserThan(rest, Binding(sym))
    requires parens || BindingOf(e) >= Binding(sym)
    ensures ReadTail(t, min, [Infix(sym)] + Operand(e, parens) + rest) ==
      ReadTail(Attach(t, sym, e, parens), min, rest)
    decreases Size(e), 3, 1
  {
    if Joins(sym, e, parens) {
      ReadJoined(t, sym, e, parens, min, rest);
    } else {
      var ts := [Infix(sym)] + Operand(e, parens) + rest;
      assert ts[1..] == Operand(e, parens) + rest;
      ReadOperandOf(e, parens, Binding(sym) + 1, rest);
    }
  }

  lemma {:induction false} ReadJoined<V>(t: Tree<V>, sym: Symbol, e: Expr<V>, parens: bool, min: nat,
      rest: seq<Token<V>>)
    requires Printable(e) && min <= Binding(sym) && LooserThan(rest, Binding(sym)) && Joins(sym, e, parens)
    ensures ReadTail(t, min, [Infix(sym)] + Operand(e, parens) + rest) ==
      ReadTail(Attach(t, sym, e, parens), min, rest)
    decreases Size(e), 3, 0
  {
    var s := LayoutOf(e);
    var more := [Infix(s.sym)] + Operand(s.right, s.rightParens) + rest;
    assert [Infix(sym)] + Operand(e, parens) + rest == [Infix(sym)] + Operand(s.left, s.leftParens) + more;
    ReadAttached(t, sym, s.left, s.leftParens, min, more);
    ReadAttached(Attach(t, sym, s.left, s.leftParens), s.sym, s.right, s.rightParens, min, rest);
  }

  /** Printed text is always readable, and reads as the tree `ReadBack` describes. */
  lemma PrintedIsRead<V>(e: Expr<V>)
    requires Printable(e)
    ensures ReadExpr(0, Print(e)) == Some(Reading(ReadBack(e), []))
  {
    ReadPrinted(e, 0, []);
    assert Print(e) + [] == Print(e);
  }

  // ----- Parentheses are needed

  function Chain<V>(x: V, s1: Symbol, y: V, s2: Symbol, z: V): seq<Token<V>> {
    [Name(x), Infix(s1), Name(y), Infix(s2), Name(z)]
  }

  lemma TailOfOne<V>(t: Tree<V>, min: nat, s: Symbol, x: V, rest: seq<Token<V>>)
    requires Tightness(s) >= min && (rest != [] && rest[0].Infix? ==> Tightness(rest[0].sym) <= Tightness(s))
    ensures ReadTail(t, min, [Infix(s), Name(x)] + rest) == ReadTail(Binary(t, s, Variable(x)), min, rest)
  {
    var ts := [Infix(s), Name(x)] + rest;
    assert ts[1..] == [Name(x)] + rest && ([Name(x)] + rest)[1..] == rest;
    assert ReadExpr(Tightness(s) + 1, ts[1..]) == Some(Reading(Variable(x), rest));
  }

  /** An operator after which a tighter one follows. */
  lemma TailOfTighter<V>(t: Tree<V>, s1: Symbol, y: V, s2: Symbol, z: V)
    requires Tightness(s2) > Tightness(s1)
    ensures ReadTail(t, 0, [Infix(s1), Name(y)] + [Infix(s2), Name(z)]) ==
      Some(Reading(Binary(t, s1, Binary(Variable(y), s2, Variable(z))), []))
  {
    var min, more := Tightness(s1) + 1, [Infix(s2), Name(z)];
    var ts := [Infix(s1), Name(y)] + more;
    assert ts[1..] == [Name(y)] + more && ([Name(y)] + more)[1..] == more && more + [] == more;
    TailOfOne(Variable(y), min, s2, z, []);
    var inner := Binary(Variable(y), s2, Variable(z));
    assert ReadExpr(min, ts[1..]) == Some(Reading(inner, []));
    assert ReadTail(Binary(t, s1, inner), 0, []) == Some(Reading(Binary(t, s1, inner), []));
  }

  /** How two operators in a row are read. */
  lemma ChainIsRead<V>(x: V, s1: Symbol, y: V, s2: Symbol, z: V)
    ensures ReadExpr(0, Chain(x, s1, y, s2, z)) == Some(Reading(
      if Tightness(s2) > Tightness(s1) then Binary(Variable(x), s1, Binary(Variable(y), s2, Variable(z)))
      else Binary(Binary(Variable(x), s1, Variable(y)), s2, Variable(z)), []))
  {
    var ts, more := Chain(x, s1, y, s2, z), [Infix(s2), Name(z)];
    assert ts[1..] == [Infix(s1), Name(y)] + more && more + [] == more;
    assert ReadExpr(0, ts) == ReadTail(Variable(x), 0, [Infix(s1), Name(y)] + more);
    if Tightness(s2) > Tightness(s1) {
      TailOfTighter(Variable(x), s1, y, s2, z);
    } else {
      TailOfOne(Variable(x), 0, s1, y, more);
      TailOfOne(Binary(Variable(x), s1, Variable(y)), 0, s2, z, []);
    }
  }

  /** An operand on the left is put in parentheses exactly when it would otherwise be torn apart; one on the right
      too, but for an operator of the same level after a commutative one. */
  lemma ParensAreNeeded<V>(op: BinOp, inner: BinOp, x: V, y: V, z: V)
    ensures NeedsParens(Expr.BinOp(inner, Var(x), Var(y)), op, true) <==>
      ReadExpr(0, Chain(x, Op(inner), y, Op(op), z)) !=
        Some(Reading(Binary(Binary(Variable(x), Op(inner), Variable(y)), Op(op), Variable(z)), []))
    ensures NeedsParens(Expr.BinOp(inner, Var(y), Var(z)), op, false) <==>
      && !(IsCommutative(op) && Tightness(Op(inner)) == Tightness(Op(op)))
      && ReadExpr(0, Chain(x, Op(op), y, Op(inner), z)) !=
        Some(Reading(Binary(Variable(x), Op(op), Binary(Variable(y), Op(inner), Variable(z))), []))
  {
    ChainIsRead(x, Op(inner), y, Op(op), z);
    ChainIsRead(x, Op(op), y, Op(inner), z);
    assert Precedence(op) == Binding(Op(op)) && Precedence(inner) == Binding(Op(inner));
  }

  /** The parentheses of `(x + y) != 0`, printed for `0 <u x + y`, are not needed. */
  lemma SpareParens(x: string, y: string)
    ensures var e := Expr.BinOp(LtU, Const(0), Expr.BinOp(Add, Var(x), Var(y)));
      && Print(e) == [Open, Name(x), Infix(Op(Add)), Name(y), Close, Infix(NotEqual), Num(0)]
      && ReadExpr(0, [Name(x), Infix(Op(Add)), Name(y), Infix(NotEqual), Num(0)]) == ReadExpr(0, Print(e))
  {
    var sum: Expr<string> := Expr.BinOp(Add, Var(x), Var(y));
    var e := Expr.BinOp(LtU, Const(0), sum);
    var t := Binary(Variable(x), Op(Add), Variable(y));
    var more := [Infix(NotEqual), Num(0)];
    SumIsPrinted(x, y);
    assert LayoutOf(e) == Layout(sum, true, NotEqual, Const(0), false);
    PrintedIsRead(e);
    assert Attach<string>(t, NotEqual, Const(0), false) == Binary(t, NotEqual, Number(0));
    assert ReadBack(e) == Binary(t, NotEqual, Number(0));
    ReadPrinted(sum, 0, more);
    assert Print(sum) + more == [Name(x), Infix(Op(Add)), Name(y), Infix(NotEqual), Num(0)];
    TailIsCompared(t, more);
  }

  lemma SumIsPrinted(x: string, y: string)
    ensures var sum := Expr.BinOp(Add, Var(x), Var(y));
      && Printable(sum) && Print(sum) == [Name(x), Infix(Op(Add)), Name(y)]
      && ReadBack(sum) == Binary(Variable(x), Op(Add), Variable(y))
  {
    var sum: Expr<string> := Expr.BinOp(Add, Var(x), Var(y));
    assert LayoutOf(sum) == Layout(Var(x), false, Op(Add), Var(y), false);
    assert Operand<string>(Var(x), false) == [Name(x)] && Operand<string>(Var(y), false) == [Name(y)];
    assert Print(sum) == [Name(x)] + [Infix(Op(Add))] + [Name(y)];
    assert Attach<string>(Variable(x), Op(Add), Var(y), false) == Binary(Variable(x), Op(Add), Variable(y));
  }

  lemma TailIsCompared(t: Tree<string>, more: seq<Token<string>>)
    requires more == [Infix(NotEqual), Num(0)]
    ensures ReadTail(t, 0, more) == Some(Reading(Binary(t, NotEqual, Number(0)), []))
  {
    assert more[1..] == [Num(0)] && more[1..][1..] == [];
    assert ReadExpr<string>(5, [Num(0)]) == Some(Reading(Number(0), []));
    assert ReadTail(t, 0, more) == ReadTail(Binary(t, NotEqual, Number(0)), 0, []);
  }

  // ----- Values

  function SymbolValue(s: Symbol, a: Word, b: Word, m: Machine): Word {
    if s.NotEqual? then Flag(a != b) else BinValue(s.op, a, b, m.other)
  }

  function TreeValue<V(!new)>(t: Tree<V>, env: V -> Word, m: Machine): Word {
    match t
    case Number(n) => ToWord(n)
    case Variable(x) => env(x)
    case Unary(op, a) => UnaryValue(op, TreeValue(a, env, m), m)
    case Binary(l, s, r) => SymbolValue(s, TreeValue(l, env, m), TreeValue(r, env, m), m)
  }

  /** a op (b inner c) == (a op b) inner c, for all words. */
  predicate Reassociates(op: BinOp, inner: BinOp) {
    match op
    case Add => inner == Add || inner == Sub
    case Mul => inner == Mul
    case And => inner == And || inner == AndInv
    case Or => inner == Or || inner == OrInv
    case Xor => inner == Xor || inner == Xnor
    case _ => false
  }

  /** Everything of the parent's precedence that is printed bare to its right may join it. */
  predicate MayJoin<V>(sym: Symbol, e: Expr<V>, parens: bool)
    decreases Size(e)
  {
    Joins(sym, e, parens) ==>
      var s := LayoutOf(e);
      sym.Op? && s.sym.Op? && Reassociates(sym.op, s.sym.op) && MayJoin(sym, s.left, s.leftParens)
  }

  /** No operator in the tree is printed where reading would regroup it with another meaning. */
  predicate Regroupable<V>(e: Expr<V>)
    requires Printable(e)
    decreases Size(e)
  {
    match e
    case UnaryOp(_, a) => Regroupable(a)
    case BinOp(_, _, _) =>
      var s := LayoutOf(e);
      Regroupable(s.left) && Regroupable(s.right) && MayJoin(s.sym, s.right, s.rightParens)
    case _ => true
  }

  lemma LayoutKeepsValue<V(!new)>(e: Expr<V>, env: V -> Word, m: Machine)
    requires e.BinOp?
    ensures var s := LayoutOf(e);
      SymbolValue(s.sym, Eval(s.left, env, m), Eval(s.right, env, m), m) == Eval(e, env, m)
  {
    if e.op == Add && e.rhs.Const? { SubtractNegated(Eval(e.lhs, env, m), e.rhs.value); }
  }

  lemma SubtractNegated(a: Word, v: int)
    ensures ToWord(a - ToWord(WrapI64(-v))) == ToWord(a + ToWord(v))
  {
    WrappedConstant(-v);
    ToWordPlus(a, -v);
    ToWordPlus(a, v);
  }

  lemma GatesFollow(op: BinOp, inner: BinOp)
    requires Reassociates(op, inner) && IsBitwise(op)
    ensures GatesReassociate(Gate(op), Gate(inner))
  {
  }

  lemma BitsReassociate(op: BinOp, inner: BinOp, a: Word, b: Word, c: Word)
    requires Reassociates(op, inner) && IsBitwise(op)
    ensures BitwiseWord(inner, BitwiseWord(op, a, b), c) == BitwiseWord(op, a, BitwiseWord(inner, b, c))
  {
    BitwiseWordIs(op, a, b);
    BitwiseWordIs(inner, b, c);
    GatesFollow(op, inner);
    BitwiseReassociates(Gate(op), Gate(inner), 64, a, b, c);
  }

  lemma ReassociateValue(op: BinOp, inner: BinOp, a: Word, b: Word, c: Word, other: (BinOp, Word, Word) -> Word)
    requires Reassociates(op, inner)
    ensures BinValue(inner, BinValue(op, a, b, other), c, other) == BinValue(op, a, BinValue(inner, b, c, other), other)
  {
    if op == Add {
      SumsReassociate(a, b, c);
    } else if op == Mul {
      MulAssociates(a, b, c);
    } else {
      BitsReassociate(op, inner, a, b, c);
      BitwiseValue(op, a, b, other);
      BitwiseValue(inner, b, c, other);
      BitwiseValue(op, a, BitwiseWord(inner, b, c), other);
      BitwiseValue(inner, BitwiseWord(op, a, b), c, other);
    }
  }

  lemma SumsReassociate(a: Word, b: Word, c: Word)
    ensures ToWord(ToWord(a + b) + c) == ToWord(a + ToWord(b + c))
    ensures ToWord(ToWord(a + b) - c) == ToWord(a + ToWord(b - c))
  {
    ToWordPlus(c, a + b);
    ToWordPlus(0 - c, a + b);
    ToWordPlus(a, b + c);
    ToWordPlus(a, b - c);
  }

  lemma BitwiseValue(op: BinOp, a: Word, b: Word, other: (BinOp, Word, Word) -> Word)
    requires IsBitwise(op)
    ensures BinValue(op, a, b, other) == BitwiseWord(op, a, b)
  {
  }

  lemma {:induction false} AttachValue<V(!new)>(t: Tree<V>, sym: Symbol, e: Expr<V>, parens: bool, env: V -> Word,
      m: Machine)
    requires Printable(e) && Regroupable(e) && MayJoin(sym, e, parens)
    ensures TreeValue(Attach(t, sym, e, parens), env, m) == SymbolValue(sym, TreeValue(t, env, m), Eval(e, env, m), m)
    decreases Size(e), 1
  {
    if Joins(sym, e, parens) {
      var s := LayoutOf(e);
      AttachValue(t, sym, s.left, s.leftParens, env, m);
      AttachValue(Attach(t, sym, s.left, s.leftParens), s.sym, s.right, s.rightParens, env, m);
      ReassociateValue(sym.op, s.sym.op, TreeValue(t, env, m), Eval(s.left, env, m), Eval(s.right, env, m), m.other);
      LayoutKeepsValue(e, env, m);
    } else {
      ReadBackValue(e, env, m);
    }
  }

  lemma {:induction false} ReadBackValue<V(!new)>(e: Expr<V>, env: V -> Word, m: Machine)
    requires Printable(e) && Regroupable(e)
    ensures TreeValue(ReadBack(e), env, m) == Eval(e, env, m)
    decreases Size(e), 0
  {
    match e
    case UnaryOp(_, a) => ReadBackValue(a, env, m);
    case BinOp(_, _, _) =>
      var s := LayoutOf(e);
      ReadBackValue(s.left, env, m);
      AttachValue(ReadBack(s.left), s.sym, s.right, s.rightParens, env, m);
      LayoutKeepsValue(e, env, m);
    case _ =>
  }

  /** Reading back what is printed gives an expression of the same value. */
  lemma PrintRoundTrip<V(!new)>(e: Expr<V>, env: V -> Word, m: Machine)
    requires Printable(e) && Regroupable(e)
    ensures var r := ReadExpr(0, Print(e));
      r.Some? && r.value.rest == [] && TreeValue(r.value.tree, env, m) == Eval(e, env, m)
  {
    PrintedIsRead(e);
    ReadBackValue(e, env, m);
  }

  // ----- Which regroupings go wrong

  ghost predicate ReadsBackAlike(e: Expr<string>)
    requires Printable(e)
  {
    forall env: string -> Word, m: Machine :: TreeValue(ReadBack(e), env, m) == Eval(e, env, m)
  }

  function RightNested(op: BinOp, inner: BinOp): Expr<string> {
    Expr.BinOp(op, Var("x"), Expr.BinOp(inner, Var("y"), Var("z")))
  }

  /** The machine's remainders and upper multiplications. */
  function Remaining(op: BinOp, a: Word, b: Word): Word {
    match op
    case RemU => if b == 0 then a else ToWord(a % b)
    case RemS => if b == 0 then a else ToWord(Signed(a) - Signed(b) * DivTrunc(Signed(a), Signed(b)))
    case MulUpperUU => ToWord(a * b / TWO_64)
    case MulUpperSS => ToWord(Signed(a) * Signed(b) / TWO_64)
    case MulUpperSU => ToWord(Signed(a) * b / TWO_64)
    case _ => 0
  }

  function Values(a: Word, b: Word, c: Word): string -> Word {
    v => if v == "x" then a else if v == "y" then b else c
  }

  function RealMachine(): Machine {
    Machine(Remaining, (op, a) => 0, (w, a) => 0, (w, a, v) => 0, (f, args) => 0, (t, xs) => 0)
  }

  lemma RightNestedIsRead(op: BinOp, inner: BinOp)
    requires IsCommutative(op) && Precedence(inner) == Precedence(op)
    ensures ReadBack(RightNested(op, inner)) ==
      Binary(Binary(Variable("x"), Op(op), Variable("y")), Op(inner), Variable("z"))
  {
    var e := RightNested(op, inner);
    assert Attach<string>(Variable("x"), Op(op), Var("y"), false) == Binary(Variable("x"), Op(op), Variable("y"));
    assert LayoutOf(e.rhs) == Layout(Var("y"), false, Op(inner), Var("z"), false);
    assert LayoutOf(e) == Layout(Var("x"), false, Op(op), e.rhs, false);
  }

  /** Printing drops the parentheses of `x op (y inner z)` for every operator of equal precedence;
      the value survives for exactly the pairs that reassociate. */
  lemma RegroupsExactly(op: BinOp, inner: BinOp)
    requires IsCommutative(op) && Precedence(inner) == Precedence(op)
    ensures ReadsBackAlike(RightNested(op, inner)) <==> Reassociates(op, inner)
  {
    if Reassociates(op, inner) {
      ReassociatingPairSurvives(op, inner);
    } else {
      var a, b, c := Misread(op, inner);
      MisreadShows(op, inner, a, b, c);
    }
  }

  lemma ReassociatingPairSurvives(op: BinOp, inner: BinOp)
    requires IsCommutative(op) && Precedence(inner) == Precedence(op) && Reassociates(op, inner)
    ensures ReadsBackAlike(RightNested(op, inner))
  {
    var e := RightNested(op, inner);
    assert LayoutOf(e.rhs) == Layout(Var("y"), false, Op(inner), Var("z"), false);
    assert LayoutOf(e) == Layout(Var("x"), false, Op(op), e.rhs, false);
    assert MayJoin(Op(op), e.rhs, false);
    assert Regroupable(e);
    forall env: string -> Word, m: Machine ensures TreeValue(ReadBack(e), env, m) == Eval(e, env, m) {
      ReadBackValue(e, env, m);
    }
  }

  predicate Differs(op: BinOp, inner: BinOp, a: Word, b: Word, c: Word) {
    BinValue(inner, BinValue(op, a, b, Remaining), c, Remaining) !=
      BinValue(op, a, BinValue(inner, b, c, Remaining), Remaining)
  }

  lemma MisreadShows(op: BinOp, inner: BinOp, a: Word, b: Word, c: Word)
    requires IsCommutative(op) && Precedence(inner) == Precedence(op) && Differs(op, inner, a, b, c)
    ensures !ReadsBackAlike(RightNested(op, inner))
  {
    RightNestedIsRead(op, inner);
    ValuesDiffer(op, inner, a, b, c);
    var e := RightNested(op, inner);
    var left := Binary(Binary(Variable("x"), Op(op), Variable("y")), Op(inner), Variable("z"));
    assert ReadBack(e) == left;
  }

  lemma ValuesDiffer(op: BinOp, inner: BinOp, a: Word, b: Word, c: Word)
    requires Differs(op, inner, a, b, c)
    ensures var left := Binary(Binary(Variable("x"), Op(op), Variable("y")), Op(inner), Variable("z"));
      TreeValue(left, Values(a, b, c), RealMachine()) !=
      Eval(RightNested(op, inner), Values(a, b, c), RealMachine())
  {
    RightNestedValues(op, inner, Values(a, b, c), RealMachine());
    LeftNestedValues(op, inner, Values(a, b, c), RealMachine());
  }

  lemma RightNestedValues(op: BinOp, inner: BinOp, env: string -> Word, m: Machine)
    ensures Eval(RightNested(op, inner), env, m) ==
      BinValue(op, env("x"), BinValue(inner, env("y"), env("z"), m.other), m.other)
  {
    EvalBinary(inner, Var("y"), Var("z"), env, m);
    EvalBinary(op, Var("x"), Expr.BinOp(inner, Var("y"), Var("z")), env, m);
  }

  lemma LeftNestedValues(op: BinOp, inner: BinOp, env: string -> Word, m: Machine)
    ensures TreeValue(Binary(Binary(Variable("x"), Op(op), Variable("y")), Op(inner), Variable("z")), env, m) ==
      BinValue(inner, BinValue(op, env("x"), env("y"), m.other), env("z"), m.other)
  {
    TreeBinary(Variable("x"), op, Variable("y"), env, m);
    TreeBinary(Binary(Variable("x"), Op(op), Variable("y")), inner, Variable("z"), env, m);
  }

  lemma EvalBinary(op: BinOp, l: Expr<string>, r: Expr<string>, env: string -> Word, m: Machine)
    ensures Eval(Expr.BinOp(op, l, r), env, m) == BinValue(op, Eval(l, env, m), Eval(r, env, m), m.other)
  {
  }

  lemma TreeBinary(l: Tree<string>, op: BinOp, r: Tree<string>, env: string -> Word, m: Machine)
    ensures TreeValue(Binary(l, Op(op), r), env, m) == BinValue(op, TreeValue(l, env, m), TreeValue(r, env, m), m.other)
  {
  }

  lemma Misread(op: BinOp, inner: BinOp) returns (a: Word, b: Word, c: Word)
    requires IsCommutative(op) && Precedence(inner) == Precedence(op) && !Reassociates(op, inner)
    ensures Differs(op, inner, a, b, c)
  {
    if inner == NegAdd {
      a, b, c := 1, 0, 0;
      NegatedSumDiffers();
    } else if inner in {MulUpperUU, MulUpperSS, MulUpperSU} {
      a, b, c := 2, 0x8000_0000_0000_0000, 2;
      UpperProductDiffers(inner);
    } else {
      a, b, c := 2, 1, 2;
      if inner == DivU || inner == DivS { QuotientDiffers(inner); } else { RemainderDiffers(inner); }
    }
  }

  lemma NegatedSumDiffers()
    ensures Differs(Add, NegAdd, 1, 0, 0)
  {
  }

  lemma QuotientDiffers(inner: BinOp)
    requires inner == DivU || inner == DivS
    ensures Differs(Mul, inner, 2, 1, 2)
  {
    assert BinValue(inner, 1, 2, Remaining) == 0 && BinValue(inner, 2, 2, Remaining) == 1;
  }

  lemma RemainderDiffers(inner: BinOp)
    requires inner == RemU || inner == RemS
    ensures Differs(Mul, inner, 2, 1, 2)
  {
    assert Remaining(inner, 1, 2) == 1 && Remaining(inner, 2, 2) == 0;
    assert BinValue(inner, 1, 2, Remaining) == 1 && BinValue(inner, 2, 2, Remaining) == 0;
  }

  lemma UpperProductDiffers(inner: BinOp)
    requires inner in {MulUpperUU, MulUpperSS, MulUpperSU}
    ensures Differs(Mul, inner, 2, 0x8000_0000_0000_0000, 2)
  {
    var b: Word := 0x8000_0000_0000_0000;
    assert BinValue(Mul, 2, b, Remaining) == 0;
    assert Remaining(inner, 0, 2) == 0;
    assert Remaining(inner, b, 2) == if inner == MulUpperUU then 1 else TWO_64 - 1;
    assert BinValue(inner, 0, 2, Remaining) == 0;
  }

  function Buried(): Expr<string> {
    Expr.BinOp(Add, Var("x"), Expr.BinOp(Add, Expr.BinOp(NegAdd, Var("y"), Var("z")), Var("z")))
  }

  /** The operator that goes wrong need not be the right operand itself: it may head a chain
      of that precedence, as in `x + ((y neg+ z) + z)`, shown without any parentheses. */
  lemma BuriedMisread()
    ensures !ReadsBackAlike(Buried())
    ensures Print(Buried()) ==
      [Name("x"), Infix(Op(Add)), Name("y"), Infix(Op(NegAdd)), Name("z"), Infix(Op(Add)), Name("z")]
  {
    var e, env, m := Buried(), Values(1, 0, 0), RealMachine();
    var chain := e.rhs;
    assert LayoutOf(chain.lhs) == Layout(Var("y"), false, Op(NegAdd), Var("z"), false);
    assert LayoutOf(chain) == Layout(chain.lhs, false, Op(Add), Var("z"), false);
    assert LayoutOf(e) == Layout(Var("x"), false, Op(Add), chain, false);
    var xy := Binary(Variable("x"), Op(Add), Variable("y"));
    assert Attach<string>(Variable("x"), Op(Add), Var("y"), false) == xy;
    assert Attach<string>(Variable("x"), Op(Add), chain.lhs, false) == Binary(xy, Op(NegAdd), Variable("z"));
    BuriedValues(env, m);
  }

  lemma BuriedValues(env: string -> Word, m: Machine)
    requires env("x") == 1 && env("y") == 0 && env("z") == 0
    ensures Eval(Buried(), env, m) == 1
    ensures TreeValue(Binary(Binary(Binary(Variable("x"), Op(Add), Variable("y")), Op(NegAdd), Variable("z")),
      Op(Add), Variable("z")), env, m) == TWO_64 - 1
  {
    EvalBinary(NegAdd, Var("y"), Var("z"), env, m);
    EvalBinary(Add, Buried().rhs.lhs, Var("z"), env, m);
    EvalBinary(Add, Var("x"), Buried().rhs, env, m);
    LeftNestedValues(Add, NegAdd, env, m);
    var inner := Binary(Binary(Variable("x"), Op(Add), Variable("y")), Op(NegAdd), Variable("z"));
    TreeBinary(inner, Add, Variable("z"), env, m);
  }
}
