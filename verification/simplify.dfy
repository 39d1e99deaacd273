/** The expression simplifier, and the values it preserves. */
module Simplifier {
  import opened Instructions
  import opened Words
  import opened Expressions

  predicate IsComparison(op: BinOp) { op in {LtU, LtS, GeU, GeS, GtU, GtS, LeU, LeS} }

  /** Expressions known to be 0 or 1. */
  predicate IsBoolean<V>(e: Expr<V>) {
    match e
    case UnaryOp(op, _) => op == Not
    case BinOp(op, l, r) => IsComparison(op) || ((op == And || op == Or) && IsBoolean(l) && IsBoolean(r))
    case _ => false
  }

  function Inverted(op: BinOp): BinOp
    requires IsComparison(op)
  {
    match op
    case LtU => GeU case LtS => GeS
    case GtU => LeU case GtS => LeS
    case GeU => LtU case GeS => LtS
    case LeU => GtU case _ => GtS
  }

  function SimplifyBinOp<V>(op: BinOp, l: Expr<V>, r: Expr<V>): Expr<V> {
    if op == Add && l.Const? && r.Const? then Const(WrapI64(l.value + r.value))
    else if op == Sub && l.Const? && r.Const? then Const(WrapI64(l.value - r.value))
    else if op == Mul && l.Const? && r.Const? then Const(WrapI64(l.value * r.value))
    else if op in {Add, Sub, Or, Xor, Shl, ShrU, ShrS} && r == Const(0) then l
    else if op in {Add, Or, Xor} && l == Const(0) then r
    else if op == Add && l.BinOp? && l.op == Add && l.rhs.Const? && r.Const? then
      var sum := WrapI64(l.rhs.value + r.value);
      if sum == 0 then l.lhs else Expr.BinOp(Add, l.lhs, Const(sum))
    else if op in {Mul, DivU, DivS} && r == Const(1) then l
    else if op == Mul && l == Const(1) then r
    else if op in {Mul, And} && (r == Const(0) || l == Const(0)) then Const(0)
    else if op == LtU && r == Const(1) then Expr.UnaryOp(Not, l)
    else if op == LtU && l == Const(0) then
      if IsBoolean(r) then r else Expr.BinOp(op, l, r)
    else if op in {LtU, LtS} && l.Const? then Expr.BinOp(if op == LtU then GtU else GtS, r, l)
    else Expr.BinOp(op, l, r)
  }

  function SimplifyUnaryOp<V>(op: UnaryOp, a: Expr<V>): Expr<V> {
    if op == Not && a.UnaryOp? && a.uop == Not then a.operand
    else if op == Not && a.BinOp? && IsComparison(a.op) then Expr.BinOp(Inverted(a.op), a.lhs, a.rhs)
    else Expr.UnaryOp(op, a)
  }

  /** A constant addend of an address that fits in 32 bits moves into the offset. */
  predicate Absorbs<V>(b: Expr<V>) { b.BinOp? && b.op == Add && b.rhs.Const? && FitsI32(b.rhs.value) }

  function Simplify<V>(e: Expr<V>): Expr<V> {
    match e
    case BinOp(op, l, r) => SimplifyBinOp(op, Simplify(l), Simplify(r))
    case UnaryOp(op, a) => SimplifyUnaryOp(op, Simplify(a))
    case Load(w, b, off) =>
      var b' := Simplify(b);
      if Absorbs(b') then Expr.Load(w, b'.lhs, WrapI32(off + b'.rhs.value)) else Expr.Load(w, b', off)
    case Store(w, b, off, v) =>
      var b', v' := Simplify(b), Simplify(v);
      if Absorbs(b') then Expr.Store(w, b'.lhs, WrapI32(off + b'.rhs.value), v') else Expr.Store(w, b', off, v')
    case Call(f, args) => Call(f, SimplifyAll(args))
    case _ => e
  }

  function SimplifyAll<V>(es: seq<Expr<V>>): (r: seq<Expr<V>>)
    ensures |r| == |es|
  {
    if es == [] then [] else [Simplify(es[0])] + SimplifyAll(es[1..])
  }

  // ----- Booleans

  lemma ComparisonIsFlag(op: BinOp, a: Word, b: Word, other: (BinOp, Word, Word) -> Word)
    requires IsComparison(op)
    ensures BinValue(op, a, b, other) <= 1
  {
  }

  lemma JunctionIsFlag(op: BinOp, a: Word, b: Word, other: (BinOp, Word, Word) -> Word)
    requires (op == And || op == Or) && a <= 1 && b <= 1
    ensures BinValue(op, a, b, other) <= 1
  {
    BitwiseOfFlags(op, a, b);
  }

  lemma {:induction false} BooleanIsFlag<V(!new)>(e: Expr<V>, env: V -> Word, m: Machine)
    requires IsBoolean(e)
    ensures Eval(e, env, m) <= 1
  {
    if e.BinOp? {
      if IsComparison(e.op) {
        ComparisonIsFlag(e.op, Eval(e.lhs, env, m), Eval(e.rhs, env, m), m.other);
      } else {
        BooleanIsFlag(e.lhs, env, m);
        BooleanIsFlag(e.rhs, env, m);
        JunctionIsFlag(e.op, Eval(e.lhs, env, m), Eval(e.rhs, env, m), m.other);
      }
    }
  }

  // ----- One level

  lemma WrappedConstant(x: int)
    ensures ToWord(WrapI64(x)) == ToWord(x)
  {
  }

  lemma FoldedSum(a: int, b: int)
    ensures ToWord(ToWord(a) + ToWord(b)) == ToWord(WrapI64(a + b))
    ensures ToWord(ToWord(a) - ToWord(b)) == ToWord(WrapI64(a - b))
  {
    ToWordPlus(ToWord(a), b);
    ToWordPlus(b, a);
    ToWordPlus(0 - b, a);
    WrappedConstant(a + b);
    WrappedConstant(a - b);
  }

  lemma FoldedProduct(a: int, b: int)
    ensures ToWord(ToWord(a) * ToWord(b)) == ToWord(WrapI64(a * b))
  {
    ToWordMul(a, b);
    WrappedConstant(a * b);
  }

  lemma FoldedConstants(op: BinOp, a: int, b: int, other: (BinOp, Word, Word) -> Word)
    ensures op == Add ==> BinValue(op, ToWord(a), ToWord(b), other) == ToWord(WrapI64(a + b))
    ensures op == Sub ==> BinValue(op, ToWord(a), ToWord(b), other) == ToWord(WrapI64(a - b))
    ensures op == Mul ==> BinValue(op, ToWord(a), ToWord(b), other) == ToWord(WrapI64(a * b))
  {
    FoldedSum(a, b);
    FoldedProduct(a, b);
  }

  lemma Reassociated(x: Word, a: int, b: int)
    ensures ToWord(ToWord(x + ToWord(a)) + ToWord(b)) == ToWord(x + ToWord(WrapI64(a + b)))
    ensures WrapI64(a + b) == 0 ==> ToWord(ToWord(x + ToWord(a)) + ToWord(b)) == x
  {
    ToWordPlus(ToWord(x + ToWord(a)), b);
    ToWordPlus(b, x + ToWord(a));
    ToWordPlus(x + b, a);
    WrappedConstant(a + b);
    ToWordPlus(x, a + b);
  }

  lemma ZeroOnTheRight(op: BinOp, a: Word, other: (BinOp, Word, Word) -> Word)
    ensures op in {Add, Sub, Or, Xor, Shl, ShrU, ShrS} ==> BinValue(op, a, 0, other) == a
    ensures op in {Mul, And} ==> BinValue(op, a, 0, other) == 0
  {
    if op == Or || op == Xor || op == And { BitwiseWithZero(op, a); }
    if op == Shl || op == ShrU || op == ShrS { assert Pow2(0) == 1; }
  }

  lemma ZeroOnTheLeft(op: BinOp, a: Word, other: (BinOp, Word, Word) -> Word)
    ensures op in {Add, Or, Xor} ==> BinValue(op, 0, a, other) == a
    ensures op in {Mul, And} ==> BinValue(op, 0, a, other) == 0
  {
    if op == Or || op == Xor || op == And { BitwiseWithZero(op, a); }
  }

  lemma OneBesides(op: BinOp, a: Word, other: (BinOp, Word, Word) -> Word)
    ensures op in {Mul, DivU, DivS} ==> BinValue(op, a, 1, other) == a
    ensures op == Mul ==> BinValue(op, 1, a, other) == a
    ensures op == LtU ==> BinValue(op, a, 1, other) == Flag(a == 0)
  {
    if op == DivS { assert DivTrunc(Signed(a), Signed(1)) == Signed(a); }
  }

  lemma FlippedComparison(a: Word, b: Word, other: (BinOp, Word, Word) -> Word)
    ensures BinValue(LtU, a, b, other) == BinValue(GtU, b, a, other)
    ensures BinValue(LtS, a, b, other) == BinValue(GtS, b, a, other)
    ensures b <= 1 ==> BinValue(LtU, 0, b, other) == b
  {
  }

  ghost predicate Keeps<V(!new)>(op: BinOp, l: Expr<V>, r: Expr<V>, env: V -> Word, m: Machine) {
    Eval(SimplifyBinOp(op, l, r), env, m) == BinValue(op, Eval(l, env, m), Eval(r, env, m), m.other)
  }

  lemma SumKept<V(!new)>(l: Expr<V>, r: Expr<V>, env: V -> Word, m: Machine)
    ensures Keeps(Add, l, r, env, m)
  {
    if l.Const? && r.Const? {
      FoldedConstants(Add, l.value, r.value, m.other);
    } else if l.BinOp? && l.op == Add && l.rhs.Const? && r.Const? && r != Const(0) {
      NestedSumKept(l, r, env, m);
    } else {
      PlainSumKept(l, r, env, m);
    }
  }

  lemma PlainSumKept<V(!new)>(l: Expr<V>, r: Expr<V>, env: V -> Word, m: Machine)
    requires !(l.Const? && r.Const?) && !(EndsInConstant(l) && r.Const? && r != Const(0))
    ensures Keeps(Add, l, r, env, m)
  {
    if r == Const(0) {
      ZeroOnTheRight(Add, Eval(l, env, m), m.other);
    } else if l == Const(0) {
      ZeroOnTheLeft(Add, Eval(r, env, m), m.other);
    }
  }

  lemma NestedSumKept<V(!new)>(l: Expr<V>, r: Expr<V>, env: V -> Word, m: Machine)
    requires l.BinOp? && l.op == Add && l.rhs.Const? && r.Const? && r != Const(0)
    ensures Keeps(Add, l, r, env, m)
  {
    Reassociated(Eval(l.lhs, env, m), l.rhs.value, r.value);
  }

  lemma ProductKept<V(!new)>(l: Expr<V>, r: Expr<V>, env: V -> Word, m: Machine)
    ensures Keeps(Mul, l, r, env, m)
  {
    var a, b := Eval(l, env, m), Eval(r, env, m);
    if l.Const? && r.Const? {
      FoldedConstants(Mul, l.value, r.value, m.other);
    } else if r == Const(1) {
      OneBesides(Mul, a, m.other);
    } else if l == Const(1) {
      OneBesides(Mul, b, m.other);
    } else if r == Const(0) {
      ZeroOnTheRight(Mul, a, m.other);
    } else if l == Const(0) {
      ZeroOnTheLeft(Mul, b, m.other);
    }
  }

  lemma ConjunctionKept<V(!new)>(l: Expr<V>, r: Expr<V>, env: V -> Word, m: Machine)
    ensures Keeps(And, l, r, env, m)
  {
    if r == Const(0) {
      ZeroOnTheRight(And, Eval(l, env, m), m.other);
    } else if l == Const(0) {
      ZeroOnTheLeft(And, Eval(r, env, m), m.other);
    }
  }

  lemma QuotientKept<V(!new)>(op: BinOp, l: Expr<V>, r: Expr<V>, env: V -> Word, m: Machine)
    requires op == DivU || op == DivS
    ensures Keeps(op, l, r, env, m)
  {
    if r == Const(1) { OneBesides(op, Eval(l, env, m), m.other); }
  }

  lemma DifferenceKept<V(!new)>(l: Expr<V>, r: Expr<V>, env: V -> Word, m: Machine)
    ensures Keeps(Sub, l, r, env, m)
  {
    if l.Const? && r.Const? { FoldedConstants(Sub, l.value, r.value, m.other); }
    ZeroOnTheRight(Sub, Eval(l, env, m), m.other);
  }

  lemma DisjunctionKept<V(!new)>(op: BinOp, l: Expr<V>, r: Expr<V>, env: V -> Word, m: Machine)
    requires op == Or || op == Xor
    ensures Keeps(op, l, r, env, m)
  {
    if r == Const(0) {
      ZeroOnTheRight(op, Eval(l, env, m), m.other);
    } else if l == Const(0) {
      ZeroOnTheLeft(op, Eval(r, env, m), m.other);
    }
  }

  lemma ShiftKept<V(!new)>(op: BinOp, l: Expr<V>, r: Expr<V>, env: V -> Word, m: Machine)
    requires op in {Shl, ShrU, ShrS}
    ensures Keeps(op, l, r, env, m)
  {
    if r == Const(0) {
      ZeroOnTheRight(op, Eval(l, env, m), m.other);
    }
  }

  lemma ComparisonKept<V(!new)>(op: BinOp, l: Expr<V>, r: Expr<V>, env: V -> Word, m: Machine)
    requires op == LtU || op == LtS
    ensures Keeps(op, l, r, env, m)
  {
    if op == LtU && r == Const(1) {
      OneBesides(op, Eval(l, env, m), m.other);
    } else if l.Const? {
      TurnedKept(op, l, r, env, m);
    }
  }

  lemma TurnedKept<V(!new)>(op: BinOp, l: Expr<V>, r: Expr<V>, env: V -> Word, m: Machine)
    requires (op == LtU || op == LtS) && l.Const? && !(op == LtU && r == Const(1))
    ensures Keeps(op, l, r, env, m)
  {
    if IsBoolean(r) { BooleanIsFlag(r, env, m); }
    FlippedComparison(Eval(l, env, m), Eval(r, env, m), m.other);
  }

  /** One level of the binary rules keeps the value, whatever the two sides are. */
  lemma SimplifyBinOpKeeps<V(!new)>(op: BinOp, l: Expr<V>, r: Expr<V>, env: V -> Word, m: Machine)
    ensures Eval(SimplifyBinOp(op, l, r), env, m) == BinValue(op, Eval(l, env, m), Eval(r, env, m), m.other)
  {
    assert Keeps(op, l, r, env, m) by {
      match op
      case Add => SumKept(l, r, env, m);
      case Mul => ProductKept(l, r, env, m);
      case And => ConjunctionKept(l, r, env, m);
      case DivU | DivS => QuotientKept(op, l, r, env, m);
      case Sub => DifferenceKept(l, r, env, m);
      case Or | Xor => DisjunctionKept(op, l, r, env, m);
      case Shl | ShrU | ShrS => ShiftKept(op, l, r, env, m);
      case LtU | LtS => ComparisonKept(op, l, r, env, m);
      case _ => assert SimplifyBinOp(op, l, r) == Expr.BinOp(op, l, r);
    }
  }

  lemma InvertedKeeps(op: BinOp, a: Word, b: Word, other: (BinOp, Word, Word) -> Word)
    requires IsComparison(op)
    ensures BinValue(Inverted(op), a, b, other) == Flag(BinValue(op, a, b, other) == 0)
  {
  }

  /** Collapsing a double negation keeps the value exactly when what is under it is 0 or 1. */
  lemma SimplifyUnaryOpKeeps<V(!new)>(op: UnaryOp, a: Expr<V>, env: V -> Word, m: Machine)
    ensures Eval(SimplifyUnaryOp(op, a), env, m) == UnaryValue(op, Eval(a, env, m), m) <==>
      (op == Not && a.UnaryOp? && a.uop == Not ==> Eval(a.operand, env, m) <= 1)
  {
    if op == Not && a.BinOp? && IsComparison(a.op) {
      InvertedKeeps(a.op, Eval(a.lhs, env, m), Eval(a.rhs, env, m), m.other);
    }
  }

  lemma Wrapped32(x: int, y: int)
    ensures (x + WrapI32(y)) % TWO_32 == (x + y) % TWO_32
  {
    var q := y / TWO_32;
    assert y == 0x1_0000_0000 * q + y % TWO_32;
    Mod32Shift(x + WrapI32(y), if y % TWO_32 < TWO_32 / 2 then q else q + 1);
  }

  lemma Word32(x: int, y: int)
    ensures (ToWord(x) + y) % TWO_32 == (x + y) % TWO_32
  {
    var q := x / TWO_64;
    var k := 0x1_0000_0000 * q;
    assert x == 0x1_0000_0000 * k + ToWord(x);
    Mod32Shift(ToWord(x) + y, k);
  }

  lemma AbsorbedAddress(x: Word, c: int, off: int)
    ensures Address(ToWord(x + ToWord(c)), off) == Address(x, WrapI32(off + c))
  {
    Word32(x + ToWord(c), off);
    Word32(c, x + off);
    Wrapped32(x, off + c);
    assert x + (off + c) == c + (x + off) && (x + ToWord(c)) + off == ToWord(c) + (x + off);
  }

  // ----- The whole tree

  /** Every double negation the simplifier collapses has 0 or 1 under it. */
  ghost predicate CollapsesFlags<V(!new)>(e: Expr<V>, env: V -> Word, m: Machine) {
    match e
    case BinOp(_, l, r) => CollapsesFlags(l, env, m) && CollapsesFlags(r, env, m)
    case UnaryOp(op, a) => CollapsesFlags(a, env, m) &&
      (op == Not && Simplify(a).UnaryOp? && Simplify(a).uop == Not ==> Eval(Simplify(a).operand, env, m) <= 1)
    case Load(_, b, _) => CollapsesFlags(b, env, m)
    case Store(_, b, _, v) => CollapsesFlags(b, env, m) && CollapsesFlags(v, env, m)
    case Call(_, args) => AllCollapseFlags(args, env, m)
    case _ => true
  }

  ghost predicate AllCollapseFlags<V(!new)>(es: seq<Expr<V>>, env: V -> Word, m: Machine) {
    es != [] ==> CollapsesFlags(es[0], env, m) && AllCollapseFlags(es[1..], env, m)
  }

  /** Simplification keeps the value of every expression whose collapsed negations are of flags. */
  lemma {:induction false} SimplifyKeepsValue<V(!new)>(e: Expr<V>, env: V -> Word, m: Machine)
    requires CollapsesFlags(e, env, m)
    ensures Eval(Simplify(e), env, m) == Eval(e, env, m)
  {
    match e
    case BinOp(op, l, r) =>
      SimplifyKeepsValue(l, env, m);
      SimplifyKeepsValue(r, env, m);
      SimplifyBinOpKeeps(op, Simplify(l), Simplify(r), env, m);
    case UnaryOp(op, a) =>
      SimplifyKeepsValue(a, env, m);
      SimplifyUnaryOpKeeps(op, Simplify(a), env, m);
    case Load(_, b, off) =>
      SimplifyKeepsValue(b, env, m);
      AbsorbKeeps(Simplify(b), off, env, m);
    case Store(_, b, off, v) =>
      SimplifyKeepsValue(b, env, m);
      SimplifyKeepsValue(v, env, m);
      AbsorbKeeps(Simplify(b), off, env, m);
    case Call(_, args) => SimplifyAllKeepsValue(args, env, m);
    case _ =>
  }

  lemma AbsorbKeeps<V(!new)>(b: Expr<V>, off: int, env: V -> Word, m: Machine)
    ensures Absorbs(b) ==>
      Address(Eval(b, env, m), off) == Address(Eval(b.lhs, env, m), WrapI32(off + b.rhs.value))
  {
    if Absorbs(b) { AbsorbedAddress(Eval(b.lhs, env, m), b.rhs.value, off); }
  }

  lemma {:induction false} SimplifyAllKeepsValue<V(!new)>(es: seq<Expr<V>>, env: V -> Word, m: Machine)
    requires AllCollapseFlags(es, env, m)
    ensures EvalAll(SimplifyAll(es), env, m) == EvalAll(es, env, m)
  {
    if es != [] {
      SimplifyKeepsValue(es[0], env, m);
      SimplifyAllKeepsValue(es[1..], env, m);
    }
  }

  /** At a negation whose operand is simplified soundly, the value is kept exactly when no
      collapse happens there or what is collapsed is 0 or 1. */
  lemma NegationKeptExactly<V(!new)>(a: Expr<V>, env: V -> Word, m: Machine)
    requires CollapsesFlags(a, env, m)
    ensures Eval(Simplify(Expr.UnaryOp(Not, a)), env, m) == Eval(Expr.UnaryOp(Not, a), env, m) <==>
      CollapsesFlags(Expr.UnaryOp(Not, a), env, m)
  {
    SimplifyKeepsValue(a, env, m);
    SimplifyUnaryOpKeeps(Not, Simplify(a), env, m);
  }

  /** The source of the condition: a doubly negated word other than 0 and 1 changes value. */
  lemma DoubleNegationOfTwo(m: Machine)
    ensures var e := Expr.UnaryOp(Not, Expr.UnaryOp(Not, Var("x")));
      Eval(Simplify(e), (x: string) => 2, m) == 2 && Eval(e, (x: string) => 2, m) == 1
  {
    var a := Expr.UnaryOp(Not, Var("x"));
    assert Simplify(a) == a;
    assert Eval(a, (x: string) => 2, m) == 0;
  }

  // ----- A condition on the text alone

  /** Double negations are collapsed only over comparisons, negations and their conjunctions. */
  predicate NegatesBooleans<V(==)>(e: Expr<V>) {
    match e
    case BinOp(_, l, r) => NegatesBooleans(l) && NegatesBooleans(r)
    case UnaryOp(op, a) => NegatesBooleans(a) &&
      (op == Not && Simplify(a).UnaryOp? && Simplify(a).uop == Not ==> IsBoolean(Simplify(a).operand))
    case Load(_, b, _) => NegatesBooleans(b)
    case Store(_, b, _, v) => NegatesBooleans(b) && NegatesBooleans(v)
    case Call(_, args) => AllNegateBooleans(args)
    case _ => true
  }

  predicate AllNegateBooleans<V(==)>(es: seq<Expr<V>>) {
    es != [] ==> NegatesBooleans(es[0]) && AllNegateBooleans(es[1..])
  }

  lemma {:induction false} NegatedBooleansAreFlags<V(!new)>(e: Expr<V>, env: V -> Word, m: Machine)
    requires NegatesBooleans(e)
    ensures CollapsesFlags(e, env, m)
  {
    match e
    case BinOp(_, l, r) => NegatedBooleansAreFlags(l, env, m); NegatedBooleansAreFlags(r, env, m);
    case UnaryOp(op, a) =>
      NegatedBooleansAreFlags(a, env, m);
      if op == Not && Simplify(a).UnaryOp? && Simplify(a).uop == Not { BooleanIsFlag(Simplify(a).operand, env, m); }
    case Load(_, b, _) => NegatedBooleansAreFlags(b, env, m);
    case Store(_, b, _, v) => NegatedBooleansAreFlags(b, env, m); NegatedBooleansAreFlags(v, env, m);
    case Call(_, args) => AllNegatedBooleansAreFlags(args, env, m);
    case _ =>
  }

  lemma {:induction false} AllNegatedBooleansAreFlags<V(!new)>(es: seq<Expr<V>>, env: V -> Word, m: Machine)
    requires AllNegateBooleans(es)
    ensures AllCollapseFlags(es, env, m)
  {
    if es != [] {
      NegatedBooleansAreFlags(es[0], env, m);
      AllNegatedBooleansAreFlags(es[1..], env, m);
    }
  }

  // ----- What is left to simplify: nothing of this

  predicate IsZero<V>(e: Expr<V>) { e.Const? && e.value == 0 }

  predicate IsOne<V>(e: Expr<V>) { e.Const? && e.value == 1 }

  /** A sum whose right operand is a constant. */
  predicate EndsInConstant<V>(e: Expr<V>) { e.BinOp? && e.op == Add && e.rhs.Const? }

  /** An operator on constants, or with an operand that does not matter or decides the result. */
  predicate Reducible<V>(op: BinOp, l: Expr<V>, r: Expr<V>) {
    match op
    case Add => (l.Const? && r.Const?) || IsZero(l) || IsZero(r) || (r.Const? && EndsInConstant(l))
    case Sub => (l.Const? && r.Const?) || IsZero(r)
    case Mul => (l.Const? && r.Const?) || IsZero(l) || IsZero(r) || IsOne(l) || IsOne(r)
    case And => IsZero(l) || IsZero(r)
    case Or => IsZero(l) || IsZero(r)
    case Xor => IsZero(l) || IsZero(r)
    case Shl => IsZero(r)
    case ShrU => IsZero(r)
    case ShrS => IsZero(r)
    case DivU => IsOne(r)
    case DivS => IsOne(r)
    case _ => false
  }

  /** An address whose constant would fit into the offset. */
  predicate HoldsOffset<V>(base: Expr<V>) { EndsInConstant(base) && -0x8000_0000 <= base.rhs.value <= 0x7fff_ffff }

  predicate NormalForm<V>(e: Expr<V>) {
    match e
    case BinOp(op, l, r) => !Reducible(op, l, r) && NormalForm(l) && NormalForm(r)
    case UnaryOp(_, a) => NormalForm(a)
    case Load(_, b, _) => !HoldsOffset(b) && NormalForm(b)
    case Store(_, b, _, v) => !HoldsOffset(b) && NormalForm(b) && NormalForm(v)
    case Call(_, args) => AllNormal(args)
    case _ => true
  }

  predicate AllNormal<V>(es: seq<Expr<V>>) { es == [] || (NormalForm(es[0]) && AllNormal(es[1..])) }

  lemma BinaryNormal<V>(op: BinOp, l: Expr<V>, r: Expr<V>)
    requires NormalForm(l) && NormalForm(r)
    ensures NormalForm(SimplifyBinOp(op, l, r))
  {
    match op
    case Add => SumNormal(l, r);
    case Mul | Sub => TermNormal(op, l, r);
    case LtU | LtS => ComparisonNormal(op, l, r);
    case Or | Xor | And => BitsNormal(op, l, r);
    case Shl | ShrU | ShrS | DivU | DivS => RightNormal(op, l, r);
    case _ => assert SimplifyBinOp(op, l, r) == Expr.BinOp(op, l, r) && !Reducible(op, l, r);
  }

  lemma TermNormal<V>(op: BinOp, l: Expr<V>, r: Expr<V>)
    requires NormalForm(l) && NormalForm(r) && (op == Mul || op == Sub)
    ensures NormalForm(SimplifyBinOp(op, l, r))
  {
  }

  lemma ComparisonNormal<V>(op: BinOp, l: Expr<V>, r: Expr<V>)
    requires NormalForm(l) && NormalForm(r) && (op == LtU || op == LtS)
    ensures NormalForm(SimplifyBinOp(op, l, r))
  {
  }

  lemma BitsNormal<V>(op: BinOp, l: Expr<V>, r: Expr<V>)
    requires NormalForm(l) && NormalForm(r) && (op == Or || op == Xor || op == And)
    ensures NormalForm(SimplifyBinOp(op, l, r))
  {
  }

  lemma RightNormal<V>(op: BinOp, l: Expr<V>, r: Expr<V>)
    requires NormalForm(l) && NormalForm(r) && (op == Shl || op == ShrU || op == ShrS || op == DivU || op == DivS)
    ensures NormalForm(SimplifyBinOp(op, l, r))
  {
  }

  lemma SumNormal<V>(l: Expr<V>, r: Expr<V>)
    requires NormalForm(l) && NormalForm(r)
    ensures NormalForm(SimplifyBinOp(Add, l, r))
  {
    if EndsInConstant(l) && r.Const? && !l.Const? {
      assert !Reducible(l.op, l.lhs, l.rhs);
    }
  }

  lemma UnaryNormal<V>(op: UnaryOp, a: Expr<V>)
    requires NormalForm(a)
    ensures NormalForm(SimplifyUnaryOp(op, a))
  {
    if a.BinOp? && IsComparison(a.op) { ComparisonIrreducible(Inverted(a.op), a.lhs, a.rhs); }
  }

  lemma ComparisonIrreducible<V>(op: BinOp, l: Expr<V>, r: Expr<V>)
    requires IsComparison(op)
    ensures !Reducible(op, l, r)
  {
  }

  /** Simplified expressions are in normal form: every rule has been applied everywhere it can be. */
  lemma {:induction false} SimplifyNormal<V>(e: Expr<V>)
    ensures NormalForm(Simplify(e))
  {
    match e
    case BinOp(op, l, r) =>
      SimplifyNormal(l);
      SimplifyNormal(r);
      BinaryNormal(op, Simplify(l), Simplify(r));
    case UnaryOp(op, a) =>
      SimplifyNormal(a);
      UnaryNormal(op, Simplify(a));
    case Load(_, b, _) => SimplifyNormal(b);
    case Store(_, b, _, v) => SimplifyNormal(b); SimplifyNormal(v);
    case Call(_, args) => SimplifyAllNormal(args);
    case _ =>
  }

  lemma {:induction false} SimplifyAllNormal<V>(es: seq<Expr<V>>)
    ensures AllNormal(SimplifyAll(es))
  {
    if es != [] {
      SimplifyNormal(es[0]);
      SimplifyAllNormal(es[1..]);
      assert SimplifyAll(es)[1..] == SimplifyAll(es[1..]);
    }
  }

  /** A comparison of a constant on the left is turned round, one with 1 becomes a negation, and negations
      of negations and of comparisons go; what these rules make is not simplified again. */
  lemma ComparisonsTurn<V>(op: BinOp, l: Expr<V>, r: Expr<V>)
    ensures !(op == LtU && IsOne(r)) && !IsZero(l) && l.Const? && (op == LtU || op == LtS) ==>
      SimplifyBinOp(op, l, r).BinOp? && SimplifyBinOp(op, l, r).rhs == l && !(SimplifyBinOp(op, l, r).op == op)
    ensures op == LtU && IsOne(r) ==> SimplifyBinOp(op, l, r) == Expr.UnaryOp(Not, l)
    ensures op == LtU && IsZero(l) && !IsOne(r) && IsBoolean(r) ==> SimplifyBinOp(op, l, r) == r
  {
  }

  lemma NegationsGo<V>(a: Expr<V>)
    ensures var e := SimplifyUnaryOp(Not, a);
      e.UnaryOp? && e.uop == Not && !(a.UnaryOp? && a.uop == Not) ==>
        e.operand == a && !(a.BinOp? && IsComparison(a.op))
  {
  }

  /** So simplifying twice may do more: `!(x >= 1)` becomes `x < 1`, and then `!x`. */
  lemma SecondTimeDoesMore<V>(x: V)
    ensures var e := Expr.UnaryOp(Not, Expr.BinOp(GeU, Var(x), Const(1)));
      Simplify(e) == Expr.BinOp(LtU, Var(x), Const(1)) && Simplify(Simplify(e)) == Expr.UnaryOp(Not, Var(x))
  {
    var e := Expr.BinOp(GeU, Var(x), Const(1));
    assert Simplify(e) == e;
  }
}
