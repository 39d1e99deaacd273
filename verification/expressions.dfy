/** Expression trees over named values: what they evaluate to, and substitution. */
module Expressions {
  import opened Instructions
  import opened Words

  datatype Expr<V> =
    | Const(value: int)
    | Var(name: V)
    | BinOp(op: BinOp, lhs: Expr<V>, rhs: Expr<V>)
    | UnaryOp(uop: UnaryOp, operand: Expr<V>)
    | Load(width: MemWidth, base: Expr<V>, offset: int)
    | Store(width: MemWidth, base: Expr<V>, offset: int, stored: Expr<V>)
    | Call(callee: string, args: seq<Expr<V>>)
    | Raw(text: string, names: seq<V>)

  /** The parts of the machine an expression's value may depend on, left arbitrary: memory,
      what a store amounts to, host calls, raw text, and the operators no rewrite looks into. */
  datatype Machine = Machine(
    other: (BinOp, Word, Word) -> Word,
    unary: (UnaryOp, Word) -> Word,
    load: (MemWidth, int) -> Word,
    store: (MemWidth, int, Word) -> Word,
    call: (string, seq<Word>) -> Word,
    raw: (string, seq<Word>) -> Word)

  /** The machine that m is, in the state of m'. */
  function Keeping(m: Machine, m': Machine): Machine { m'.(other := m.other, unary := m.unary) }

  /** Addresses are 32 bits wide. */
  function Address(base: Word, offset: int): int { (base + offset) % TWO_32 }

  function UnaryValue(op: UnaryOp, a: Word, m: Machine): Word {
    if op == Not then Flag(a == 0) else m.unary(op, a)
  }

  function Eval<V(!new)>(e: Expr<V>, env: V -> Word, m: Machine): Word {
    match e
    case Const(v) => ToWord(v)
    case Var(x) => env(x)
    case BinOp(op, l, r) => BinValue(op, Eval(l, env, m), Eval(r, env, m), m.other)
    case UnaryOp(op, a) => UnaryValue(op, Eval(a, env, m), m)
    case Load(w, b, off) => m.load(w, Address(Eval(b, env, m), off))
    case Store(w, b, off, v) => m.store(w, Address(Eval(b, env, m), off), Eval(v, env, m))
    case Call(f, args) => m.call(f, EvalAll(args, env, m))
    case Raw(t, xs) => m.raw(t, Contents(xs, env))
  }

  function Contents<V(!new)>(xs: seq<V>, env: V -> Word): seq<Word> {
    if xs == [] then [] else [env(xs[0])] + Contents(xs[1..], env)
  }

  function EvalAll<V(!new)>(es: seq<Expr<V>>, env: V -> Word, m: Machine): (r: seq<Word>)
    ensures |r| == |es|
  {
    if es == [] then [] else [Eval(es[0], env, m)] + EvalAll(es[1..], env, m)
  }

  /** Loads, stores, calls and raw text may not be moved across blocks. */
  predicate HasSideEffects<V>(e: Expr<V>) {
    match e
    case Const(_) => false
    case Var(_) => false
    case BinOp(_, l, r) => HasSideEffects(l) || HasSideEffects(r)
    case UnaryOp(_, a) => HasSideEffects(a)
    case _ => true
  }

  function Max(a: nat, b: nat): nat { if a > b then a else b }

  function Depth<V>(e: Expr<V>): nat {
    match e
    case Const(_) => 0
    case Var(_) => 0
    case Raw(_, _) => 0
    case BinOp(_, l, r) => 1 + Max(Depth(l), Depth(r))
    case UnaryOp(_, a) => 1 + Depth(a)
    case Load(_, b, _) => 1 + Depth(b)
    case Store(_, b, _, v) => 1 + Max(Depth(b), Depth(v))
    case Call(_, args) => 1 + MaxDepth(args)
  }

  function MaxDepth<V>(es: seq<Expr<V>>): nat {
    if es == [] then 0 else Max(Depth(es[0]), MaxDepth(es[1..]))
  }

  /** Replaces every occurrence of the variable, except that raw text is left as it is. */
  function Substitute<V(==)>(e: Expr<V>, x: V, repl: Expr<V>): Expr<V> {
    match e
    case Const(_) => e
    case Var(y) => if y == x then repl else e
    case BinOp(op, l, r) => BinOp(op, Substitute(l, x, repl), Substitute(r, x, repl))
    case UnaryOp(op, a) => UnaryOp(op, Substitute(a, x, repl))
    case Load(w, b, off) => Expr.Load(w, Substitute(b, x, repl), off)
    case Store(w, b, off, v) => Expr.Store(w, Substitute(b, x, repl), off, Substitute(v, x, repl))
    case Call(f, args) => Call(f, SubstituteAll(args, x, repl))
    case Raw(_, _) => e
  }

  function SubstituteAll<V(==)>(es: seq<Expr<V>>, x: V, repl: Expr<V>): (r: seq<Expr<V>>)
    ensures |r| == |es|
  {
    if es == [] then [] else [Substitute(es[0], x, repl)] + SubstituteAll(es[1..], x, repl)
  }

  /** Variables that stand in the tree itself. */
  function PlainVars<V(==)>(e: Expr<V>): set<V> {
    match e
    case Const(_) => {}
    case Var(y) => {y}
    case BinOp(_, l, r) => PlainVars(l) + PlainVars(r)
    case UnaryOp(_, a) => PlainVars(a)
    case Load(_, b, _) => PlainVars(b)
    case Store(_, b, _, v) => PlainVars(b) + PlainVars(v)
    case Call(_, args) => AllPlainVars(args)
    case Raw(_, _) => {}
  }

  function AllPlainVars<V(==)>(es: seq<Expr<V>>): set<V> {
    if es == [] then {} else PlainVars(es[0]) + AllPlainVars(es[1..])
  }

  /** Variables that raw text names. */
  function RawVars<V(==)>(e: Expr<V>): set<V> {
    match e
    case Const(_) => {}
    case Var(_) => {}
    case BinOp(_, l, r) => RawVars(l) + RawVars(r)
    case UnaryOp(_, a) => RawVars(a)
    case Load(_, b, _) => RawVars(b)
    case Store(_, b, _, v) => RawVars(b) + RawVars(v)
    case Call(_, args) => AllRawVars(args)
    case Raw(_, xs) => Names(xs)
  }

  function AllRawVars<V(==)>(es: seq<Expr<V>>): set<V> {
    if es == [] then {} else RawVars(es[0]) + AllRawVars(es[1..])
  }

  function Names<V(==)>(xs: seq<V>): set<V> { set x | x in xs }

  function Vars<V(==)>(e: Expr<V>): set<V> { PlainVars(e) + RawVars(e) }

  // ----- Laws

  /** Where the variable holds the replacement's value, substitution changes nothing. */
  lemma {:induction false} SubstituteEval<V(!new)>(e: Expr<V>, x: V, repl: Expr<V>, env: V -> Word, m: Machine)
    requires env(x) == Eval(repl, env, m)
    ensures Eval(Substitute(e, x, repl), env, m) == Eval(e, env, m)
  {
    match e
    case Const(_) =>
    case Var(_) =>
    case Raw(_, _) =>
    case BinOp(_, l, r) => SubstituteEval(l, x, repl, env, m); SubstituteEval(r, x, repl, env, m);
    case UnaryOp(_, a) => SubstituteEval(a, x, repl, env, m);
    case Load(_, b, _) => SubstituteEval(b, x, repl, env, m);
    case Store(_, b, _, v) => SubstituteEval(b, x, repl, env, m); SubstituteEval(v, x, repl, env, m);
    case Call(_, args) => SubstituteEvalAll(args, x, repl, env, m);
  }

  lemma {:induction false} SubstituteEvalAll<V(!new)>(es: seq<Expr<V>>, x: V, repl: Expr<V>, env: V -> Word, m: Machine)
    requires env(x) == Eval(repl, env, m)
    ensures EvalAll(SubstituteAll(es, x, repl), env, m) == EvalAll(es, env, m)
  {
    if es != [] {
      SubstituteEval(es[0], x, repl, env, m);
      SubstituteEvalAll(es[1..], x, repl, env, m);
    }
  }

  /** An expression's value depends only on the variables in it. */
  lemma {:induction false} EvalAgrees<V(!new)>(e: Expr<V>, env: V -> Word, env': V -> Word, m: Machine)
    requires forall y :: y in Vars(e) ==> env(y) == env'(y)
    ensures Eval(e, env, m) == Eval(e, env', m)
  {
    match e
    case Const(_) =>
    case Var(_) =>
    case Raw(_, xs) => ContentsAgree(xs, env, env');
    case BinOp(_, l, r) => EvalAgrees(l, env, env', m); EvalAgrees(r, env, env', m);
    case UnaryOp(_, a) => EvalAgrees(a, env, env', m);
    case Load(_, b, _) => EvalAgrees(b, env, env', m);
    case Store(_, b, _, v) => EvalAgrees(b, env, env', m); EvalAgrees(v, env, env', m);
    case Call(_, args) => EvalAllAgrees(args, env, env', m);
  }

  lemma {:induction false} EvalAllAgrees<V(!new)>(es: seq<Expr<V>>, env: V -> Word, env': V -> Word, m: Machine)
    requires forall y :: y in AllPlainVars(es) + AllRawVars(es) ==> env(y) == env'(y)
    ensures EvalAll(es, env, m) == EvalAll(es, env', m)
  {
    if es != [] {
      EvalAgrees(es[0], env, env', m);
      EvalAllAgrees(es[1..], env, env', m);
    }
  }

  lemma {:induction false} ContentsAgree<V(!new)>(xs: seq<V>, env: V -> Word, env': V -> Word)
    requires forall y :: y in Names(xs) ==> env(y) == env'(y)
    ensures Contents(xs, env) == Contents(xs, env')
  {
    if xs != [] {
      assert xs[0] in Names(xs) && forall y :: y in Names(xs[1..]) ==> y in Names(xs);
      ContentsAgree(xs[1..], env, env');
    }
  }

  lemma ContentsOfOne<V(!new)>(x: V, env: V -> Word)
    ensures Contents([x], env) == [env(x)]
  {
    assert [x][1..] == [];
    assert Contents([x][1..], env) == [];
  }

  /** The variables after a substitution: the variable itself survives in raw text only, and the
      replacement's come in where it stood in the tree. */
  lemma {:induction false} SubstituteVars<V(!new)>(e: Expr<V>, x: V, repl: Expr<V>)
    ensures PlainVars(Substitute(e, x, repl)) ==
      (PlainVars(e) - {x}) + (if x in PlainVars(e) then PlainVars(repl) else {})
    ensures RawVars(Substitute(e, x, repl)) == RawVars(e) + (if x in PlainVars(e) then RawVars(repl) else {})
  {
    match e
    case Const(_) =>
    case Var(_) =>
    case Raw(_, _) =>
    case BinOp(_, l, r) => SubstituteVars(l, x, repl); SubstituteVars(r, x, repl);
    case UnaryOp(_, a) => SubstituteVars(a, x, repl);
    case Load(_, b, _) => SubstituteVars(b, x, repl);
    case Store(_, b, _, v) => SubstituteVars(b, x, repl); SubstituteVars(v, x, repl);
    case Call(_, args) => SubstituteAllVars(args, x, repl);
  }

  lemma {:induction false} SubstituteAllVars<V(!new)>(es: seq<Expr<V>>, x: V, repl: Expr<V>)
    ensures AllPlainVars(SubstituteAll(es, x, repl)) ==
      (AllPlainVars(es) - {x}) + (if x in AllPlainVars(es) then PlainVars(repl) else {})
    ensures AllRawVars(SubstituteAll(es, x, repl)) ==
      AllRawVars(es) + (if x in AllPlainVars(es) then RawVars(repl) else {})
  {
    if es != [] {
      SubstituteVars(es[0], x, repl);
      SubstituteAllVars(es[1..], x, repl);
      assert SubstituteAll(es, x, repl)[1..] == SubstituteAll(es[1..], x, repl);
    }
  }

  /** A pure replacement neither adds nor removes side effects, and brings in no raw text. */
  lemma {:induction false} SubstitutePure<V(!new)>(e: Expr<V>, x: V, repl: Expr<V>)
    requires !HasSideEffects(repl)
    ensures HasSideEffects(Substitute(e, x, repl)) <==> HasSideEffects(e)
  {
    match e
    case BinOp(_, l, r) => SubstitutePure(l, x, repl); SubstitutePure(r, x, repl);
    case UnaryOp(_, a) => SubstitutePure(a, x, repl);
    case _ =>
  }

  lemma {:induction false} PureHasNoRaw<V(!new)>(e: Expr<V>)
    requires !HasSideEffects(e)
    ensures RawVars(e) == {}
  {
    match e
    case BinOp(_, l, r) => PureHasNoRaw(l); PureHasNoRaw(r);
    case UnaryOp(_, a) => PureHasNoRaw(a);
    case _ =>
  }

  /** Substitution never makes an expression shallower. */
  lemma {:induction false} SubstituteDeepens<V(!new)>(e: Expr<V>, x: V, repl: Expr<V>)
    ensures Depth(Substitute(e, x, repl)) >= Depth(e)
  {
    match e
    case Const(_) =>
    case Var(_) =>
    case Raw(_, _) =>
    case BinOp(_, l, r) => SubstituteDeepens(l, x, repl); SubstituteDeepens(r, x, repl);
    case UnaryOp(_, a) => SubstituteDeepens(a, x, repl);
    case Load(_, b, _) => SubstituteDeepens(b, x, repl);
    case Store(_, b, _, v) => SubstituteDeepens(b, x, repl); SubstituteDeepens(v, x, repl);
    case Call(_, args) => SubstituteAllDeepens(args, x, repl);
  }

  lemma {:induction false} SubstituteAllDeepens<V(!new)>(es: seq<Expr<V>>, x: V, repl: Expr<V>)
    ensures MaxDepth(SubstituteAll(es, x, repl)) >= MaxDepth(es)
  {
    if es != [] {
      SubstituteDeepens(es[0], x, repl);
      SubstituteAllDeepens(es[1..], x, repl);
    }
  }

  /** Two states of one machine: memory and what is outside may differ, arithmetic does not. */
  ghost predicate SameArithmetic(m: Machine, m': Machine) { m.other == m'.other && m.unary == m'.unary }

  /** What has no side effects comes to the same whatever memory holds and the outside does: it may be
      moved past anything that leaves its variables alone. */
  lemma {:induction false} PureIgnoresState<V(!new)>(e: Expr<V>, env: V -> Word, m: Machine, m': Machine)
    requires !HasSideEffects(e) && SameArithmetic(m, m')
    ensures Eval(e, env, m) == Eval(e, env, m')
  {
    match e
    case BinOp(_, l, r) => PureIgnoresState(l, env, m, m'); PureIgnoresState(r, env, m, m');
    case UnaryOp(_, a) => PureIgnoresState(a, env, m, m');
    case _ =>
  }

  /** A load does not: two states that hold different contents tell it apart. */
  lemma LoadSeesState<V(!new)>(w: MemWidth, b: Expr<V>, offset: int, env: V -> Word, m: Machine)
    ensures var m1, m2 := m.(load := (v, a) => 0), m.(load := (v, a) => 1);
      SameArithmetic(m1, m2) && Eval(Expr.Load(w, b, offset), env, m1) != Eval(Expr.Load(w, b, offset), env, m2)
  {
  }
}
