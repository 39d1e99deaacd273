/** 64-bit machine words as naturals, and the value of every binary operator the rewrites touch. */
module Words {
  import opened Instructions

  const TWO_32: int := 0x1_0000_0000
  const TWO_64: int := 0x1_0000_0000_0000_0000

  type Word = w: int | 0 <= w < TWO_64

  /** The two's complement reading of a word. */
  function Signed(w: Word): int { if w < TWO_64 / 2 then w else w - TWO_64 }

  function ToWord(x: int): Word { x % TWO_64 }

  /** Wrapping to the range of a signed 64-bit constant. */
  function WrapI64(x: int): int { Signed(ToWord(x)) }

  /** Wrapping to the range of a signed 32-bit offset. */
  function WrapI32(x: int): int {
    var u := x % TWO_32;
    if u < TWO_32 / 2 then u else u - TWO_32
  }

  predicate FitsI32(x: int) { -0x8000_0000 <= x < 0x8000_0000 }

  function Pow2(k: nat): (p: nat)
    ensures p >= 1
  {
    if k == 0 then 1 else 2 * Pow2(k - 1)
  }

  function Flag(b: bool): Word { if b then 1 else 0 }

  type Bit = b: nat | b < 2

  /** One bit of the bitwise operators. */
  function Gate(op: BinOp): (Bit, Bit) -> Bit {
    match op
    case And => (x: Bit, y: Bit) => if x == 1 && y == 1 then 1 else 0
    case Or => (x: Bit, y: Bit) => if x == 1 || y == 1 then 1 else 0
    case Xor => (x: Bit, y: Bit) => if x != y then 1 else 0
    case AndInv => (x: Bit, y: Bit) => if x == 1 && y == 0 then 1 else 0
    case OrInv => (x: Bit, y: Bit) => if x == 1 || y == 0 then 1 else 0
    case _ => (x: Bit, y: Bit) => if x == y then 1 else 0
  }

  /** The k low bits of a and b, combined bit by bit. */
  function Bitwise(gate: (Bit, Bit) -> Bit, k: nat, a: nat, b: nat): nat
    decreases a, b, k
  {
    if k == 0 then 0 else 2 * Bitwise(gate, k - 1, a / 2, b / 2) + gate(a % 2, b % 2)
  }

  predicate IsBitwise(op: BinOp) { op in {And, Or, Xor, AndInv, OrInv, Xnor} }

  lemma Pow64()
    ensures Pow2(64) == TWO_64
  {
    assert Pow2(2) == 4;
    Pow2Add(2, 2);
    Pow2Add(4, 4);
    Pow2Add(8, 8);
    Pow2Add(16, 16);
    Pow2Add(32, 32);
  }

  lemma {:induction false} Pow2Add(j: nat, k: nat)
    ensures Pow2(j + k) == Pow2(j) * Pow2(k)
  {
    if j > 0 { Pow2Add(j - 1, k); }
  }

  function DivTrunc(a: int, b: int): int
    requires b != 0
  {
    if a >= 0 then a / b else -((-a) / b)
  }

  /** The value of a binary operator. The operators no rewrite here looks into (remainders,
      rotations, upper multiplications, extrema) are left to `other`, whatever it is. */
  function BinValue(op: BinOp, a: Word, b: Word, other: (BinOp, Word, Word) -> Word): Word {
    match op
    case Add => ToWord(a + b)
    case Sub => ToWord(a - b)
    case NegAdd => ToWord(b - a)
    case Mul => ToWord(a * b)
    case DivU => if b == 0 then TWO_64 - 1 else ToWord(a / b)
    case DivS => if b == 0 then TWO_64 - 1 else ToWord(DivTrunc(Signed(a), Signed(b)))
    case Shl => ToWord(a * Pow2(b % 64))
    case ShrU => ToWord(a / Pow2(b % 64))
    case ShrS => ToWord(Signed(a) / Pow2(b % 64))
    case LtU => Flag(a < b)
    case GeU => Flag(a >= b)
    case GtU => Flag(a > b)
    case LeU => Flag(a <= b)
    case LtS => Flag(Signed(a) < Signed(b))
    case GeS => Flag(Signed(a) >= Signed(b))
    case GtS => Flag(Signed(a) > Signed(b))
    case LeS => Flag(Signed(a) <= Signed(b))
    case And => BitwiseWord(op, a, b)
    case Or => BitwiseWord(op, a, b)
    case Xor => BitwiseWord(op, a, b)
    case AndInv => BitwiseWord(op, a, b)
    case OrInv => BitwiseWord(op, a, b)
    case Xnor => BitwiseWord(op, a, b)
    case _ => other(op, a, b)
  }

  function BitwiseWord(op: BinOp, a: Word, b: Word): Word {
    ToWord(Bitwise(Gate(op), 64, a, b))
  }

  /** a has at most k bits. */
  ghost predicate FitsIn(a: nat, k: nat)
    decreases a, k
  {
    if k == 0 then a == 0 else FitsIn(a / 2, k - 1)
  }

  lemma {:induction false} FitsBelow(a: nat, k: nat)
    ensures FitsIn(a, k) <==> a < Pow2(k)
  {
    if k > 0 { FitsBelow(a / 2, k - 1); }
  }

  lemma WordFits(a: nat)
    ensures FitsIn(a, 64) <==> a < TWO_64
  {
    Pow64();
    FitsBelow(a, 64);
  }

  lemma {:induction false} BitwiseFits(gate: (Bit, Bit) -> Bit, k: nat, a: nat, b: nat)
    ensures FitsIn(Bitwise(gate, k, a, b), k)
  {
    if k > 0 {
      BitwiseFits(gate, k - 1, a / 2, b / 2);
      BitwiseHalves(gate, k, a, b);
    }
  }

  lemma BitwiseWordIs(op: BinOp, a: Word, b: Word)
    ensures BitwiseWord(op, a, b) == Bitwise(Gate(op), 64, a, b)
  {
    BitwiseFits(Gate(op), 64, a, b);
    WordFits(Bitwise(Gate(op), 64, a, b));
  }

  // ----- Laws

  lemma {:induction false} BitwiseNeutral(gate: (Bit, Bit) -> Bit, k: nat, a: nat)
    requires FitsIn(a, k) && forall x: Bit :: gate(x, 0) == x && gate(0, x) == x
    ensures Bitwise(gate, k, a, 0) == a && Bitwise(gate, k, 0, a) == a
  {
    if k > 0 { BitwiseNeutral(gate, k - 1, a / 2); }
  }

  lemma {:induction false} BitwiseAbsorbing(gate: (Bit, Bit) -> Bit, k: nat, a: nat)
    requires forall x: Bit :: gate(x, 0) == 0 && gate(0, x) == 0
    ensures Bitwise(gate, k, a, 0) == 0 && Bitwise(gate, k, 0, a) == 0
  {
    if k > 0 { BitwiseAbsorbing(gate, k - 1, a / 2); }
  }

  lemma BitwiseWithZero(op: BinOp, a: Word)
    ensures op == Or || op == Xor ==> BitwiseWord(op, a, 0) == a && BitwiseWord(op, 0, a) == a
    ensures op == And ==> BitwiseWord(op, a, 0) == 0 && BitwiseWord(op, 0, a) == 0
  {
    if op == Or || op == Xor {
      OrWithZero(op, a);
    } else if op == And {
      BitwiseAbsorbing(Gate(op), 64, a);
    }
  }

  lemma OrWithZero(op: BinOp, a: Word)
    requires op == Or || op == Xor
    ensures BitwiseWord(op, a, 0) == a && BitwiseWord(op, 0, a) == a
  {
    WordFits(a);
    OrBitsWithZero(op, 64, a);
    BitwiseWordIs(op, a, 0);
    BitwiseWordIs(op, 0, a);
  }

  lemma OrBitsWithZero(op: BinOp, k: nat, a: nat)
    requires (op == Or || op == Xor) && FitsIn(a, k)
    ensures Bitwise(Gate(op), k, a, 0) == a && Bitwise(Gate(op), k, 0, a) == a
  {
    GateWithZero(op);
    BitwiseNeutral(Gate(op), k, a);
  }

  lemma GateWithZero(op: BinOp)
    requires op == Or || op == Xor
    ensures forall x: Bit :: Gate(op)(x, 0) == x && Gate(op)(0, x) == x
  {
  }

  lemma {:induction false} BitwiseOfBits(gate: (Bit, Bit) -> Bit, k: nat, a: nat, b: nat)
    requires gate(0, 0) == 0 && a <= 1 && b <= 1
    ensures Bitwise(gate, k, a, b) <= 1
    ensures a == 0 && b == 0 ==> Bitwise(gate, k, a, b) == 0
  {
    if k > 0 {
      BitwiseOfBits(gate, k - 1, a / 2, b / 2);
      assert a / 2 == 0 && b / 2 == 0;
    }
  }

  lemma BitwiseOfFlags(op: BinOp, a: Word, b: Word)
    requires (op == And || op == Or) && a <= 1 && b <= 1
    ensures BitwiseWord(op, a, b) <= 1
  {
    BitwiseOfBits(Gate(op), 64, a, b);
  }

  lemma BitwiseHalves(gate: (Bit, Bit) -> Bit, k: nat, a: nat, b: nat)
    requires k > 0
    ensures Bitwise(gate, k, a, b) / 2 == Bitwise(gate, k - 1, a / 2, b / 2)
    ensures Bitwise(gate, k, a, b) % 2 == gate(a % 2, b % 2)
  {
  }

  /** x g (y h z) == (x g y) h z on bits. */
  ghost predicate GatesReassociate(g: (Bit, Bit) -> Bit, h: (Bit, Bit) -> Bit) {
    forall x: Bit, y: Bit, z: Bit :: GateLaw(g, h, x, y, z)
  }

  predicate GateLaw(g: (Bit, Bit) -> Bit, h: (Bit, Bit) -> Bit, x: Bit, y: Bit, z: Bit) {
    g(x, h(y, z)) == h(g(x, y), z)
  }

  /** What reassociates on bits reassociates on words. */
  lemma {:induction false} BitwiseReassociates(g: (Bit, Bit) -> Bit, h: (Bit, Bit) -> Bit, k: nat, a: nat, b: nat,
      c: nat)
    requires GatesReassociate(g, h)
    ensures Bitwise(g, k, a, Bitwise(h, k, b, c)) == Bitwise(h, k, Bitwise(g, k, a, b), c)
  {
    if k > 0 {
      BitwiseReassociates(g, h, k - 1, a / 2, b / 2, c / 2);
      BitwiseHalves(h, k, b, c);
      BitwiseHalves(g, k, a, b);
      assert GateLaw(g, h, a % 2, b % 2, c % 2);
    }
  }

  // ----- Arithmetic modulo the word size

  lemma Mod64Shift(x: int, k: int)
    ensures (x + TWO_64 * k) % TWO_64 == x % TWO_64
  {
    assert (x + 0x1_0000_0000_0000_0000 * k) % 0x1_0000_0000_0000_0000 == x % 0x1_0000_0000_0000_0000;
  }

  lemma ToWordPlus(x: int, y: int)
    ensures ToWord(x + ToWord(y)) == ToWord(x + y)
    ensures ToWord(x - ToWord(y)) == ToWord(x - y)
  {
    var q := y / TWO_64;
    assert y == TWO_64 * q + ToWord(y);
    Mod64Shift(x + ToWord(y), q);
    Mod64Shift(x - ToWord(y), -q);
  }

  lemma ToWordTimes(a: int, b: int)
    ensures ToWord(ToWord(a) * b) == ToWord(a * b)
  {
    var q := a / TWO_64;
    assert a == TWO_64 * q + ToWord(a);
    assert a * b == ToWord(a) * b + TWO_64 * (q * b);
    Mod64Shift(ToWord(a) * b, q * b);
  }

  lemma ToWordMul(a: int, b: int)
    ensures ToWord(ToWord(a) * ToWord(b)) == ToWord(a * b)
  {
    ToWordTimes(a, ToWord(b));
    ToWordTimes(b, a);
    assert a * ToWord(b) == ToWord(b) * a && a * b == b * a;
  }

  lemma MulAssociates(a: Word, b: Word, c: Word)
    ensures ToWord(a * ToWord(b * c)) == ToWord(ToWord(a * b) * c)
  {
    ToWordTimes(b * c, a);
    ToWordTimes(a * b, c);
    assert (b * c) * a == (a * b) * c;
    assert a * ToWord(b * c) == ToWord(b * c) * a;
  }

  lemma Mod32Shift(x: int, k: int)
    ensures (x + TWO_32 * k) % TWO_32 == x % TWO_32
  {
    assert (x + 0x1_0000_0000 * k) % 0x1_0000_0000 == x % 0x1_0000_0000;
  }
}
