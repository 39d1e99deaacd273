/** What instructions do to the registers and to memory, shape by shape. */
module Semantics {
  import opened Instructions
  import opened Words
  import opened Expressions

  type Registers = Reg -> Word

  /** What the instruction set leaves open here: what 32-bit forms of an operator come to, what growing the heap
      returns, and what it, stores, host calls and unknown opcodes do to the machine and to the registers. Host calls
      see all thirteen registers. */
  datatype Effects = Effects(
    narrow: (BinOp, Word, Word) -> Word,
    top: (Word, Machine) -> Word,
    grown: (Word, Machine) -> Machine,
    stored: (MemWidth, int, Word, Machine) -> Machine,
    called: (Shape, seq<Word>, Machine) -> Machine,
    returned: (Shape, seq<Word>, Machine, Reg) -> Word)

  function AllOf(regs: Registers): seq<Word> { seq(13, i requires 0 <= i < 13 => regs(i)) }

  function Operate(op: BinOp, width: BitWidth, a: Word, b: Word, m: Machine, fx: Effects): Word {
    if width == W64 then BinValue(op, a, b, m.other) else fx.narrow(op, a, b)
  }

  /** The register the instruction writes, if it is one. */
  function Target(s: Shape): int {
    match s
    case LoadImm(d, _) => d
    case BinReg(_, _, d, _, _) => d
    case BinImm(_, _, d, _, _) => d
    case BinImmRev(_, _, d, _, _) => d
    case Unary(_, d, _) => d
    case Load(_, d, _, _) => d
    case LoadAbsolute(_, d, _) => d
    case CmovReg(_, d, _, _) => d
    case CmovImm(_, d, _, _) => d
    case LoadImmJump(d, _, _) => d
    case LoadImmJumpInd(_, d, _) => d
    case _ => -1
  }

  /** The host and unknown opcodes may write any register. */
  predicate IsCall(s: Shape) { s.Ecalli? || s.Unknown? }

  predicate IsCmov(s: Shape) { s.CmovReg? || s.CmovImm? }

  predicate IsSbrk(s: Shape) { s.Unary? && s.uop == Sbrk }

  /** What is written to the target; for the host, to r. */
  function Written(s: Shape, regs: Registers, m: Machine, fx: Effects, r: Reg): Word {
    match s
    case LoadImm(_, v) => ToWord(v)
    case BinReg(op, w, _, a, b) => Operate(op, w, regs(a), regs(b), m, fx)
    case BinImm(op, w, _, a, v) => Operate(op, w, regs(a), ToWord(v), m, fx)
    case BinImmRev(op, w, _, a, v) => Operate(op, w, ToWord(v), regs(a), m, fx)
    case Unary(op, _, a) => if op == Sbrk then fx.top(regs(a), m) else UnaryValue(op, regs(a), m)
    case Load(w, _, base, offset) => m.load(w, Address(regs(base), offset))
    case LoadAbsolute(w, _, address) => m.load(w, address % TWO_32)
    case CmovReg(isZero, d, a, c) => if (regs(c) == 0) == isZero then regs(a) else regs(d)
    case CmovImm(isZero, d, c, v) => if (regs(c) == 0) == isZero then ToWord(v) else regs(d)
    case LoadImmJump(_, v, _) => ToWord(v)
    case LoadImmJumpInd(_, _, v) => ToWord(v)
    case Ecalli(_) => fx.returned(s, AllOf(regs), m, r)
    case Unknown(_) => fx.returned(s, AllOf(regs), m, r)
    case _ => regs(r)
  }

  /** The registers after the instruction. */
  function Next(s: Shape, regs: Registers, m: Machine, fx: Effects): Registers {
    (r: Reg) => if r == Target(s) || IsCall(s) then Written(s, regs, m, fx, r) else regs(r)
  }

  /** The machine after the instruction. */
  function Becomes(s: Shape, regs: Registers, m: Machine, fx: Effects): Machine {
    match s
    case Unary(op, _, a) => if op == Sbrk then Keeping(m, fx.grown(regs(a), m)) else m
    case Store(w, base, a, offset) => Keeping(m, fx.stored(w, Address(regs(base), offset), regs(a), m))
    case StoreAbsolute(w, a, address) => Keeping(m, fx.stored(w, address % TWO_32, regs(a), m))
    case StoreImm(w, address, v) => Keeping(m, fx.stored(w, address % TWO_32, ToWord(v), m))
    case StoreImmInd(w, base, offset, v) => Keeping(m, fx.stored(w, Address(regs(base), offset), ToWord(v), m))
    case Ecalli(_) => Keeping(m, fx.called(s, AllOf(regs), m))
    case Unknown(_) => Keeping(m, fx.called(s, AllOf(regs), m))
    case _ => m
  }

  /** What decides where control goes: the address jumped to, or what is compared. */
  function Deciding(s: Shape, regs: Registers): seq<Word> {
    match s
    case JumpInd(a) => [regs(a)]
    case LoadImmJumpInd(a, _, _) => [regs(a)]
    case BranchImm(a, _, _) => [regs(a)]
    case BranchReg(a, b, _) => [regs(a), regs(b)]
    case _ => []
  }

  // ----- The tables of registers read and written

  lemma AllListed(r: Reg)
    ensures r in AllRegs()
  {
    assert AllRegs()[r] == r;
  }

  /** Only the registers listed as written change. */
  lemma ChangesOnlyDefs(s: Shape, regs: Registers, m: Machine, fx: Effects, r: Reg)
    requires r !in s.Defs()
    ensures Next(s, regs, m, fx)(r) == regs(r)
  {
    AllListed(r);
    match s
    case LoadImm(d, _) => assert d in s.Defs();
    case _ =>
  }

  /** And each of them is written. */
  lemma DefsAreWritten(s: Shape, regs: Registers, m: Machine, fx: Effects, r: Reg)
    requires r in s.Defs()
    ensures Next(s, regs, m, fx)(r) == Written(s, regs, m, fx, r) && (r == Target(s) || IsCall(s))
  {
  }

  ghost predicate AgreeOn(rs: seq<Reg>, regs: Registers, regs': Registers) {
    forall r :: r in rs ==> regs(r) == regs'(r)
  }

  lemma AgreeOnAll(regs: Registers, regs': Registers)
    requires AgreeOn(AllRegs(), regs, regs')
    ensures AllOf(regs) == AllOf(regs')
  {
    forall r: Reg ensures regs(r) == regs'(r) { AllListed(r); }
  }

  /** What an instruction writes, does to the machine and decides depends on the registers listed as read only; on
      its own target besides if it is a conditional move, which does not list it. */
  lemma LooksOnlyAtUses(s: Shape, regs: Registers, regs': Registers, m: Machine, fx: Effects, r: Reg)
    requires AgreeOn(s.Uses(), regs, regs') && r in s.Defs()
    requires IsCmov(s) ==> regs(r) == regs'(r)
    ensures Next(s, regs, m, fx)(r) == Next(s, regs', m, fx)(r)
  {
    DefsAreWritten(s, regs, m, fx, r);
    if IsCall(s) { AgreeOnAll(regs, regs'); }
    match s
    case BinReg(_, _, _, a, b) => assert a in s.Uses() && b in s.Uses();
    case CmovReg(_, _, a, c) => assert a in s.Uses() && c in s.Uses();
    case _ => UsesFirst(s);
  }

  lemma UsesFirst(s: Shape)
    ensures s.Uses() != [] ==> s.Uses()[0] in s.Uses()
  {
  }

  lemma ActsOnlyByUses(s: Shape, regs: Registers, regs': Registers, m: Machine, fx: Effects)
    requires AgreeOn(s.Uses(), regs, regs')
    ensures Becomes(s, regs, m, fx) == Becomes(s, regs', m, fx) && Deciding(s, regs) == Deciding(s, regs')
  {
    if IsCall(s) { AgreeOnAll(regs, regs'); }
    match s
    case Store(_, base, a, _) => assert base in s.Uses() && a in s.Uses();
    case BranchReg(a, b, _) => assert a in s.Uses() && b in s.Uses();
    case _ => UsesFirst(s);
  }

  lemma KeepsArithmetic(s: Shape, regs: Registers, m: Machine, fx: Effects)
    ensures SameArithmetic(Becomes(s, regs, m, fx), m)
  {
  }
}
