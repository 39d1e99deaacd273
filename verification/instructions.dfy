/** The classified instructions shared by every pass: operand shapes, the registers
    each one defines and uses, and which ones end a basic block. */
module Instructions {

  // PVM has the general-purpose registers r0..r12.
  type Reg = r: nat | r < 13

  datatype BinOp =
    | Add | Sub | Mul | DivU | DivS | RemU | RemS | Shl | ShrU | ShrS | And | Or | Xor
    | LtU | LtS | GeU | GeS | GtU | GtS | LeU | LeS
    | NegAdd | RotL | RotR | MulUpperSS | MulUpperUU | MulUpperSU
    | AndInv | OrInv | Xnor | Max | MaxU | Min | MinU

  datatype UnaryOp =
    | Not | Sext8 | Sext16 | Zext16 | Popcnt32 | Popcnt64
    | Clz32 | Clz64 | Ctz32 | Ctz64 | Sbrk | Bswap

  datatype MemWidth = U8 | I8 | U16 | I16 | U32 | I32 | U64

  datatype BitWidth = W32 | W64

  datatype Shape =
    | Trap
    | Fallthrough
    | LoadImm(dst: Reg, value: int)
    | BinReg(op: BinOp, width: BitWidth, dst: Reg, src1: Reg, src2: Reg)
    | BinImm(op: BinOp, width: BitWidth, dst: Reg, src: Reg, value: int)
    | BinImmRev(op: BinOp, width: BitWidth, dst: Reg, src: Reg, value: int)
    | Unary(uop: UnaryOp, dst: Reg, src: Reg)
    | Load(mem: MemWidth, dst: Reg, base: Reg, offset: int)
    | Store(mem: MemWidth, base: Reg, src: Reg, offset: int)
    | LoadAbsolute(mem: MemWidth, dst: Reg, address: int)
    | StoreAbsolute(mem: MemWidth, src: Reg, address: int)
    | StoreImm(mem: MemWidth, address: int, value: int)
    | StoreImmInd(mem: MemWidth, base: Reg, offset: int, value: int)
    | CmovReg(isZero: bool, dst: Reg, src: Reg, cond: Reg)
    | CmovImm(isZero: bool, dst: Reg, cond: Reg, value: int)
    | Jump(offset: int)
    | JumpInd(reg: Reg)
    | LoadImmJump(dst: Reg, value: int, offset: int)
    | LoadImmJumpInd(base: Reg, dst: Reg, value: int)
    | BranchImm(reg: Reg, value: int, offset: int)
    | BranchReg(reg1: Reg, reg2: Reg, offset: int)
    | Ecalli(index: nat)
    | Unknown(opcode: nat)
  {
    /** Registers written. An external call or unknown opcode is taken to write them all. */
    function Defs(): seq<Reg> {
      match this
      case LoadImm(d, _) => [d]
      case BinReg(_, _, d, _, _) => [d]
      case BinImm(_, _, d, _, _) => [d]
      case BinImmRev(_, _, d, _, _) => [d]
      case Unary(_, d, _) => [d]
      case Load(_, d, _, _) => [d]
      case LoadAbsolute(_, d, _) => [d]
      case CmovReg(_, d, _, _) => [d]
      case CmovImm(_, d, _, _) => [d]
      case LoadImmJump(d, _, _) => [d]
      case LoadImmJumpInd(_, d, _) => [d]
      case Ecalli(_) => AllRegs()
      case Unknown(_) => AllRegs()
      case _ => []
    }

    /** Registers read. A conditional move does not list its own destination. */
    function Uses(): seq<Reg> {
      match this
      case BinReg(_, _, _, s1, s2) => [s1, s2]
      case BinImm(_, _, _, s, _) => [s]
      case BinImmRev(_, _, _, s, _) => [s]
      case Unary(_, _, s) => [s]
      case Load(_, _, b, _) => [b]
      case Store(_, b, s, _) => [b, s]
      case StoreAbsolute(_, s, _) => [s]
      case StoreImmInd(_, b, _, _) => [b]
      case CmovReg(_, _, s, c) => [s, c]
      case CmovImm(_, _, c, _) => [c]
      case JumpInd(r) => [r]
      case LoadImmJumpInd(b, _, _) => [b]
      case BranchImm(r, _, _) => [r]
      case BranchReg(r1, r2, _) => [r1, r2]
      case Ecalli(_) => AllRegs()
      case Unknown(_) => AllRegs()
      case _ => []
    }

    predicate IsTerminator() {
      Jump? || JumpInd? || LoadImmJump? || LoadImmJumpInd? || BranchImm? || BranchReg? || Trap?
    }

    predicate HasBranchOffset() { Jump? || LoadImmJump? || BranchImm? || BranchReg? }

    predicate IsConditionalBranch() { BranchImm? || BranchReg? }
  }

  function AllRegs(): seq<Reg> { [0, 1, 2, 3, 4, 5, 6, 7, 8, 9, 10, 11, 12] }
}
