/** The instruction set: packed records, the 41 numeric opcodes, and the
    families they fall into. */
module Isa {
  import opened Words

  datatype Error =
    | Ok | Io | Parse | Oom | BadOpcode | IpOutOfBounds | BadRegister | DivZero
    | BadJump | Unsupported | MemoryOob | StackOverflow | StackUnderflow | BadShift

  datatype Instr = Instr(opcode: byte, a: byte, b: byte, c: byte, imm: i64)

  datatype Source = Imm | Reg

  datatype AluOp = Mov | Add | Sub | Mul | Div | Mod | Bits(op: BitOp) | Shl | Shr

  datatype Cond = Always | RegZero | RegNonzero | FlagSet | FlagClear

  datatype Op =
    | Alu(alu: AluOp, src: Source)
    | Not
    | Cmp(src: Source)
    | Jump(cond: Cond)
    | Print
    | Halt
    | Nop
    | Load(src: Source)
    | Store(src: Source)
    | Push
    | Pop
    | Call
    | Ret

  datatype Option<+T> = None | Some(value: T)

  const RECORD_SIZE: nat := 12
  const REGISTERS: int := 8
  const MEMORY_SIZE: int := 65536
  const LAST_ADDRESS: int := 65528

  // ----- opcode numbers -----

  function Decode(opcode: byte): Option<Op> {
    match opcode
    case 1 => Some(Alu(Mov, Imm))
    case 2 => Some(Alu(Mov, Reg))
    case 3 => Some(Alu(Add, Imm))
    case 4 => Some(Alu(Add, Reg))
    case 5 => Some(Alu(Sub, Imm))
    case 6 => Some(Alu(Sub, Reg))
    case 7 => Some(Alu(Mul, Imm))
    case 8 => Some(Alu(Mul, Reg))
    case 9 => Some(Alu(Div, Imm))
    case 10 => Some(Alu(Div, Reg))
    case 11 => Some(Jump(Always))
    case 12 => Some(Jump(RegZero))
    case 13 => Some(Jump(RegNonzero))
    case 14 => Some(Print)
    case 15 => Some(Halt)
    case 16 => Some(Load(Imm))
    case 17 => Some(Load(Reg))
    case 18 => Some(Store(Imm))
    case 19 => Some(Store(Reg))
    case 20 => Some(Push)
    case 21 => Some(Pop)
    case 22 => Some(Call)
    case 23 => Some(Ret)
    case 24 => Some(Cmp(Imm))
    case 25 => Some(Cmp(Reg))
    case 26 => Some(Jump(FlagSet))
    case 27 => Some(Jump(FlagClear))
    case 28 => Some(Nop)
    case 29 => Some(Alu(Mod, Imm))
    case 30 => Some(Alu(Mod, Reg))
    case 31 => Some(Alu(Bits(BitAnd), Imm))
    case 32 => Some(Alu(Bits(BitAnd), Reg))
    case 33 => Some(Alu(Bits(BitOr), Imm))
    case 34 => Some(Alu(Bits(BitOr), Reg))
    case 35 => Some(Alu(Bits(BitXor), Imm))
    case 36 => Some(Alu(Bits(BitXor), Reg))
    case 37 => Some(Not)
    case 38 => Some(Alu(Shl, Imm))
    case 39 => Some(Alu(Shl, Reg))
    case 40 => Some(Alu(Shr, Imm))
    case 41 => Some(Alu(Shr, Reg))
    case _ => None
  }

  /** The number of the immediate form of an ALU operation; the register form
      is always the next number. */
  function AluBase(alu: AluOp): byte {
    match alu
    case Mov => 1
    case Add => 3
    case Sub => 5
    case Mul => 7
    case Div => 9
    case Mod => 29
    case Bits(BitAnd) => 31
    case Bits(BitOr) => 33
    case Bits(BitXor) => 35
    case Shl => 38
    case Shr => 40
  }

  function SourceOffset(src: Source): nat {
    if src == Imm then 0 else 1
  }

  function Encode(op: Op): byte {
    match op
    case Alu(alu, src) => AluBase(alu) + SourceOffset(src)
    case Not => 37
    case Cmp(src) => 24 + SourceOffset(src)
    case Jump(Always) => 11
    case Jump(RegZero) => 12
    case Jump(RegNonzero) => 13
    case Jump(FlagSet) => 26
    case Jump(FlagClear) => 27
    case Print => 14
    case Halt => 15
    case Nop => 28
    case Load(src) => 16 + SourceOffset(src)
    case Store(src) => 18 + SourceOffset(src)
    case Push => 20
    case Pop => 21
    case Call => 22
    case Ret => 23
  }

  /** The families enumerate the opcodes 1..41 without gap or overlap. */
  lemma DecodeEncode(op: Op)
    ensures 1 <= Encode(op) <= 41
    ensures Decode(Encode(op)) == Some(op)
  {
    match op
    case Alu(alu, src) =>
      match alu { case Mov => case Add => case Sub => case Mul => case Div => case Mod =>
                  case Bits(BitAnd) => case Bits(BitOr) => case Bits(BitXor) => case Shl => case Shr => }
    case _ =>
  }

  lemma EncodeDecode(opcode: byte)
    ensures Decode(opcode).Some? <==> 1 <= opcode <= 41
    ensures Decode(opcode).Some? ==> Encode(Decode(opcode).value) == opcode
  {
  }

  // ----- operand use -----

  predicate UsesA(op: Op) {
    match op
    case Jump(cond) => cond == RegZero || cond == RegNonzero
    case Halt => false
    case Nop => false
    case Call => false
    case Ret => false
    case _ => true
  }

  predicate UsesB(op: Op) {
    match op
    case Alu(_, src) => src == Reg
    case Cmp(src) => src == Reg
    case Load(src) => src == Reg
    case Store(src) => src == Reg
    case _ => false
  }

  predicate RegistersOk(op: Op, ins: Instr) {
    (UsesA(op) ==> ins.a < REGISTERS) && (UsesB(op) ==> ins.b < REGISTERS)
  }
}
