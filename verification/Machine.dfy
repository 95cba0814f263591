/** What one instruction does to the machine and what a run is. This is the
    reading both engines are proved against; arithmetic wraps at 64 bits, and
    the quotient that does not fit a register is a processor trap. */
module Machine {
  import opened Words
  import opened Isa

  datatype RawState = State(
    regs: seq<i64>,
    ip: nat,
    zf: bool,
    halted: bool,
    memory: seq<byte>,
    sp: nat,
    printed: seq<i64>)

  predicate WellFormed(s: RawState) {
    |s.regs| == REGISTERS && |s.memory| == MEMORY_SIZE && s.sp <= MEMORY_SIZE
  }

  type State = s: RawState | WellFormed(s)
    witness State(seq(8, _ => 0), 0, false, false, seq(65536, _ => 0), 65536, [])

  datatype Outcome =
    | Next(s: State)
    | Stop(e: Error, s: State)
    | Trap

  function Init(): State {
    State(seq(REGISTERS, _ => 0), 0, false, false, seq(MEMORY_SIZE, _ => 0), MEMORY_SIZE, [])
  }

  // ----- memory words -----

  predicate ValidAddress(a: int) {
    0 <= a <= LAST_ADDRESS
  }

  function LoadWord(memory: seq<byte>, a: nat): i64
    requires |memory| == MEMORY_SIZE && ValidAddress(a)
  {
    WordValue(memory[a..a + 8])
  }

  function StoreWord(memory: seq<byte>, a: nat, x: i64): (m: seq<byte>)
    requires |memory| == MEMORY_SIZE && ValidAddress(a)
    ensures |m| == MEMORY_SIZE
  {
    memory[..a] + WordBytes(x) + memory[a + 8..]
  }

  /** A stored word reads back, whatever its value. */
  lemma LoadStored(memory: seq<byte>, a: nat, x: i64)
    requires |memory| == MEMORY_SIZE && ValidAddress(a)
    ensures LoadWord(StoreWord(memory, a, x), a) == x
  {
    assert StoreWord(memory, a, x)[a..a + 8] == WordBytes(x);
    WordRoundTrip(x);
  }

  /** A store changes no byte outside its eight. */
  lemma StoreFrame(memory: seq<byte>, a: nat, x: i64, lo: nat, hi: nat)
    requires |memory| == MEMORY_SIZE && ValidAddress(a)
    requires lo <= hi <= MEMORY_SIZE && (hi <= a || a + 8 <= lo)
    ensures StoreWord(memory, a, x)[lo..hi] == memory[lo..hi]
  {
  }

  lemma LoadFrame(memory: seq<byte>, a: nat, x: i64, k: nat)
    requires |memory| == MEMORY_SIZE && ValidAddress(a) && ValidAddress(k)
    requires k + 8 <= a || a + 8 <= k
    ensures LoadWord(StoreWord(memory, a, x), k) == LoadWord(memory, k)
  {
    StoreFrame(memory, a, x, k, k + 8);
  }

  // ----- one instruction -----

  function Operand(s: State, src: Source, ins: Instr): i64
    requires src == Reg ==> ins.b < REGISTERS
  {
    if src == Imm then ins.imm else s.regs[ins.b]
  }

  function SetReg(s: State, r: byte, x: i64): State
    requires r < REGISTERS
  {
    s.(regs := s.regs[r := x], zf := x == 0)
  }

  datatype AluResult = Computed(x: i64) | Fault(e: Error) | Overflowed

  function ValidShift(y: int): bool {
    0 <= y <= 63
  }

  function Product(x: i64, y: i64): i64 {
    Wrap(x * y)
  }

  function AluValue(alu: AluOp, x: i64, y: i64): AluResult {
    match alu
    case Mov => Computed(y)
    case Add => Computed(Wrap(x + y))
    case Sub => Computed(Wrap(x - y))
    case Mul => Computed(Product(x, y))
    case Div =>
      if y == 0 then Fault(DivZero)
      else if !Fits(TruncDiv(x, y)) then Overflowed
      else Computed(TruncDiv(x, y))
    case Mod =>
      if y == 0 then Fault(DivZero)
      else if !Fits(TruncDiv(x, y)) then Overflowed
      else TruncDivFits(x, y); Computed(TruncMod(x, y))
    case Bits(op) => Computed(ToI64(Bitwise64(op, ToU64(x), ToU64(y))))
    case Shl =>
      if !ValidShift(y) then Fault(BadShift) else Computed(ToI64(Shl64(ToU64(x), y)))
    case Shr =>
      if !ValidShift(y) then Fault(BadShift) else Computed(ToI64(Shr64(ToU64(x), y)))
  }

  predicate Taken(s: State, cond: Cond, ins: Instr)
    requires UsesA(Jump(cond)) ==> ins.a < REGISTERS
  {
    match cond
    case Always => true
    case RegZero => s.regs[ins.a] == 0
    case RegNonzero => s.regs[ins.a] != 0
    case FlagSet => s.zf
    case FlagClear => !s.zf
  }

  function JumpTo(count: nat, s: State, target: int): Outcome {
    if 0 <= target < count then Next(s.(ip := target)) else Stop(BadJump, s)
  }

  function PushWord(s: State, x: i64): Outcome {
    if s.sp < 8 then Stop(StackOverflow, s)
    else Next(s.(sp := s.sp - 8, memory := StoreWord(s.memory, s.sp - 8, x)))
  }

  function PerformAlu(s: State, alu: AluOp, src: Source, ins: Instr): Outcome
    requires RegistersOk(Alu(alu, src), ins)
  {
    match AluValue(alu, s.regs[ins.a], Operand(s, src, ins))
    case Computed(x) => Next(SetReg(s, ins.a, x))
    case Fault(e) => Stop(e, s)
    case Overflowed => Trap
  }

  function PerformJump(count: nat, s: State, cond: Cond, ins: Instr): Outcome
    requires RegistersOk(Jump(cond), ins)
  {
    if Taken(s, cond, ins) then JumpTo(count, s, ins.imm) else Next(s)
  }

  function PerformLoad(s: State, src: Source, ins: Instr): Outcome
    requires RegistersOk(Load(src), ins)
  {
    var a := Operand(s, src, ins);
    if ValidAddress(a) then Next(SetReg(s, ins.a, LoadWord(s.memory, a))) else Stop(MemoryOob, s)
  }

  function PerformStore(s: State, src: Source, ins: Instr): Outcome
    requires RegistersOk(Store(src), ins)
  {
    var a := Operand(s, src, ins);
    if ValidAddress(a) then Next(s.(memory := StoreWord(s.memory, a, s.regs[ins.a]))) else Stop(MemoryOob, s)
  }

  function PerformPop(s: State, ins: Instr): Outcome
    requires RegistersOk(Pop, ins)
  {
    if s.sp > LAST_ADDRESS then Stop(StackUnderflow, s)
    else Next(SetReg(s.(sp := s.sp + 8), ins.a, LoadWord(s.memory, s.sp)))
  }

  /** The target is checked before anything is pushed. */
  function PerformCall(count: nat, s: State, ins: Instr): Outcome {
    if !(0 <= ins.imm < count) then Stop(BadJump, s)
    else
      match PushWord(s, Wrap(s.ip))
      case Next(t) => Next(t.(ip := ins.imm))
      case o => o
  }

  /** The word is popped before it is checked as a target. */
  function PerformRet(count: nat, s: State): Outcome {
    if s.sp > LAST_ADDRESS then Stop(StackUnderflow, s)
    else JumpTo(count, s.(sp := s.sp + 8), LoadWord(s.memory, s.sp))
  }

  /** The instruction `ins` of family `op`, in a program of `count`
      instructions, on a state whose ip has already advanced. */
  function Perform(count: nat, s: State, op: Op, ins: Instr): Outcome
    requires RegistersOk(op, ins)
  {
    match op
    case Alu(alu, src) => PerformAlu(s, alu, src, ins)
    case Not => Next(SetReg(s, ins.a, ToI64(Not64(ToU64(s.regs[ins.a])))))
    case Cmp(src) => Next(s.(zf := s.regs[ins.a] == Operand(s, src, ins)))
    case Jump(cond) => PerformJump(count, s, cond, ins)
    case Print => Next(s.(printed := s.printed + [s.regs[ins.a]]))
    case Halt => Next(s.(halted := true))
    case Nop => Next(s)
    case Load(src) => PerformLoad(s, src, ins)
    case Store(src) => PerformStore(s, src, ins)
    case Push => PushWord(s, s.regs[ins.a])
    case Pop => PerformPop(s, ins)
    case Call => PerformCall(count, s, ins)
    case Ret => PerformRet(count, s)
  }

  function Dispatch(count: nat, s: State, ins: Instr): Outcome {
    match Decode(ins.opcode)
    case None => Stop(BadOpcode, s)
    case Some(op) => if RegistersOk(op, ins) then Perform(count, s, op, ins) else Stop(BadRegister, s)
  }

  function Step(code: seq<Instr>, s: State): Outcome {
    if s.halted then Next(s)
    else if s.ip >= |code| then Stop(IpOutOfBounds, s)
    else Dispatch(|code|, s.(ip := s.ip + 1), code[s.ip])
  }

  /** The two ends of a shift: a count out of range, and a value. */
  lemma ShiftEnds(s: State, alu: AluOp, src: Source, ins: Instr)
    requires alu in {Shl, Shr} && RegistersOk(Alu(alu, src), ins)
    ensures var x, y := s.regs[ins.a], Operand(s, src, ins);
      if !ValidShift(y) then PerformAlu(s, alu, src, ins) == Stop(BadShift, s)
      else AluValue(alu, x, y) == Computed(ToI64(if alu == Shl then Shl64(ToU64(x), y) else Shr64(ToU64(x), y)))
  {
    hide Shl64, Shr64;
  }

  /** Moves, and sums, differences and products that fit. */
  lemma ExactEnds(x: i64, y: i64)
    ensures AluValue(Mov, x, y) == Computed(y)
    ensures Fits(x + y) ==> AluValue(Add, x, y) == Computed(x + y)
    ensures Fits(x - y) ==> AluValue(Sub, x, y) == Computed(x - y)
    ensures Fits(x * y) ==> AluValue(Mul, x, y) == Computed(x * y)
  {
    if Fits(x + y) { WrapExact(x + y); }
    if Fits(x - y) { WrapExact(x - y); }
    if Fits(x * y) { WrapExact(x * y); }
    hide Wrap;
  }

  /** The three ends of a division. */
  lemma DivisionEnds(x: i64, y: i64)
    ensures y == 0 ==> AluValue(Div, x, y) == AluValue(Mod, x, y) == Fault(DivZero)
    ensures y != 0 && !Fits(TruncDiv(x, y)) ==> AluValue(Div, x, y) == AluValue(Mod, x, y) == Overflowed
    ensures y != 0 && Fits(TruncDiv(x, y)) ==>
      AluValue(Div, x, y) == Computed(TruncDiv(x, y)) && Fits(TruncMod(x, y)) && AluValue(Mod, x, y) == Computed(TruncMod(x, y))
  {
    if y != 0 {
      TruncDivFits(x, y);
    }
    hide TruncDiv, TruncMod;
  }

  /** Dispatch to an operation that is known. */
  lemma DispatchTo(count: nat, s: State, ins: Instr, op: Op)
    requires Decode(ins.opcode) == Some(op)
    ensures Dispatch(count, s, ins) == if RegistersOk(op, ins) then Perform(count, s, op, ins) else Stop(BadRegister, s)
  {
    hide Perform, Decode;
  }

  // ----- runs -----

  function Run(code: seq<Instr>, s: State, n: nat): Outcome {
    if n == 0 then Next(s)
    else match Run(code, s, n - 1)
      case Next(t) => Step(code, t)
      case o => o
  }

  /** The run is still going. */
  predicate Going(o: Outcome) {
    o.Next? && !o.s.halted
  }

  /** The run is over: halted, stopped on an error, or trapped. */
  predicate Over(o: Outcome) {
    o.Next? ==> o.s.halted
  }

  lemma {:induction false} RunSplit(code: seq<Instr>, s: State, m: nat, n: nat)
    requires Run(code, s, m).Next?
    ensures Run(code, s, m + n) == Run(code, Run(code, s, m).s, n)
    decreases n
  {
    hide Step;
    if n > 0 {
      RunSplit(code, s, m, n - 1);
      var o := Run(code, s, m + n - 1);
      assert o == Run(code, Run(code, s, m).s, n - 1);
      assert o.Next? ==> Run(code, s, m + n) == Step(code, o.s);
    }
  }

  /** A run that is over never changes again, so its end is unique. */
  lemma {:induction false} RunOver(code: seq<Instr>, s: State, m: nat, n: nat)
    requires m <= n && Over(Run(code, s, m))
    ensures Run(code, s, n) == Run(code, s, m)
    decreases n
  {
    if m < n {
      RunOver(code, s, m, n - 1);
    }
  }

  lemma {:induction false} RunPrefix(code: seq<Instr>, s: State, m: nat, n: nat)
    requires m <= n && Run(code, s, n).Next?
    ensures Run(code, s, m).Next?
    decreases n
  {
    hide Step;
    if m < n {
      RunPrefix(code, s, m, n - 1);
    }
  }

  lemma RunFirst(code: seq<Instr>, s: State, n: nat)
    requires n > 0 && Step(code, s).Next?
    ensures Run(code, s, n) == Run(code, Step(code, s).s, n - 1)
  {
    hide Step;
    assert Run(code, s, 0) == Next(s);
    assert Run(code, s, 1) == Step(code, s);
    RunSplit(code, s, 1, n - 1);
  }

  // ----- where the C arithmetic is defined -----

  /** No signed overflow: + - * stay exact and / % have a representable
      quotient, as C requires of the operations on registers. */
  predicate AluDefined(alu: AluOp, x: i64, y: i64) {
    match alu
    case Add => Fits(x + y)
    case Sub => Fits(x - y)
    case Mul => Fits(x * y)
    case Div => y != 0 ==> Fits(TruncDiv(x, y))
    case Mod => y != 0 ==> Fits(TruncDiv(x, y))
    case _ => true
  }

  predicate DefinedAt(s: State, ins: Instr) {
    match Decode(ins.opcode)
    case Some(Alu(alu, src)) =>
      RegistersOk(Alu(alu, src), ins) ==> AluDefined(alu, s.regs[ins.a], Operand(s, src, ins))
    case _ => true
  }

  predicate StepDefined(code: seq<Instr>, s: State) {
    !s.halted && s.ip < |code| ==> DefinedAt(s, code[s.ip])
  }

  /** None of the first n steps of the run from s overflows. */
  predicate DefinedFor(code: seq<Instr>, s: State, n: nat) {
    forall k :: 0 <= k < n && Run(code, s, k).Next? ==> StepDefined(code, Run(code, s, k).s)
  }

  /** Where C arithmetic is defined the processor does not trap either. */
  lemma DefinedNeverTraps(code: seq<Instr>, s: State)
    requires StepDefined(code, s)
    ensures !Step(code, s).Trap?
  {
    hide TruncDiv, TruncMod, LoadWord, StoreWord, Bitwise64, Shl64, Shr64;
  }

  lemma DefinedForLess(code: seq<Instr>, s: State, m: nat, n: nat)
    requires DefinedFor(code, s, n) && m <= n
    ensures DefinedFor(code, s, m)
  {
    hide Run, StepDefined;
  }

  lemma {:induction false} DefinedRunNeverTraps(code: seq<Instr>, s: State, n: nat)
    requires DefinedFor(code, s, n)
    ensures !Run(code, s, n).Trap?
    decreases n
  {
    hide Step, StepDefined;
    if n > 0 {
      DefinedRunNeverTraps(code, s, n - 1);
      var o := Run(code, s, n - 1);
      if o.Next? {
        DefinedNeverTraps(code, o.s);
      }
    }
  }
}
