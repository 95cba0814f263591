/** What the verifier's verdict means for runs: which errors a verified program
    can still raise and where, programs that never fail, programs that always
    end, and what a failing step leaves behind. */
module Safety {
  import opened Words
  import opened Isa
  import opened Machine
  import opened Verifier

  // ----- failing steps -----

  lemma AluFaults(alu: AluOp, x: i64, y: i64)
    ensures AluValue(alu, x, y).Fault? ==> AluValue(alu, x, y).e in {DivZero, BadShift}
  {
    hide TruncDiv, TruncMod, Bitwise64, Shl64, Shr64;
  }

  lemma FailedPerform(count: nat, s: State, op: Op, ins: Instr)
    requires RegistersOk(op, ins) && Perform(count, s, op, ins).Stop?
    ensures var o := Perform(count, s, op, ins);
      && o.s == (if o.e == BadJump && op == Ret then s.(sp := s.sp + 8) else s)
      && o.e in {DivZero, BadJump, MemoryOob, StackOverflow, StackUnderflow, BadShift}
  {
    if op.Alu? {
      AluFaults(op.alu, s.regs[ins.a], Operand(s, op.src, ins));
    }
    hide AluValue, LoadWord, StoreWord;
  }

  /** A failing step is almost atomic: ip has advanced (unless the fetch itself
      failed) and nothing else has moved, except that a RET to a bad target has
      already popped its word. */
  lemma FailedStep(code: seq<Instr>, s: State)
    requires Step(code, s).Stop?
    ensures var e, t := Step(code, s).e, Step(code, s).s;
      t == if e == IpOutOfBounds then s
           else if e == BadJump && Decode(code[s.ip].opcode) == Some(Ret) then s.(ip := s.ip + 1, sp := s.sp + 8)
           else s.(ip := s.ip + 1)
    ensures Step(code, s).e == IpOutOfBounds <==> s.ip >= |code|
    ensures Step(code, s).e in
      {BadOpcode, IpOutOfBounds, BadRegister, DivZero, BadJump, MemoryOob, StackOverflow, StackUnderflow, BadShift}
  {
    hide Perform, Decode, RegistersOk;
    if !s.halted && s.ip < |code| {
      var ins := code[s.ip];
      if Decode(ins.opcode).Some? && RegistersOk(Decode(ins.opcode).value, ins) {
        FailedPerform(|code|, s.(ip := s.ip + 1), Decode(ins.opcode).value, ins);
      }
    }
  }

  /** The instruction at s divides INT64_MIN by -1. */
  predicate DividesMin(code: seq<Instr>, s: State) {
    && !s.halted && s.ip < |code|
    && var ins := code[s.ip];
    && Decode(ins.opcode).Some? && RegistersOk(Decode(ins.opcode).value, ins)
    && var op := Decode(ins.opcode).value;
    && op.Alu? && (op.alu == Div || op.alu == Mod)
    && s.regs[ins.a] == -TWO_63 && Operand(s, op.src, ins) == -1
  }

  /** The processor traps exactly on INT64_MIN / -1 and INT64_MIN % -1. */
  lemma TrapCause(code: seq<Instr>, s: State)
    ensures Step(code, s).Trap? <==> DividesMin(code, s)
  {
    if !s.halted && s.ip < |code| {
      var ins := code[s.ip];
      if Decode(ins.opcode).Some? && RegistersOk(Decode(ins.opcode).value, ins) && Decode(ins.opcode).value.Alu? {
        var x, y := s.regs[ins.a], Operand(s, Decode(ins.opcode).value.src, ins);
        if y != 0 {
          TruncDivFits(x, y);
        }
      }
    }
    hide TruncDiv, TruncMod, LoadWord, StoreWord, Bitwise64, Shl64, Shr64, Product;
  }

  /** A successful step of a program that is still going executes one known
      instruction with registers in range. */
  lemma GoodStep(code: seq<Instr>, s: State)
    requires !s.halted && Step(code, s).Next?
    ensures s.ip < |code|
    ensures var ins := code[s.ip];
      Decode(ins.opcode).Some? && RegistersOk(Decode(ins.opcode).value, ins) &&
      Step(code, s) == Perform(|code|, s.(ip := s.ip + 1), Decode(ins.opcode).value, ins)
  {
    hide Perform;
  }

  // ----- verified programs -----

  /** The errors an instruction that passed the verifier can still raise. */
  predicate MayRaise(op: Op, e: Error) {
    match e
    case BadJump => op == Ret
    case BadShift => op == Alu(Shl, Reg) || op == Alu(Shr, Reg)
    case DivZero => op == Alu(Div, Reg) || op == Alu(Mod, Reg)
    case MemoryOob => op == Load(Reg) || op == Store(Reg)
    case StackOverflow => op == Push || op == Call
    case StackUnderflow => op == Pop || op == Ret
    case _ => false
  }

  lemma VerifiedStep(code: seq<Instr>, s: State)
    requires Verified(code) && s.ip < |code| && Step(code, s).Stop?
    ensures Decode(code[s.ip].opcode).Some?
    ensures MayRaise(Decode(code[s.ip].opcode).value, Step(code, s).e)
  {
    hide LoadWord, StoreWord, TruncDiv, TruncMod, Shl64, Shr64, Bitwise64, Product;
    assert StaticError(code[s.ip], |code|) == Ok;
  }

  // ----- each of these errors does occur -----

  /** From power-on, step n of the verified program `code` fails with e at an
      instruction of family op. */
  predicate RaisesOnRun(code: seq<Instr>, n: nat, op: Op, e: Error) {
    && Verified(code)
    && var o := Run(code, Init(), n);
    && o.Stop? && o.e == e
    && 0 < o.s.ip <= |code| && Decode(code[o.s.ip - 1].opcode) == Some(op)
  }

  lemma Executes(code: seq<Instr>, s: State, op: Op)
    requires !s.halted && s.ip < |code|
    requires code[s.ip].opcode == Encode(op) && RegistersOk(op, code[s.ip])
    ensures Decode(code[s.ip].opcode) == Some(op)
    ensures Step(code, s) == Perform(|code|, s.(ip := s.ip + 1), op, code[s.ip])
  {
    DecodeEncode(op);
    hide Decode, Encode, Perform;
  }

  /** `op r0, r1` (or `op r0`) at the end of a program, about to fail. */
  lemma FailsNow(code: seq<Instr>, n: nat, op: Op, e: Error, s: State)
    requires Verified(code) && Run(code, Init(), n) == Next(s) && !s.halted && s.ip < |code|
    requires code[s.ip].opcode == Encode(op) && RegistersOk(op, code[s.ip])
    requires Perform(|code|, s.(ip := s.ip + 1), op, code[s.ip]) == Stop(e, s.(ip := s.ip + 1))
    ensures RaisesOnRun(code, n + 1, op, e)
  {
    hide Decode, Encode, Perform, Step, Init, Verified;
    Executes(code, s, op);
  }

  /** The register value that an operation cannot take. */
  function Unfit(e: Error): i64 {
    if e == BadShift then 64 else if e == MemoryOob then -1 else 0
  }

  lemma UnfitOperand(op: Op, e: Error, ins: Instr, s: State, count: nat)
    requires MayRaise(op, e) && e in {BadShift, MemoryOob, DivZero}
    requires s.regs[1] == Unfit(e) && ins == Instr(Encode(op), 0, 1, 0, 0)
    ensures RegistersOk(op, ins) && OperandError(op, 0, count) == Ok
    ensures Perform(count, s, op, ins) == Stop(e, s)
  {
    hide LoadWord, StoreWord, TruncDiv, TruncMod, Shl64, Shr64, Bitwise64, Product;
  }

  lemma VerifiedInstr(ins: Instr, op: Op, count: nat)
    requires ins.opcode == Encode(op) && ins.c == 0 && RegistersOk(op, ins) && OperandError(op, ins.imm, count) == Ok
    ensures StaticError(ins, count) == Ok
  {
    DecodeEncode(op);
    hide Decode, Encode, OperandError;
  }

  /** `mov r1, x` and the operation by register. */
  lemma ByRegister(op: Op, e: Error)
    requires MayRaise(op, e) && e in {BadShift, MemoryOob, DivZero}
    ensures exists code, n :: RaisesOnRun(code, n, op, e)
  {
    hide Encode, Decode, Perform, Step, OperandError, MayRaise, RaisesOnRun, Unfit, RegistersOk;
    var move, ins := Instr(1, 1, 0, 0, Unfit(e)), Instr(Encode(op), 0, 1, 0, 0);
    var code := [move, ins];
    var s := SetReg(Init().(ip := 1), 1, Unfit(e));
    MoveFirst(code, Unfit(e));
    UnfitOperand(op, e, ins, s.(ip := 2), 2);
    VerifiedInstr(ins, op, 2);
    assert Verified(code);
    FailsNow(code, 1, op, e, s);
  }

  /** A first instruction `mov r, x` and what it leaves. */
  lemma MoveFirst(code: seq<Instr>, x: i64)
    requires code != [] && code[0] in {Instr(1, 0, 0, 0, x), Instr(1, 1, 0, 0, x)}
    ensures StaticError(code[0], |code|) == Ok
    ensures Run(code, Init(), 1) == Next(SetReg(Init().(ip := 1), code[0].a, x))
  {
    Executes(code, Init(), Alu(Mov, Imm));
    assert Run(code, Init(), 0) == Next(Init());
    hide LoadWord, StoreWord;
  }

  /** POP or RET first thing. */
  lemma OnEmptyStack(op: Op)
    requires op == Pop || op == Ret
    ensures exists code, n :: RaisesOnRun(code, n, op, StackUnderflow)
  {
    var code := [Instr(Encode(op), 0, 0, 0, 0)];
    assert Verified(code) && Run(code, Init(), 0) == Next(Init());
    hide RaisesOnRun, LoadWord;
    FailsNow(code, 0, op, StackUnderflow, Init());
  }

  /** `mov r0, 3`, `push r0`, `ret`: a return behind the end. */
  function ReturnNowhere(): seq<Instr> {
    [Instr(1, 0, 0, 0, 3), Instr(20, 0, 0, 0, 0), Instr(23, 0, 0, 0, 0)]
  }

  lemma PushThree(s: State) returns (t: State)
    requires !s.halted && s.ip == 1 && s.sp == MEMORY_SIZE && s.regs[0] == 3
    ensures Step(ReturnNowhere(), s) == Next(t)
    ensures !t.halted && t.ip == 2 && t.sp == LAST_ADDRESS && LoadWord(t.memory, LAST_ADDRESS) == 3
  {
    Executes(ReturnNowhere(), s, Push);
    hide Step, LoadWord, StoreWord, Decode;
    LoadStored(s.memory, LAST_ADDRESS, 3);
    t := s.(ip := 2, sp := LAST_ADDRESS, memory := StoreWord(s.memory, LAST_ADDRESS, 3));
  }

  lemma FailToReturn(t: State)
    requires !t.halted && t.ip == 2 && t.sp == LAST_ADDRESS && LoadWord(t.memory, LAST_ADDRESS) == 3
    ensures Step(ReturnNowhere(), t) == Stop(BadJump, t.(ip := 3, sp := MEMORY_SIZE))
    ensures Decode(ReturnNowhere()[2].opcode) == Some(Ret)
  {
    Executes(ReturnNowhere(), t, Ret);
    hide Step, LoadWord, Decode;
  }

  lemma ToNowhere()
    ensures exists code, n :: RaisesOnRun(code, n, Ret, BadJump)
  {
    hide LoadWord, StoreWord, Decode, Step, Init;
    var code := ReturnNowhere();
    assert Verified(code) by { NowhereVerified(); }
    MoveFirst(code, 3);
    var s := SetReg(Init().(ip := 1), 0, 3);
    assert !s.halted && s.sp == MEMORY_SIZE by { InitIdle(); }
    var t := PushThree(s);
    FailToReturn(t);
    assert Run(code, Init(), 2) == Next(t);
    assert Run(code, Init(), 3) == Step(code, t);
    assert RaisesOnRun(code, 3, Ret, BadJump);
  }

  lemma InitIdle()
    ensures !Init().halted && Init().sp == MEMORY_SIZE && Init().ip == 0
  {
  }

  lemma NowhereVerified()
    ensures Verified(ReturnNowhere())
  {
  }

  /** A loop that pushes a word every `period` steps, and where it has got to. */
  predicate Pushing(o: Outcome, k: nat) {
    k <= 8192 && o.Next? && !o.s.halted && o.s.ip == 0 && o.s.sp == MEMORY_SIZE - 8 * k
  }

  /** `push r0`, `jmp 0` */
  function PushForever(): seq<Instr> {
    [Instr(20, 0, 0, 0, 0), Instr(11, 0, 0, 0, 0)]
  }

  lemma PushTurn(s: State) returns (t: State)
    requires !s.halted && s.ip == 0 && s.sp >= 8
    ensures Step(PushForever(), s) == Next(t) && Step(PushForever(), t).Next?
    ensures var u := Step(PushForever(), t).s; !u.halted && u.ip == 0 && u.sp == s.sp - 8
  {
    var code := PushForever();
    Executes(code, s, Push);
    t := s.(ip := 1, sp := s.sp - 8, memory := StoreWord(s.memory, s.sp - 8, s.regs[0]));
    Executes(code, t, Jump(Always));
    hide Step, StoreWord, Decode;
  }

  lemma {:induction false} PushLoop(k: nat)
    requires k <= 8192
    ensures Pushing(Run(PushForever(), Init(), 2 * k), k)
  {
    hide Step, PushForever;
    var code := PushForever();
    if k == 0 {
      assert Run(code, Init(), 0) == Next(Init());
    } else {
      PushLoop(k - 1);
      var t := PushTurn(Run(code, Init(), 2 * k - 2).s);
      assert Run(code, Init(), 2 * k - 1) == Next(t);
      assert Run(code, Init(), 2 * k) == Step(code, t);
    }
  }

  lemma PushOverflows()
    ensures exists code, n :: RaisesOnRun(code, n, Push, StackOverflow)
  {
    hide RaisesOnRun, StoreWord, Run, Init;
    var code := PushForever();
    assert Verified(code);
    var k := MEMORY_SIZE / 8;
    PushLoop(k);
    FailsNow(code, 2 * k, Push, StackOverflow, Run(code, Init(), 2 * k).s);
  }

  /** `call 0` */
  function CallForever(): seq<Instr> {
    [Instr(22, 0, 0, 0, 0)]
  }

  lemma CallTurn(s: State)
    requires !s.halted && s.ip == 0 && s.sp >= 8
    ensures Step(CallForever(), s).Next?
    ensures var u := Step(CallForever(), s).s; !u.halted && u.ip == 0 && u.sp == s.sp - 8
  {
    Executes(CallForever(), s, Call);
    hide Step, StoreWord, Decode;
  }

  lemma {:induction false} CallLoop(k: nat)
    requires k <= 8192
    ensures Pushing(Run(CallForever(), Init(), k), k)
  {
    hide Step, CallForever;
    var code := CallForever();
    if k == 0 {
      assert Run(code, Init(), 0) == Next(Init());
    } else {
      CallLoop(k - 1);
      var s := Run(code, Init(), k - 1).s;
      CallTurn(s);
      assert Run(code, Init(), k) == Step(code, s);
    }
  }

  lemma CallOverflows()
    ensures exists code, n :: RaisesOnRun(code, n, Call, StackOverflow)
  {
    hide RaisesOnRun, StoreWord, Run, Init;
    var code := CallForever();
    assert Verified(code);
    var k := MEMORY_SIZE / 8;
    CallLoop(k);
    FailsNow(code, k, Call, StackOverflow, Run(code, Init(), k).s);
  }

  /** Each error a verified instruction may still raise is raised by it on the
      run, from power-on, of some verified program. */
  lemma MayRaiseAttained(op: Op, e: Error)
    requires MayRaise(op, e)
    ensures exists code, n :: RaisesOnRun(code, n, op, e)
  {
    hide RaisesOnRun;
    match e
    case BadJump => ToNowhere();
    case StackUnderflow => OnEmptyStack(op);
    case StackOverflow => if op == Push { PushOverflows(); } else { CallOverflows(); }
    case _ => ByRegister(op, e);
  }

  /** The last instruction never lets control fall off the end. */
  predicate EndsClosed(code: seq<Instr>) {
    code != [] && Decode(code[|code| - 1].opcode) in {Some(Halt), Some(Jump(Always)), Some(Call), Some(Ret)}
  }

  predicate InCode(code: seq<Instr>, s: State) {
    s.halted || s.ip < |code|
  }

  lemma StaysInCode(code: seq<Instr>, s: State)
    requires Verified(code) && EndsClosed(code) && InCode(code, s) && Step(code, s).Next?
    ensures InCode(code, Step(code, s).s)
  {
    hide Perform, Dispatch;
    if !s.halted {
      GoodStep(code, s);
      assert StaticError(code[s.ip], |code|) == Ok;
      StepTarget(code, s);
    }
  }

  /** Where one step can take ip. */
  lemma StepTarget(code: seq<Instr>, s: State)
    requires !s.halted && Step(code, s).Next?
    ensures s.ip < |code|
    ensures var t, ins := Step(code, s).s, code[s.ip];
      match Decode(ins.opcode).value
      case Jump(Always) => t.ip == ins.imm
      case Jump(_) => t.ip == ins.imm || t.ip == s.ip + 1
      case Call => t.ip == ins.imm
      case Ret => t.ip < |code|
      case Halt => t.halted
      case _ => t.ip == s.ip + 1
    ensures Step(code, s).s.ip <= |code|
  {
    GoodStep(code, s);
    hide AluValue, StoreWord, LoadWord;
  }

  /** Where a run of `code` may stop: every error comes from an instruction
      that can raise it, and the fetch fails only past the end. */
  predicate ExcusedStop(code: seq<Instr>, o: Outcome) {
    o.Stop? ==>
      if o.e == IpOutOfBounds then o.s.ip >= |code| && !EndsClosed(code)
      else
        && 0 < o.s.ip <= |code|
        && Decode(code[o.s.ip - 1].opcode).Some?
        && MayRaise(Decode(code[o.s.ip - 1].opcode).value, o.e)
  }

  /** Verifier soundness over every run: no bad opcode, no bad register, no bad
      immediate ever surfaces, the processor traps only on INT64_MIN divided by
      -1, and a program closed by HALT, JMP, CALL or RET never runs off its
      end. */
  lemma {:induction false} VerifierSound(code: seq<Instr>, n: nat)
    requires Verified(code)
    ensures ExcusedStop(code, Run(code, Init(), n))
    ensures Run(code, Init(), n).Trap? ==> DividesMinBefore(code, n)
    ensures EndsClosed(code) && Run(code, Init(), n).Next? ==> InCode(code, Run(code, Init(), n).s)
    decreases n
  {
    hide Step, DividesMin, ExcusedStop, EndsClosed, InCode;
    if n == 0 {
      SoundStart(code);
    } else {
      VerifierSound(code, n - 1);
      var o := Run(code, Init(), n - 1);
      if o.Next? {
        SoundStep(code, o.s);
        TrapCause(code, o.s);
      }
    }
  }

  /** One of the first n steps of the run from power-on divides INT64_MIN by -1. */
  predicate DividesMinBefore(code: seq<Instr>, n: nat) {
    exists m :: 0 <= m < n && Run(code, Init(), m).Next? && DividesMin(code, Run(code, Init(), m).s)
  }

  lemma SoundStart(code: seq<Instr>)
    ensures Run(code, Init(), 0) == Next(Init()) && ExcusedStop(code, Next(Init()))
    ensures EndsClosed(code) ==> InCode(code, Init())
  {
  }

  /** `mov r0, INT64_MIN`, `div r0, -1`, `halt` */
  function DivideMin(): seq<Instr> {
    [Instr(1, 0, 0, 0, -0x8000_0000_0000_0000), Instr(9, 0, 0, 0, -1), Instr(15, 0, 0, 0, 0)]
  }

  /** A verified program can kill the process: this one does, from power-on. */
  lemma VerifiedTraps()
    ensures Verified(DivideMin()) && EndsClosed(DivideMin())
    ensures Run(DivideMin(), Init(), 2) == Trap
  {
    var code := DivideMin();
    MoveFirst(code, -0x8000_0000_0000_0000);
    var s := SetReg(Init().(ip := 1), 0, -0x8000_0000_0000_0000);
    TrapCause(code, s);
    assert DividesMin(code, s);
    hide Step, TruncDiv;
    assert Run(code, Init(), 2) == Step(code, s);
  }

  lemma SoundStep(code: seq<Instr>, s: State)
    requires Verified(code) && (EndsClosed(code) ==> InCode(code, s))
    ensures ExcusedStop(code, Step(code, s))
    ensures EndsClosed(code) && Step(code, s).Next? ==> InCode(code, Step(code, s).s)
  {
    hide Dispatch, Decode, MayRaise, Verified, EndsClosed;
    var o := Step(code, s);
    if o.Stop? {
      FailedStep(code, s);
      if s.ip < |code| {
        VerifiedStep(code, s);
      }
    } else if o.Next? && EndsClosed(code) {
      StaysInCode(code, s);
    }
  }

  // ----- what the verifier rejects does fail -----

  /** The instruction at s is about to run; if it is a branch on a condition it
      is taken. */
  predicate Reaches(code: seq<Instr>, s: State) {
    && !s.halted && s.ip < |code|
    && var ins := code[s.ip];
    && match Decode(ins.opcode)
       case Some(Jump(cond)) => RegistersOk(Jump(cond), ins) ==> Taken(s, cond, ins)
       case _ => true
  }

  lemma RejectedPerform(count: nat, s: State, op: Op, ins: Instr)
    requires RegistersOk(op, ins) && OperandError(op, ins.imm, count) != Ok
    requires op.Jump? ==> Taken(s, op.cond, ins)
    ensures Perform(count, s, op, ins) == Stop(OperandError(op, ins.imm, count), s)
  {
    hide LoadWord, StoreWord, TruncDiv, TruncMod, Bitwise64, Shl64, Shr64, Product;
  }

  /** An instruction the verifier rejects, for any reason but its reserved
      field, which no engine looks at, fails with just that error whenever it
      is reached and, if it is a conditional branch, taken. */
  lemma RejectedStep(code: seq<Instr>, s: State)
    requires Reaches(code, s) && StaticError(code[s.ip], |code|) !in {Ok, Parse}
    ensures Step(code, s) == Stop(StaticError(code[s.ip], |code|), s.(ip := s.ip + 1))
  {
    hide Decode, Perform, OperandError;
    var ins := code[s.ip];
    if Decode(ins.opcode).Some? && RegistersOk(Decode(ins.opcode).value, ins) {
      RejectedPerform(|code|, s.(ip := s.ip + 1), Decode(ins.opcode).value, ins);
    }
  }

  /** So a run that reaches such an instruction ends there, whatever came
      before. */
  lemma RejectedRun(code: seq<Instr>, n: nat, m: nat)
    requires Run(code, Init(), n).Next? && n < m
    requires Reaches(code, Run(code, Init(), n).s)
    requires StaticError(code[Run(code, Init(), n).s.ip], |code|) !in {Ok, Parse}
    ensures var s := Run(code, Init(), n).s;
      Run(code, Init(), m) == Stop(StaticError(code[s.ip], |code|), s.(ip := s.ip + 1))
  {
    hide Step, StaticError, Reaches;
    RejectedStep(code, Run(code, Init(), n).s);
    assert Run(code, Init(), n + 1) == Step(code, Run(code, Init(), n).s);
    RunOver(code, Init(), n + 1, m);
  }

  // ----- programs that never fail -----

  /** Instructions whose verified form cannot fail or trap on any state. */
  predicate Harmless(ins: Instr) {
    match Decode(ins.opcode)
    case None => false
    case Some(op) =>
      match op
      case Alu(Div, src) => src == Imm && ins.imm != -1
      case Alu(Mod, src) => src == Imm && ins.imm != -1
      case Alu(Shl, src) => src == Imm
      case Alu(Shr, src) => src == Imm
      case Load(src) => src == Imm
      case Store(src) => src == Imm
      case Push => false
      case Pop => false
      case Call => false
      case Ret => false
      case _ => true
  }

  predicate AllHarmless(code: seq<Instr>) {
    forall i :: 0 <= i < |code| ==> Harmless(code[i])
  }

  lemma DivisorNotMinusOne(x: i64, y: i64)
    requires y != 0 && y != -1
    ensures Fits(TruncDiv(x, y))
  {
    TruncDivFits(x, y);
  }

  lemma HarmlessStep(code: seq<Instr>, s: State)
    requires Verified(code) && AllHarmless(code) && InCode(code, s)
    ensures Step(code, s).Next?
  {
    if !s.halted {
      var ins := code[s.ip];
      assert Harmless(ins) && StaticError(ins, |code|) == Ok;
      var op := Decode(ins.opcode).value;
      if op.Alu? && (op.alu == Div || op.alu == Mod) {
        DivisorNotMinusOne(s.regs[ins.a], ins.imm);
      }
      hide TruncDiv, TruncMod, Bitwise64, Shl64, Shr64, Product;
    }
  }

  /** The error-free fragment: no run of such a program ever sets an error or
      traps; every state it reaches is halted or can step. */
  lemma {:induction false} HarmlessRun(code: seq<Instr>, n: nat)
    requires Verified(code) && AllHarmless(code) && EndsClosed(code)
    ensures Run(code, Init(), n).Next? && InCode(code, Run(code, Init(), n).s)
    decreases n
  {
    if n > 0 {
      HarmlessRun(code, n - 1);
      var s := Run(code, Init(), n - 1).s;
      HarmlessStep(code, s);
      StaysInCode(code, s);
    }
  }

  // ----- programs that always end -----

  /** Every jump and call goes forward and nothing returns. */
  predicate ForwardOnly(code: seq<Instr>) {
    forall i :: 0 <= i < |code| ==>
      match Decode(code[i].opcode)
      case Some(Jump(_)) => code[i].imm > i
      case Some(Call) => code[i].imm > i
      case Some(Ret) => false
      case _ => true
  }

  lemma ForwardStep(code: seq<Instr>, s: State)
    requires ForwardOnly(code) && !s.halted && Step(code, s).Next?
    ensures Step(code, s).s.halted || s.ip < Step(code, s).s.ip <= |code|
  {
    StepTarget(code, s);
    GoodStep(code, s);
  }

  lemma {:induction false} ForwardProgress(code: seq<Instr>, n: nat)
    requires ForwardOnly(code)
    ensures var o := Run(code, Init(), n); o.Next? && !o.s.halted ==> n <= o.s.ip <= |code|
    decreases n
  {
    hide Dispatch, ForwardOnly;
    if n > 0 {
      ForwardProgress(code, n - 1);
      var o := Run(code, Init(), n - 1);
      if o.Next? && !o.s.halted && Step(code, o.s).Next? {
        ForwardStep(code, o.s);
      }
    }
  }

  /** A forward-only program is over after at most one step per instruction
      and the final failing fetch. */
  lemma ForwardTerminates(code: seq<Instr>)
    requires ForwardOnly(code)
    ensures Over(Run(code, Init(), |code| + 1))
    ensures var o := Run(code, Init(), |code|); !Over(o) ==> o.s.ip == |code|
  {
    ForwardProgress(code, |code| + 1);
    ForwardProgress(code, |code|);
  }
}
