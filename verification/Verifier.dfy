/** `wai_verify_program`: the static checks made before a program runs, and the
    reading of them by instruction family that the rest of the model uses. */
module Verifier {
  import opened Words
  import opened Isa
  import opened Machine

  /** What is wrong with one instruction of a program of `count`
      instructions, taken family by family; Ok when nothing is. */
  function StaticError(ins: Instr, count: nat): Error {
    if ins.c != 0 then Parse
    else match Decode(ins.opcode)
      case None => BadOpcode
      case Some(op) => if RegistersOk(op, ins) then OperandError(op, ins.imm, count) else BadRegister
  }

  function OperandError(op: Op, imm: i64, count: nat): Error {
    match op
    case Jump(_) => if 0 <= imm < count then Ok else BadJump
    case Call => if 0 <= imm < count then Ok else BadJump
    case Alu(Div, Imm) => if imm == 0 then DivZero else Ok
    case Alu(Mod, Imm) => if imm == 0 then DivZero else Ok
    case Alu(Shl, Imm) => if ValidShift(imm) then Ok else BadShift
    case Alu(Shr, Imm) => if ValidShift(imm) then Ok else BadShift
    case Load(Imm) => if ValidAddress(imm) then Ok else MemoryOob
    case Store(Imm) => if ValidAddress(imm) then Ok else MemoryOob
    case _ => Ok
  }

  predicate Verified(code: seq<Instr>) {
    forall i :: 0 <= i < |code| ==> StaticError(code[i], |code|) == Ok
  }

  /** `ip` is the least index whose instruction is wrong, and `e` says how. */
  predicate FirstBad(code: seq<Instr>, ip: nat, e: Error) {
    && ip < |code|
    && e != Ok
    && StaticError(code[ip], |code|) == e
    && forall i :: 0 <= i < ip ==> StaticError(code[i], |code|) == Ok
  }

  /** The error of the first wrong instruction from index i on. */
  function FirstErrorFrom(code: seq<Instr>, i: nat): Error
    requires i <= |code|
    decreases |code| - i
  {
    if i == |code| then Ok
    else if StaticError(code[i], |code|) != Ok then StaticError(code[i], |code|)
    else FirstErrorFrom(code, i + 1)
  }

  function FirstError(code: seq<Instr>): Error {
    FirstErrorFrom(code, 0)
  }

  /** FirstError names the least wrong index, or finds none. */
  lemma {:induction false} FirstErrorMeaning(code: seq<Instr>, i: nat)
    requires i <= |code| && forall j :: 0 <= j < i ==> StaticError(code[j], |code|) == Ok
    ensures FirstErrorFrom(code, i) == Ok <==> Verified(code)
    ensures FirstErrorFrom(code, i) != Ok ==> exists ip :: FirstBad(code, ip, FirstErrorFrom(code, i))
    decreases |code| - i
  {
    if i < |code| {
      if StaticError(code[i], |code|) == Ok {
        FirstErrorMeaning(code, i + 1);
      } else {
        assert FirstBad(code, i, StaticError(code[i], |code|));
      }
    }
  }

  // ----- the two switches of the verifier -----

  predicate RegisterIsValid(reg: byte) {
    reg < 8
  }

  /** First switch: operand registers, and the shift count on the way. */
  function VerifyOperands(ins: Instr): Error {
    match ins.opcode
    case 1 | 3 | 5 | 7 | 9 | 29 | 31 | 33 | 35 | 24 | 16 | 18 | 20 | 21 | 14 | 37 | 12 | 13 =>
      if !RegisterIsValid(ins.a) then BadRegister else Ok
    case 38 | 40 =>
      if !RegisterIsValid(ins.a) then BadRegister
      else if ins.imm < 0 || ins.imm > 63 then BadShift
      else Ok
    case 2 | 4 | 6 | 8 | 10 | 30 | 32 | 34 | 36 | 25 | 17 | 19 | 39 | 41 =>
      if !RegisterIsValid(ins.a) then BadRegister
      else if !RegisterIsValid(ins.b) then BadRegister
      else Ok
    case 11 | 22 | 26 | 27 | 15 | 23 | 28 => Ok
    case _ => BadOpcode
  }

  /** Second switch: divisors, targets and absolute addresses. */
  function VerifyImmediate(ins: Instr, count: nat): Error {
    match ins.opcode
    case 9 | 29 => if ins.imm == 0 then DivZero else Ok
    case 11 | 12 | 13 | 22 | 26 | 27 =>
      if !(ins.imm >= 0 && ToU64(ins.imm) < count) then BadJump else Ok
    case 16 | 18 =>
      if !(ins.imm >= 0 && ToU64(ins.imm) <= 65536 - 8) then MemoryOob else Ok
    case _ => Ok
  }

  function VerifyInstruction(ins: Instr, count: nat): Error {
    if ins.c != 0 then Parse
    else if !(1 <= ins.opcode <= 41) then BadOpcode
    else if VerifyOperands(ins) != Ok then VerifyOperands(ins)
    else VerifyImmediate(ins, count)
  }

  lemma VerifyOperandsIsRegisters(ins: Instr)
    requires Decode(ins.opcode).Some?
    ensures var op := Decode(ins.opcode).value;
      VerifyOperands(ins) ==
        if !RegistersOk(op, ins) then BadRegister
        else if op in {Alu(Shl, Imm), Alu(Shr, Imm)} && !ValidShift(ins.imm) then BadShift
        else Ok
  {
  }

  lemma VerifyImmediateIsOperand(ins: Instr, count: nat)
    requires Decode(ins.opcode).Some?
    ensures var op := Decode(ins.opcode).value;
      VerifyImmediate(ins, count) ==
        if op in {Alu(Shl, Imm), Alu(Shr, Imm)} then Ok else OperandError(op, ins.imm, count)
  {
  }

  /** The two switches decide exactly the family reading. */
  lemma VerifyInstructionIsStatic(ins: Instr, count: nat)
    ensures VerifyInstruction(ins, count) == StaticError(ins, count)
  {
    EncodeDecode(ins.opcode);
    if 1 <= ins.opcode <= 41 {
      VerifyOperandsIsRegisters(ins);
      VerifyImmediateIsOperand(ins, count);
    }
    hide Decode, Encode, VerifyOperands, VerifyImmediate, RegistersOk;
  }

  method VerifyProgram(code: seq<Instr>) returns (r: Error, ip: nat)
    ensures r == FirstError(code)
    ensures r == Ok <==> Verified(code)
    ensures if r == Ok then ip == 0 else FirstBad(code, ip, r)
  {
    hide StaticError, VerifyInstruction;
    for i := 0 to |code|
      invariant forall j :: 0 <= j < i ==> StaticError(code[j], |code|) == Ok
      invariant FirstErrorFrom(code, i) == FirstError(code)
    {
      var e := VerifyInstruction(code[i], |code|);
      VerifyInstructionIsStatic(code[i], |code|);
      if e != Ok {
        return e, i;
      }
    }
    return Ok, 0;
  }
}
