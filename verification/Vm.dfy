/** The C engine: `wai_vm` as an object and `wai_vm_step`, one switch case at a
    time, updating it in place. */
module CVm {
  import opened Words
  import opened Isa
  import opened Machine

  class Vm {
    const regs: array<i64>
    var ip: u64
    var zf: byte
    var halted: byte
    const code: seq<Instr>
    const codeIsNull: bool
    var error: Error
    var lastPrint: i64
    var printCount: u64
    var stream: seq<i64>
    const memory: array<byte>
    var sp: u64

    ghost predicate Valid()
      reads this, regs, memory
    {
      && regs.Length == REGISTERS
      && memory.Length == MEMORY_SIZE
      && regs as object != memory
      && sp <= MEMORY_SIZE
      && (codeIsNull ==> code == [])
      && |code| <= TWO_63
      && printCount == |stream| % TWO_64
      && lastPrint == (if stream == [] then 0 else stream[|stream| - 1])
    }

    ghost function Model(): (s: State)
      requires Valid()
      reads this, regs, memory
    {
      State(regs[..], ip, zf != 0, halted != 0, memory[..], sp, stream)
    }

    constructor Init(code: seq<Instr>, codeIsNull: bool)
      requires codeIsNull ==> code == []
      requires |code| <= TWO_63
      ensures Valid() && fresh(regs) && fresh(memory)
      ensures Model() == Machine.Init()
      ensures error == Ok && this.code == code && this.codeIsNull == codeIsNull
    {
      this.code, this.codeIsNull := code, codeIsNull;
      regs := new i64[8](_ => 0);
      memory := new byte[65536](_ => 0);
      ip, zf, halted, error := 0, 0, 0, Ok;
      lastPrint, printCount, stream := 0, 0, [];
      sp := 65536;
    }

    method EmitPrint(value: i64)
      requires Valid()
      modifies this
      ensures Valid()
      ensures Model() == old(Model()).(printed := old(stream) + [value])
      ensures error == old(error)
    {
      lastPrint := value;
      printCount := (printCount + 1) % TWO_64;
      stream := stream + [value];
    }

    method SetError(e: Error) returns (r: Error)
      requires Valid()
      modifies `error
      ensures r == e && error == e
    {
      error := e;
      r := e;
    }

    // ----- memory words, a byte at a time -----

    method LoadI64(address: u64) returns (r: Error, value: i64)
      requires Valid()
      ensures r == if ValidAddress(address) then Ok else MemoryOob
      ensures r == Ok ==> value == LoadWord(memory[..], address)
    {
      value := 0;
      if address > LAST_ADDRESS {
        return MemoryOob, value;
      }
      var raw: nat := 0;
      Pow256Values();
      for i := 0 to 8
        invariant raw < Pow256(i)
        invariant raw == Value(memory[address..address + i])
      {
        var b := memory[address + i];
        raw := AppendByte(raw, b, i);
        ValueSnoc(memory[address..address + i], b);
        assert memory[address..address + i] + [b] == memory[address..address + i + 1];
      }
      assert memory[..][address..address + 8] == memory[address..address + 8];
      return Ok, ToI64(raw);
    }

    method StoreI64(address: u64, value: i64) returns (r: Error)
      requires Valid()
      modifies memory
      ensures r == if ValidAddress(address) then Ok else MemoryOob
      ensures memory[..] == if r == Ok then StoreWord(old(memory[..]), address, value) else old(memory[..])
    {
      if address > LAST_ADDRESS {
        return MemoryOob;
      }
      hide ByteOf, Written, WordBytes;
      var raw := ToU64(value);
      ghost var before, b := memory[..], WordBytes(value);
      WrittenEnds(before, address, b);
      for i := 0 to 8
        invariant memory[..] == Written(before, address, b, i)
      {
        memory[address + i] := ExtractByte(raw, i);
        WordByte(value, i);
        WrittenNext(before, address, b, i);
      }
      return Ok;
    }

    /** How a call ended, where `o` is the outcome the specification gives. */
    ghost predicate Ended(r: Error, o: Outcome, before: Error)
      requires Valid()
      reads this, regs, memory
    {
      match o
      case Next(t) => r == Ok && error == before && Model() == t
      case Stop(e, t) => r == e && error == e && Model() == t
      case Trap => false
    }

    // ----- the cases of the switch in wai_vm_step -----

    /** `regs[a] = value` with the `update_zf` that always follows it. */
    method Assign(a: byte, value: i64)
      requires Valid() && a < 8
      modifies `zf, regs
      ensures Valid() && Model() == SetReg(old(Model()), a, value)
    {
      regs[a] := value;
      zf := if value == 0 then 1 else 0;
    }

    method CheckJump(target: i64) returns (r: Error)
      requires Valid()
      modifies `error
      ensures r == if 0 <= target < |code| then Ok else BadJump
      ensures error == if r == Ok then old(error) else r
    {
      if target < 0 || ToU64(target) >= |code| {
        r := SetError(BadJump);
        return;
      }
      return Ok;
    }

    method CheckShift(shift: i64) returns (r: Error)
      requires Valid()
      modifies `error
      ensures r == if ValidShift(shift) then Ok else BadShift
      ensures error == if r == Ok then old(error) else r
    {
      if shift < 0 || shift > 63 {
        r := SetError(BadShift);
        return;
      }
      return Ok;
    }

    method PushI64(value: i64) returns (r: Error)
      requires Valid()
      modifies this, memory
      ensures Valid() && Ended(r, PushWord(old(Model()), value), old(error))
    {
      hide StoreWord;
      if sp < 8 {
        r := SetError(StackOverflow);
        return;
      }
      sp := sp - 8;
      r := StoreI64(sp, value);
      if r != Ok {
        assert false;  // sp <= 65528 here, so the store cannot fail
      }
    }

    method PopI64() returns (r: Error, value: i64)
      requires Valid()
      modifies this
      ensures Valid()
      ensures old(sp) > LAST_ADDRESS ==> Ended(r, Stop(StackUnderflow, old(Model())), old(error))
      ensures old(sp) <= LAST_ADDRESS ==>
                && Ended(r, Next(old(Model()).(sp := old(sp) + 8)), old(error))
                && value == LoadWord(old(memory[..]), old(sp))
    {
      hide LoadWord;
      value := 0;
      if sp > LAST_ADDRESS {
        r := SetError(StackUnderflow);
        return;
      }
      r, value := LoadI64(sp);
      if r != Ok {
        assert false;  // sp <= 65528 here, so the load cannot fail
      }
      sp := sp + 8;
    }

    /** The register checks of the `_IMM` and `_REG` cases of one operation,
        and the right-hand side they read. */
    method Operands(ins: Instr, src: Source) returns (r: Error, y: i64)
      requires Valid()
      modifies `error
      ensures r == if ins.a < 8 && (src == Reg ==> ins.b < 8) then Ok else BadRegister
      ensures error == if r == Ok then old(error) else r
      ensures r == Ok ==> y == Operand(Model(), src, ins)
    {
      y := ins.imm;
      if !(ins.a < 8) || (src == Reg && !(ins.b < 8)) {
        r := SetError(BadRegister);
        return;
      }
      if src == Reg {
        y := regs[ins.b];
      }
      r := Ok;
    }

    /** MOV, ADD, SUB and MUL. */
    method StepArithmetic(ins: Instr) returns (r: Error)
      requires Valid() && 1 <= ins.opcode <= 8
      requires DefinedAt(Model(), ins)
      modifies this, regs
      ensures Valid() && Ended(r, Dispatch(|code|, old(Model()), ins), old(error))
    {
      var src := if ins.opcode in {2, 4, 6, 8} then Reg else Imm;
      DispatchTo(|code|, Model(), ins,
                 Alu(if ins.opcode <= 2 then Mov else if ins.opcode <= 4 then Add else if ins.opcode <= 6 then Sub else Mul, src));
      hide Decode, Dispatch, AluValue;
      var y;
      r, y := Operands(ins, src);
      if r != Ok { return; }
      var x := regs[ins.a];
      ExactEnds(x, y);
      var value: i64;
      match ins.opcode {
        case 1 | 2 => value := y;
        case 3 | 4 => value := x + y;
        case 5 | 6 => value := x - y;
        case 7 | 8 => value := x * y;
      }
      Assign(ins.a, value);
    }

    /** DIV and MOD. */
    method StepDivision(ins: Instr) returns (r: Error)
      requires Valid() && ins.opcode in {9, 10, 29, 30}
      requires DefinedAt(Model(), ins)
      modifies this, regs
      ensures Valid() && Ended(r, Dispatch(|code|, old(Model()), ins), old(error))
    {
      var src := if ins.opcode in {10, 30} then Reg else Imm;
      DispatchTo(|code|, Model(), ins, Alu(if ins.opcode <= 10 then Div else Mod, src));
      hide Decode, Dispatch, TruncDiv, TruncMod, AluValue;
      var y;
      r, y := Operands(ins, src);
      if r != Ok { return; }
      var x := regs[ins.a];
      DivisionEnds(x, y);
      if y == 0 { r := SetError(DivZero); return; }
      var value: i64 := if ins.opcode <= 10 then TruncDiv(x, y) else TruncMod(x, y);
      Assign(ins.a, value);
    }

    /** AND, OR and XOR, on the unsigned reading. */
    method StepBitwise(ins: Instr) returns (r: Error)
      requires Valid() && 31 <= ins.opcode <= 36
      modifies this, regs
      ensures Valid() && Ended(r, Dispatch(|code|, old(Model()), ins), old(error))
    {
      hide PerformLoad, PerformStore, PerformPop, PerformCall, PerformRet, PushWord;
      hide Bitwise64;
      var y;
      var src := if ins.opcode in {32, 34, 36} then Reg else Imm;
      r, y := Operands(ins, src);
      if r != Ok { return; }
      var op := if ins.opcode <= 32 then BitAnd else if ins.opcode <= 34 then BitOr else BitXor;
      DispatchTo(|code|, Model(), ins, Alu(Bits(op), src));
      hide Decode, Dispatch;
      Assign(ins.a, ToI64(Bitwise64(op, ToU64(regs[ins.a]), ToU64(y))));
    }

    /** SHL and SHR, both on the unsigned reading. */
    method StepShift(ins: Instr) returns (r: Error)
      requires Valid() && 38 <= ins.opcode <= 41
      modifies this, regs
      ensures Valid() && Ended(r, Dispatch(|code|, old(Model()), ins), old(error))
    {
      var src := if ins.opcode in {39, 41} then Reg else Imm;
      var alu := if ins.opcode <= 39 then Shl else Shr;
      DispatchTo(|code|, Model(), ins, Alu(alu, src));
      hide Decode, Dispatch, Shl64, Shr64, AluValue;
      var y;
      r, y := Operands(ins, src);
      if r != Ok { return; }
      ShiftEnds(Model(), alu, src, ins);
      r := CheckShift(y);
      if r != Ok { return; }
      var x := ToU64(regs[ins.a]);
      var value := if ins.opcode <= 39 then Shl64(x, y) else Shr64(x, y);
      Assign(ins.a, ToI64(value));
    }

    /** NOT. */
    method StepNot(ins: Instr) returns (r: Error)
      requires Valid() && ins.opcode == 37
      modifies this, regs
      ensures Valid() && Ended(r, Dispatch(|code|, old(Model()), ins), old(error))
    {
      hide AluValue, LoadWord, StoreWord;
      assert Decode(ins.opcode) == Some(Isa.Not);
      if !(ins.a < 8) { r := SetError(BadRegister); return; }
      Assign(ins.a, ToI64(Not64(ToU64(regs[ins.a]))));
      r := Ok;
    }

    /** JZ and JNZ. */
    method StepJumpOnRegister(ins: Instr) returns (r: Error)
      requires Valid() && 12 <= ins.opcode <= 13
      modifies this
      ensures Valid() && Ended(r, Dispatch(|code|, old(Model()), ins), old(error))
    {
      assert Decode(ins.opcode) == Some(Jump(if ins.opcode == 12 then RegZero else RegNonzero));
      var a := ins.a;
      if !(a < 8) { r := SetError(BadRegister); return; }
      r := Ok;
      if (regs[a] == 0) == (ins.opcode == 12) {
        r := CheckJump(ins.imm);
        if r != Ok { return; }
        ip := ToU64(ins.imm);
      }
    }

    /** JMP, JE and JNE. */
    method StepJump(ins: Instr) returns (r: Error)
      requires Valid() && ins.opcode in {11, 26, 27}
      modifies this
      ensures Valid() && Ended(r, Dispatch(|code|, old(Model()), ins), old(error))
    {
      assert Decode(ins.opcode) ==
        Some(Jump(if ins.opcode == 11 then Always else if ins.opcode == 26 then FlagSet else FlagClear));
      r := Ok;
      if ins.opcode == 11 || (zf != 0) == (ins.opcode == 26) {
        r := CheckJump(ins.imm);
        if r != Ok { return; }
        ip := ToU64(ins.imm);
      }
    }

    /** `check_address_i64` followed by the load of the same address. */
    method LoadChecked(address: i64) returns (r: Error, value: i64)
      requires Valid()
      ensures r == if ValidAddress(address) then Ok else MemoryOob
      ensures r == Ok ==> value == LoadWord(memory[..], address)
    {
      value := 0;
      if address < 0 {
        return MemoryOob, value;
      }
      r, value := LoadI64(ToU64(address));
    }

    method StoreChecked(address: i64, value: i64) returns (r: Error)
      requires Valid()
      modifies memory
      ensures r == if ValidAddress(address) then Ok else MemoryOob
      ensures memory[..] == if r == Ok then StoreWord(old(memory[..]), address, value) else old(memory[..])
    {
      if address < 0 {
        return MemoryOob;
      }
      r := StoreI64(ToU64(address), value);
    }

    /** LOAD. */
    method StepLoad(ins: Instr) returns (r: Error)
      requires Valid() && 16 <= ins.opcode <= 17
      modifies this, regs
      ensures Valid() && Ended(r, Dispatch(|code|, old(Model()), ins), old(error))
    {
      DispatchTo(|code|, Model(), ins, Load(if ins.opcode == 17 then Reg else Imm));
      hide Decode, Dispatch, LoadWord;
      var a, b := ins.a, ins.b;
      if !(a < 8) || (ins.opcode == 17 && !(b < 8)) { r := SetError(BadRegister); return; }
      var address := if ins.opcode == 17 then regs[b] else ins.imm;
      var value;
      r, value := LoadChecked(address);
      if r != Ok { r := SetError(MemoryOob); return; }
      Assign(a, value);
    }

    /** STORE. */
    method StepStore(ins: Instr) returns (r: Error)
      requires Valid() && 18 <= ins.opcode <= 19
      modifies `error, memory
      ensures Valid() && Ended(r, Dispatch(|code|, old(Model()), ins), old(error))
    {
      DispatchTo(|code|, Model(), ins, Store(if ins.opcode == 19 then Reg else Imm));
      hide Decode, Dispatch, StoreWord;
      var a, b := ins.a, ins.b;
      if !(a < 8) || (ins.opcode == 19 && !(b < 8)) { r := SetError(BadRegister); return; }
      var address := if ins.opcode == 19 then regs[b] else ins.imm;
      r := StoreChecked(address, regs[a]);
      if r != Ok { r := SetError(MemoryOob); return; }
    }

    /** PUSH. */
    method StepPush(ins: Instr) returns (r: Error)
      requires Valid() && ins.opcode == 20
      modifies this, memory
      ensures Valid() && Ended(r, Dispatch(|code|, old(Model()), ins), old(error))
    {
      DispatchTo(|code|, Model(), ins, Push);
      hide Decode, Dispatch, PushWord;
      var a := ins.a;
      if !(a < 8) { r := SetError(BadRegister); return; }
      r := PushI64(regs[a]);
    }

    /** POP. */
    method StepPop(ins: Instr) returns (r: Error)
      requires Valid() && ins.opcode == 21
      modifies this, regs
      ensures Valid() && Ended(r, Dispatch(|code|, old(Model()), ins), old(error))
    {
      DispatchTo(|code|, Model(), ins, Pop);
      hide Decode, Dispatch, LoadWord;
      var a := ins.a;
      if !(a < 8) { r := SetError(BadRegister); return; }
      var value;
      r, value := PopI64();
      if r != Ok { return; }
      Assign(a, value);
    }

    /** CALL. */
    method StepCall(ins: Instr) returns (r: Error)
      requires Valid() && ins.opcode == 22
      modifies this, memory
      ensures Valid() && Ended(r, Dispatch(|code|, old(Model()), ins), old(error))
    {
      hide PerformAlu;
      DispatchTo(|code|, Model(), ins, Call);
      hide Decode, Dispatch, Wrap;
      hide StoreWord;
      r := CheckJump(ins.imm);
      if r != Ok { return; }
      WrapWord(ip);
      r := PushI64(ToI64(ip));
      if r != Ok { return; }
      ip := ToU64(ins.imm);
    }

    /** RET. */
    method StepRet(ins: Instr) returns (r: Error)
      requires Valid() && ins.opcode == 23
      modifies this
      ensures Valid() && Ended(r, Dispatch(|code|, old(Model()), ins), old(error))
    {
      hide PerformAlu;
      hide LoadWord;
      var value;
      r, value := PopI64();
      if r != Ok { return; }
      r := CheckJump(value);
      if r != Ok { return; }
      ip := ToU64(value);
    }

    /** PRINT, HALT, CMP and NOP. */
    method StepOther(ins: Instr) returns (r: Error)
      requires Valid() && ins.opcode in {14, 15, 24, 25, 28}
      modifies this
      ensures Valid() && Ended(r, Dispatch(|code|, old(Model()), ins), old(error))
    {
      hide PerformAlu;
      assert Decode(ins.opcode) ==
        Some(if ins.opcode == 14 then Print else if ins.opcode == 15 then Halt else if ins.opcode == 24 then Cmp(Imm)
             else if ins.opcode == 25 then Cmp(Reg) else Nop);
      hide Decode;
      var a, b := ins.a, ins.b;
      r := Ok;
      match ins.opcode {
        case 14 =>
          if !(a < 8) { r := SetError(BadRegister); return; }
          EmitPrint(regs[a]);
        case 15 => halted := 1;
        case 24 =>
          if !(a < 8) { r := SetError(BadRegister); return; }
          zf := if regs[a] == ins.imm then 1 else 0;
        case 25 =>
          if !(a < 8) || !(b < 8) { r := SetError(BadRegister); return; }
          zf := if regs[a] == regs[b] then 1 else 0;
        case 28 =>
      }
    }

    /** The switch of wai_vm_step, once ip has advanced past `ins`. */
    method Switch(ins: Instr) returns (r: Error)
      requires Valid() && DefinedAt(Model(), ins)
      modifies this, regs, memory
      ensures Valid() && Ended(r, Dispatch(|code|, old(Model()), ins), old(error))
    {
      hide Perform;
      match ins.opcode {
        case 1 | 2 | 3 | 4 | 5 | 6 | 7 | 8 => r := StepArithmetic(ins);
        case 9 | 10 | 29 | 30 => r := StepDivision(ins);
        case 11 | 26 | 27 => r := StepJump(ins);
        case 12 | 13 => r := StepJumpOnRegister(ins);
        case 14 | 15 | 24 | 25 | 28 => r := StepOther(ins);
        case 16 | 17 => r := StepLoad(ins);
        case 18 | 19 => r := StepStore(ins);
        case 20 => r := StepPush(ins);
        case 21 => r := StepPop(ins);
        case 22 => r := StepCall(ins);
        case 23 => r := StepRet(ins);
        case 31 | 32 | 33 | 34 | 35 | 36 => r := StepBitwise(ins);
        case 37 => r := StepNot(ins);
        case 38 | 39 | 40 | 41 => r := StepShift(ins);
        case _ => r := SetError(BadOpcode);
      }
    }

    method Step() returns (r: Error)
      requires Valid()
      requires StepDefined(code, Model())
      modifies this, regs, memory
      ensures Valid()
      ensures codeIsNull ==> r == Parse && error == old(error) && Model() == old(Model())
      ensures !codeIsNull ==> Ended(r, Machine.Step(code, old(Model())), old(error))
    {
      hide Dispatch;
      if codeIsNull { return Parse; }
      if halted != 0 { return Ok; }
      if ip >= |code| { r := SetError(IpOutOfBounds); return; }
      var ins := code[ip];
      ip := ip + 1;
      r := Switch(ins);
    }
  }
}
