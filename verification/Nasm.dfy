/** The NASM engine: the processor that runs `wai_vm_exec_asm`, with its raw
    64-bit registers, its host stack, and the VM object r12 points at. Each
    label of the listing is one method; a jump to an error label is the `false`
    result of a helper, a jump out of an opcode body is its `Exit`. */
module Nasm {
  import opened Words
  import opened Isa
  import opened Machine
  import opened CVm

  /** Where an opcode body jumps: `.loop`, `.ok_return`, `.error_return`, or
      nowhere, when `idiv` raises the divide fault. */
  datatype Exit = Resume | OkReturn | ErrorReturn | DivideFault

  // ----- processor arithmetic -----

  predicate Negative(x: u64) {
    x >= TWO_63
  }

  function Add64(x: u64, y: u64): u64 {
    (x + y) % TWO_64
  }

  function Sub64(x: u64, y: u64): u64 {
    (x - y) % TWO_64
  }

  function Imul64(x: u64, y: u64): u64 {
    (ToI64(x) * ToI64(y)) % TWO_64
  }

  /** `idiv` on rdx:rax: quotient and remainder, or the divide fault. */
  function Idiv(rdx: u64, rax: u64, divisor: u64): (r: Option<(u64, u64)>)
    requires divisor != 0
  {
    var dividend := ToI64(rdx) * TWO_64 + rax;
    var q := TruncDiv(dividend, ToI64(divisor));
    var m := TruncMod(dividend, ToI64(divisor));
    TruncDivMod(dividend, ToI64(divisor));
    if Fits(q) then Some((ToU64(q), ToU64(m))) else None
  }

  lemma AddWraps(x: i64, y: i64)
    ensures ToI64(Add64(ToU64(x), ToU64(y))) == Wrap(x + y)
  {
    var k := (if x < 0 then 1 else 0) + (if y < 0 then 1 else 0);
    ModShift(x + y, k);
  }

  lemma SubWraps(x: i64, y: i64)
    ensures ToI64(Sub64(ToU64(x), ToU64(y))) == Wrap(x - y)
  {
    var k := (if x < 0 then 1 else 0) - (if y < 0 then 1 else 0);
    ModShift(x - y, k);
  }

  /** After `cqo` the 128-bit dividend is the signed value of rax. */
  lemma CqoIdiv(x: i64, y: i64)
    requires y != 0
    ensures var rdx := if x < 0 then TWO_64 - 1 else 0;
            Idiv(rdx, ToU64(x), ToU64(y)) ==
              if Fits(TruncDiv(x, y)) then TruncDivFits(x, y); Some((ToU64(TruncDiv(x, y)), ToU64(TruncMod(x, y))))
              else None
  {
    TruncDivFits(x, y);
  }

  lemma LowByte(rcx: u64, rbx: u64)
    ensures 0 <= rcx / 256 * 256 + rbx % 256 < TWO_64
    ensures rbx <= 63 ==> (rcx / 256 * 256 + rbx % 256) % 64 == rbx
  {
    var q, r := Quotient(rcx, 256);
    if rbx <= 63 {
      RemainderIs(q * 256 + rbx, 64, 4 * q, rbx);
    }
  }

  lemma NoCarry(x: u64)
    ensures x % TWO_64 == x
  {
  }

  /** `lea r14, [rax + rax * 2]`, `shl r14, 2`, `add r13, r14` reach record
      `ip` of a code array that fits the address space. */
  lemma RecordAddress(base: u64, ip: u64, count: nat)
    requires base + 12 * count <= TWO_64 && ip < count
    ensures Add64(base, Shl64(Add64(ip, Add64(ip, ip)), 2)) == base + 12 * ip
    ensures (12 * ip) % 12 == 0 && 12 * ip / 12 == ip
    ensures Add64(ip, 1) == ip + 1
  {
    NoCarry(ip + 1);
    NoCarry(2 * ip);
    NoCarry(3 * ip);
    NoCarry(6 * ip);
    NoCarry(12 * ip);
    NoCarry(base + 12 * ip);
    assert Shl64(3 * ip, 2) == Shl64(6 * ip, 1);
  }

  lemma StackDecodes(opcode: byte)
    ensures opcode == 20 ==> Decode(opcode) == Some(Push)
    ensures opcode == 21 ==> Decode(opcode) == Some(Pop)
    ensures opcode == 22 ==> Decode(opcode) == Some(Call)
    ensures opcode == 23 ==> Decode(opcode) == Some(Ret)
  {
  }

  lemma ShiftDecodes(opcode: byte)
    ensures opcode == 37 ==> Decode(opcode) == Some(Isa.Not)
    ensures opcode == 38 ==> Decode(opcode) == Some(Alu(Shl, Imm))
    ensures opcode == 39 ==> Decode(opcode) == Some(Alu(Shl, Reg))
    ensures opcode == 40 ==> Decode(opcode) == Some(Alu(Shr, Imm))
    ensures opcode == 41 ==> Decode(opcode) == Some(Alu(Shr, Reg))
  {
  }

  lemma CompareDecodes(opcode: byte)
    ensures opcode == 24 ==> Decode(opcode) == Some(Cmp(Imm))
    ensures opcode == 25 ==> Decode(opcode) == Some(Cmp(Reg))
    ensures opcode == 26 ==> Decode(opcode) == Some(Jump(FlagSet))
    ensures opcode == 27 ==> Decode(opcode) == Some(Jump(FlagClear))
    ensures opcode == 28 ==> Decode(opcode) == Some(Nop)
  {
  }

  lemma BitwiseDecodes(opcode: byte)
    requires 31 <= opcode <= 36
    ensures Decode(opcode) == Some(Alu(Bits(if opcode <= 32 then BitAnd else if opcode <= 34 then BitOr else BitXor),
                                       if opcode % 2 == 1 then Imm else Reg))
  {
  }

  /** A pop takes the k-th saved word off the top. */
  lemma Unwound(below: seq<u64>, saved: seq<u64>, k: nat)
    requires 0 < k <= |saved|
    ensures var host := below + saved[..k];
      host[|host| - 1] == saved[k - 1] && host[..|host| - 1] == below + saved[..k - 1]
  {
  }

  class Cpu {
    const vm: Vm
    const vmAddress: u64
    const codeAddress: u64
    const entryRsp: u64
    var rax: u64
    var rbx: u64
    var rcx: u64
    var rdx: u64
    var rsi: u64
    var rdi: u64
    var rbp: u64
    var rsp: u64
    var r12: u64
    var r13: u64
    var r14: u64
    var r15: u64
    var host: seq<u64>

    /** The caller's view at the call: rdi is the VM pointer and the return
        address is on the stack. */
    constructor (vm: Vm, vmAddress: u64, codeAddress: u64, rsp: u64)
      requires vm.Valid() && codeAddress + 12 * |vm.code| <= TWO_64
      requires rsp % 16 == 8 && 256 <= rsp < TWO_64 - 64
      ensures this.vm == vm && this.vmAddress == vmAddress && this.codeAddress == codeAddress
      ensures entryRsp == this.rsp == rsp && rdi == vmAddress && |host| == 1 && Aligned()
    {
      this.vm, this.vmAddress, this.codeAddress, entryRsp := vm, vmAddress, codeAddress, rsp;
      rax, rbx, rcx, rdx, rsi, rdi, rbp := *, *, *, *, *, vmAddress, *;
      r12, r13, r14, r15 := *, *, *, *;
      this.rsp := rsp;
      host := [0];
    }

    /** The machine at `.loop` or inside an opcode body: r12 holds the VM, the
        packed code fits the address space, and rsp is where the six pushes of
        the prologue leave it. */
    ghost predicate Ready()
      reads `r12, `rsp, vm, vm.regs, vm.memory
    {
      && vm.Valid()
      && r12 == vmAddress
      && codeAddress + 12 * |vm.code| <= TWO_64
      && rsp == entryRsp - 48 && 256 <= entryRsp < TWO_64 - 64
    }

    /** Section 3.2.2 of the System V AMD64 ABI: the stack is 16-byte aligned
        before a call, so rsp is 8 modulo 16 once the return address is on it. */
    ghost predicate Aligned() {
      entryRsp % 16 == 8
    }

    predicate IsRecord(address: u64) {
      && codeAddress <= address
      && (address - codeAddress) % 12 == 0
      && (address - codeAddress) / 12 < |vm.code|
    }

    /** The packed 12-byte record at `address`. */
    function At(address: u64): Instr
      requires IsRecord(address)
    {
      vm.code[(address - codeAddress) / 12]
    }

    /** Control has reached `exit` with the VM as outcome `o` says. */
    ghost predicate Lands(exit: Exit, o: Outcome, before: Error)
      requires vm.Valid()
      reads vm, vm.regs, vm.memory
    {
      match o
      case Next(t) =>
        && vm.Model() == t
        && (if t.halted then exit == OkReturn && vm.error == Ok else exit == Resume && vm.error == before)
      case Stop(e, t) => exit == ErrorReturn && vm.error == e && vm.Model() == t
      case Trap => exit == DivideFault
    }

    /** Nothing below the caller's frame moved: the body left the host stack,
        rsp, rbp and r12 as it found them. */
    ghost predicate Balanced(rsp0: u64, rbp0: u64, host0: seq<u64>)
      reads this, vm, vm.regs, vm.memory
    {
      Ready() && rsp == rsp0 && rbp == rbp0 && host == host0
    }

    // ----- host stack -----

    method PushQ(x: u64)
      requires rsp >= 8
      modifies `rsp, `host
      ensures rsp == old(rsp) - 8 && host == old(host) + [x]
    {
      rsp := rsp - 8;
      host := host + [x];
    }

    method PopQ() returns (x: u64)
      requires host != [] && rsp < TWO_64 - 8
      modifies `rsp, `host
      ensures rsp == old(rsp) + 8 && host == old(host)[..|old(host)| - 1] && x == old(host)[|old(host)| - 1]
    {
      x := host[|host| - 1];
      host := host[..|host| - 1];
      rsp := rsp + 8;
    }

    /** `ret`: the caller resumes at `site` only if that is what is on top. */
    method Ret(ghost site: u64)
      requires host != [] && rsp < TWO_64 - 8 && host[|host| - 1] == site
      modifies `rsp, `host
      ensures rsp == old(rsp) + 8 && host == old(host)[..|old(host)| - 1]
    {
      var target := PopQ();
      assert target == site;
    }

    /** An error label reached inside a helper: `add rsp, 8` discards the
        helper's return address before the code is recorded. */
    method FailInHelper(e: Error)
      requires host != [] && rsp < TWO_64 - 8
      modifies `rsp, `host, vm`error
      ensures rsp == old(rsp) + 8 && host == old(host)[..|old(host)| - 1]
      ensures vm.error == e
    {
      rsp := rsp + 8;
      host := host[..|host| - 1];
      vm.error := e;
    }

    // ----- helpers -----

    method LoadRegAIndex(site: u64) returns (ok: bool)
      requires Ready() && IsRecord(r13)
      modifies `rax, `rsp, `host, vm`error
      ensures Balanced(old(rsp), old(rbp), old(host))
      ensures vm.Model() == old(vm.Model())
      ensures ok == (At(r13).a < 8)
      ensures ok ==> rax == At(r13).a
      ensures vm.error == if ok then old(vm.error) else BadRegister
    {
      PushQ(site);
      rax := At(r13).a;
      if rax % 256 > 7 {
        FailInHelper(BadRegister);
        return false;
      }
      Ret(site);
      return true;
    }

    method LoadRegBIndex(site: u64) returns (ok: bool)
      requires Ready() && IsRecord(r13)
      modifies `rax, `rsp, `host, vm`error
      ensures Balanced(old(rsp), old(rbp), old(host))
      ensures vm.Model() == old(vm.Model())
      ensures ok == (At(r13).b < 8)
      ensures ok ==> rax == At(r13).b
      ensures vm.error == if ok then old(vm.error) else BadRegister
    {
      PushQ(site);
      rax := At(r13).b;
      if rax % 256 > 7 {
        FailInHelper(BadRegister);
        return false;
      }
      Ret(site);
      return true;
    }

    method SetZfFromRax(site: u64)
      requires Ready()
      modifies `rsp, `host, vm`zf
      ensures host == old(host) && rsp == old(rsp)
      ensures vm.zf == if rax == 0 then 1 else 0
    {
      PushQ(site);
      vm.zf := if rax == 0 then 1 else 0;
      Ret(site);
    }

    method CheckJumpImm(site: u64) returns (ok: bool)
      requires Ready() && IsRecord(r13)
      modifies `rax, `rbx, `rsp, `host, vm`error
      ensures Balanced(old(rsp), old(rbp), old(host))
      ensures vm.Model() == old(vm.Model())
      ensures ok == (0 <= At(r13).imm < |vm.code|)
      ensures ok ==> rax == At(r13).imm
      ensures vm.error == if ok then old(vm.error) else BadJump
    {
      PushQ(site);
      rax := ToU64(At(r13).imm);
      if Negative(rax) {
        FailInHelper(BadJump);
        return false;
      }
      rbx := |vm.code|;
      if rax >= rbx {
        FailInHelper(BadJump);
        return false;
      }
      Ret(site);
      return true;
    }

    /** No sign test: a negative target is a huge unsigned one. */
    method CheckJumpRax(site: u64) returns (ok: bool)
      requires Ready() && IsRecord(r13)
      modifies `rbx, `rsp, `host, vm`error
      ensures Balanced(old(rsp), old(rbp), old(host))
      ensures vm.Model() == old(vm.Model())
      ensures ok == (0 <= ToI64(rax) < |vm.code|)
      ensures vm.error == if ok then old(vm.error) else BadJump
    {
      PushQ(site);
      rbx := |vm.code|;
      if rax >= rbx {
        FailInHelper(BadJump);
        return false;
      }
      Ret(site);
      return true;
    }

    method CheckMemAddrRbx(site: u64) returns (ok: bool)
      requires Ready() && IsRecord(r13)
      modifies `rsp, `host, vm`error
      ensures Balanced(old(rsp), old(rbp), old(host))
      ensures vm.Model() == old(vm.Model())
      ensures ok == ValidAddress(ToI64(rbx))
      ensures vm.error == if ok then old(vm.error) else MemoryOob
    {
      PushQ(site);
      if Negative(rbx) {
        FailInHelper(MemoryOob);
        return false;
      }
      if rbx > 65536 - 8 {
        FailInHelper(MemoryOob);
        return false;
      }
      Ret(site);
      return true;
    }

    method CheckShiftRbx(site: u64) returns (ok: bool)
      requires Ready() && IsRecord(r13)
      modifies `rsp, `host, vm`error
      ensures Balanced(old(rsp), old(rbp), old(host))
      ensures vm.Model() == old(vm.Model())
      ensures ok == ValidShift(ToI64(rbx))
      ensures vm.error == if ok then old(vm.error) else BadShift
    {
      PushQ(site);
      if Negative(rbx) {
        FailInHelper(BadShift);
        return false;
      }
      if rbx > 63 {
        FailInHelper(BadShift);
        return false;
      }
      Ret(site);
      return true;
    }

    /** The count a shift by cl uses: the processor masks it to six bits. */
    function Count(): nat
      reads `rcx
    {
      rcx % 64
    }

    /** `.check_shift_rbx` and `mov cl, bl`, which replaces one byte of rcx. */
    method LoadCount(site: u64) returns (ok: bool)
      requires Ready() && IsRecord(r13)
      modifies `rcx, `rsp, `host, vm`error
      ensures Balanced(old(rsp), old(rbp), old(host))
      ensures vm.Model() == old(vm.Model())
      ensures ok == ValidShift(ToI64(rbx))
      ensures ok ==> Count() == ToI64(rbx)
      ensures vm.error == if ok then old(vm.error) else BadShift
    {
      ok := CheckShiftRbx(site);
      if !ok { return; }
      LowByte(rcx, rbx);
      rcx := rcx / 256 * 256 + rbx % 256;
    }

    /** `mov rax, [r12 + VM_MEMORY + address]` */
    function ReadWord(address: u64): (x: u64)
      requires vm.Valid() && ValidAddress(address)
      reads vm, vm.regs, vm.memory
      ensures ToI64(x) == LoadWord(vm.memory[..], address)
    {
      assert vm.memory[..][address..address + 8] == vm.memory[address..address + 8];
      Pow256Values();
      Value(vm.memory[address..address + 8])
    }

    /** `mov [r12 + VM_MEMORY + address], x`: eight bytes at once. */
    method WriteWord(address: u64, x: u64)
      requires vm.Valid() && ValidAddress(address)
      modifies vm.memory
      ensures vm.Valid()
      ensures vm.Model() == old(vm.Model()).(memory := StoreWord(old(vm.memory[..]), address, ToI64(x)))
      ensures vm.memory[..] == StoreWord(old(vm.memory[..]), address, ToI64(x))
    {
      var b := Bytes(x, 8);
      forall i | 0 <= i < 8 {
        vm.memory[address + i] := b[i];
      }
      assert WordBytes(ToI64(x)) == b;
    }

    method PushRax(site: u64) returns (ok: bool)
      requires Ready()
      modifies `rbx, `rsp, `host, vm`error, vm`sp, vm.memory
      ensures Balanced(old(rsp), old(rbp), old(host))
      ensures ok == PushWord(old(vm.Model()), ToI64(rax)).Next?
      ensures vm.Model() == PushWord(old(vm.Model()), ToI64(rax)).s
      ensures vm.error == if ok then old(vm.error) else StackOverflow
    {
      hide StoreWord;
      PushQ(site);
      rbx := vm.sp;
      if rbx < 8 {
        FailInHelper(StackOverflow);
        return false;
      }
      rbx := Sub64(rbx, 8);
      vm.sp := rbx;
      WriteWord(rbx, rax);
      Ret(site);
      return true;
    }

    method PopRax(site: u64) returns (ok: bool)
      requires Ready()
      modifies `rax, `rbx, `rsp, `host, vm`error, vm`sp
      ensures Balanced(old(rsp), old(rbp), old(host))
      ensures ok == (old(vm.sp) <= LAST_ADDRESS)
      ensures vm.error == if ok then old(vm.error) else StackUnderflow
      ensures vm.Model() == if ok then old(vm.Model()).(sp := old(vm.sp) + 8) else old(vm.Model())
      ensures ok ==> ToI64(rax) == LoadWord(old(vm.memory[..]), old(vm.sp))
    {
      hide LoadWord, ReadWord;
      PushQ(site);
      rbx := vm.sp;
      if rbx > 65536 - 8 {
        FailInHelper(StackUnderflow);
        return false;
      }
      rax := ReadWord(rbx);
      rbx := Add64(rbx, 8);
      vm.sp := rbx;
      Ret(site);
      return true;
    }

    /** The opening of every two-register body: `.load_reg_a_index` into r14,
        then `.load_reg_b_index` into rax. */
    method LoadBoth(siteA: u64, siteB: u64) returns (ok: bool)
      requires Ready() && IsRecord(r13)
      modifies `rax, `r14, `rsp, `host, vm`error
      ensures Balanced(old(rsp), old(rbp), old(host))
      ensures vm.Model() == old(vm.Model())
      ensures ok == (At(r13).a < 8 && At(r13).b < 8)
      ensures ok ==> r14 == At(r13).a && rax == At(r13).b
      ensures vm.error == if ok then old(vm.error) else BadRegister
    {
      ok := LoadRegAIndex(siteA);
      if !ok { return; }
      r14 := rax;
      ok := LoadRegBIndex(siteB);
    }

    /** The opening of the shifts by immediate: the register index in r14, the
        count in cl. */
    method LoadShiftImm(siteA: u64, siteCount: u64) returns (ok: bool)
      requires Ready() && IsRecord(r13)
      modifies `rax, `rbx, `rcx, `r14, `rsp, `host, vm`error
      ensures Balanced(old(rsp), old(rbp), old(host))
      ensures vm.Model() == old(vm.Model())
      ensures ok == (At(r13).a < 8 && ValidShift(At(r13).imm))
      ensures ok ==> r14 == At(r13).a && Count() == At(r13).imm
      ensures vm.error == if ok then old(vm.error) else if At(r13).a < 8 then BadShift else BadRegister
    {
      hide IsRecord, At, Count;
      ok := LoadRegAIndex(siteA);
      if !ok { return; }
      r14 := rax;
      rbx := ToU64(At(r13).imm);
      ok := LoadCount(siteCount);
    }

    /** The opening of the shifts by register. */
    method LoadShiftReg(siteA: u64, siteB: u64, siteCount: u64) returns (ok: bool)
      requires Ready() && IsRecord(r13)
      modifies `rax, `rbx, `rcx, `r14, `rsp, `host, vm`error
      ensures Balanced(old(rsp), old(rbp), old(host))
      ensures vm.Model() == old(vm.Model())
      ensures ok == (At(r13).a < 8 && At(r13).b < 8 && ValidShift(vm.Model().regs[At(r13).b]))
      ensures ok ==> r14 == At(r13).a && Count() == vm.Model().regs[At(r13).b]
      ensures vm.error == if ok then old(vm.error) else if At(r13).a < 8 && At(r13).b < 8 then BadShift else BadRegister
    {
      hide IsRecord, At, Count;
      ok := LoadBoth(siteA, siteB);
      if !ok { return; }
      rbx := ToU64(vm.regs[rax]);
      ok := LoadCount(siteCount);
    }

    /** The opening of load and store by address: the register index in r14,
        the checked address in rbx. */
    method LoadAddressImm(siteA: u64, siteCheck: u64) returns (ok: bool)
      requires Ready() && IsRecord(r13)
      modifies `rax, `rbx, `r14, `rsp, `host, vm`error
      ensures Balanced(old(rsp), old(rbp), old(host))
      ensures vm.Model() == old(vm.Model())
      ensures ok == (At(r13).a < 8 && ValidAddress(At(r13).imm))
      ensures ok ==> r14 == At(r13).a && rbx == At(r13).imm
      ensures vm.error == if ok then old(vm.error) else if At(r13).a < 8 then MemoryOob else BadRegister
    {
      hide IsRecord, At;
      ok := LoadRegAIndex(siteA);
      if !ok { return; }
      r14 := rax;
      rbx := ToU64(At(r13).imm);
      ok := CheckMemAddrRbx(siteCheck);
    }

    /** The opening of load and store through a register. */
    method LoadAddressReg(siteA: u64, siteB: u64, siteCheck: u64) returns (ok: bool)
      requires Ready() && IsRecord(r13)
      modifies `rax, `rbx, `r14, `rsp, `host, vm`error
      ensures Balanced(old(rsp), old(rbp), old(host))
      ensures vm.Model() == old(vm.Model())
      ensures ok == (At(r13).a < 8 && At(r13).b < 8 && ValidAddress(vm.Model().regs[At(r13).b]))
      ensures ok ==> r14 == At(r13).a && rbx == vm.Model().regs[At(r13).b]
      ensures vm.error == if ok then old(vm.error) else if At(r13).a < 8 && At(r13).b < 8 then MemoryOob else BadRegister
    {
      hide IsRecord, At;
      ok := LoadBoth(siteA, siteB);
      if !ok { return; }
      rbx := ToU64(vm.regs[rax]);
      ok := CheckMemAddrRbx(siteCheck);
    }

    /** `mov [r12 + VM_REGS + r14 * 8], rax` and `call .set_zf_from_rax`, the
        end of every body that computes a register. */
    method Finish(site: u64) returns (exit: Exit)
      requires Ready() && r14 < 8 && vm.halted == 0
      modifies `rsp, `host, vm`zf, vm.regs
      ensures Balanced(old(rsp), old(rbp), old(host))
      ensures Lands(exit, Next(SetReg(old(vm.Model()), r14, ToI64(rax))), old(vm.error))
    {
      vm.regs[r14] := ToI64(rax);
      SetZfFromRax(site);
      return Resume;
    }

    /** The same end, where rax holds the value operation `alu` computes. */
    method FinishAlu(site: u64, ghost alu: AluOp, ghost src: Source) returns (exit: Exit)
      requires Ready() && IsRecord(r13) && vm.halted == 0
      requires RegistersOk(Alu(alu, src), At(r13)) && r14 == At(r13).a
      requires AluValue(alu, vm.regs[r14], Operand(vm.Model(), src, At(r13))) == Computed(ToI64(rax))
      modifies `rsp, `host, vm`zf, vm.regs
      ensures Balanced(old(rsp), old(rbp), old(host))
      ensures Lands(exit, PerformAlu(old(vm.Model()), alu, src, At(r13)), old(vm.error))
    {
      exit := Finish(site);
    }

    // ----- instructions -----

    method OpMovImm() returns (exit: Exit)
      requires Ready() && IsRecord(r13) && vm.halted == 0
      modifies this, vm, vm.regs
      ensures Balanced(old(rsp), old(rbp), old(host))
      ensures Lands(exit,
                if RegistersOk(Alu(Mov, Imm), At(old(r13))) then PerformAlu(old(vm.Model()), Mov, Imm, At(old(r13)))
                else Stop(BadRegister, old(vm.Model())), old(vm.error))
    {
      hide IsRecord, At, TruncDiv, TruncMod, Shl64, Shr64, Bitwise64;
      var ok := LoadRegAIndex(271);
      if !ok { return ErrorReturn; }
      rdx := ToU64(At(r13).imm);
      vm.regs[rax] := ToI64(rdx);
      rax := rdx;
      SetZfFromRax(275);
      return Resume;
    }

    method OpMovReg() returns (exit: Exit)
      requires Ready() && IsRecord(r13) && vm.halted == 0
      modifies this, vm, vm.regs
      ensures Balanced(old(rsp), old(rbp), old(host))
      ensures Lands(exit,
                if RegistersOk(Alu(Mov, Reg), At(old(r13))) then PerformAlu(old(vm.Model()), Mov, Reg, At(old(r13)))
                else Stop(BadRegister, old(vm.Model())), old(vm.error))
    {
      hide IsRecord, At, TruncDiv, TruncMod, Shl64, Shr64, Bitwise64;
      var ok := LoadBoth(279, 281);
      if !ok { return ErrorReturn; }
      rdx := ToU64(vm.regs[rax]);
      rax := rdx;
      exit := FinishAlu(285, Mov, Reg);
    }

    method OpAddImm() returns (exit: Exit)
      requires Ready() && IsRecord(r13) && vm.halted == 0
      modifies this, vm, vm.regs
      ensures Balanced(old(rsp), old(rbp), old(host))
      ensures Lands(exit,
                if RegistersOk(Alu(Add, Imm), At(old(r13))) then PerformAlu(old(vm.Model()), Add, Imm, At(old(r13)))
                else Stop(BadRegister, old(vm.Model())), old(vm.error))
    {
      hide IsRecord, At, TruncDiv, TruncMod, Shl64, Shr64, Wrap, Bitwise64, Add64;
      var ok := LoadRegAIndex(289);
      if !ok { return ErrorReturn; }
      r14 := rax;
      rdx := ToU64(vm.regs[r14]);
      AddWraps(vm.regs[r14], At(r13).imm);
      rdx := Add64(rdx, ToU64(At(r13).imm));
      rax := rdx;
      exit := FinishAlu(295, Add, Imm);
    }

    method OpAddReg() returns (exit: Exit)
      requires Ready() && IsRecord(r13) && vm.halted == 0
      modifies this, vm, vm.regs
      ensures Balanced(old(rsp), old(rbp), old(host))
      ensures Lands(exit,
                if RegistersOk(Alu(Add, Reg), At(old(r13))) then PerformAlu(old(vm.Model()), Add, Reg, At(old(r13)))
                else Stop(BadRegister, old(vm.Model())), old(vm.error))
    {
      hide IsRecord, At, TruncDiv, TruncMod, Shl64, Shr64, Wrap, Bitwise64, Add64;
      var ok := LoadBoth(299, 301);
      if !ok { return ErrorReturn; }
      rdx := ToU64(vm.regs[r14]);
      AddWraps(vm.regs[r14], vm.regs[rax]);
      rdx := Add64(rdx, ToU64(vm.regs[rax]));
      rax := rdx;
      exit := FinishAlu(306, Add, Reg);
    }

    method OpSubImm() returns (exit: Exit)
      requires Ready() && IsRecord(r13) && vm.halted == 0
      modifies this, vm, vm.regs
      ensures Balanced(old(rsp), old(rbp), old(host))
      ensures Lands(exit,
                if RegistersOk(Alu(Sub, Imm), At(old(r13))) then PerformAlu(old(vm.Model()), Sub, Imm, At(old(r13)))
                else Stop(BadRegister, old(vm.Model())), old(vm.error))
    {
      hide IsRecord, At, TruncDiv, TruncMod, Shl64, Shr64, Wrap, Bitwise64, Sub64;
      var ok := LoadRegAIndex(310);
      if !ok { return ErrorReturn; }
      r14 := rax;
      rdx := ToU64(vm.regs[r14]);
      SubWraps(vm.regs[r14], At(r13).imm);
      rdx := Sub64(rdx, ToU64(At(r13).imm));
      rax := rdx;
      exit := FinishAlu(316, Sub, Imm);
    }

    method OpSubReg() returns (exit: Exit)
      requires Ready() && IsRecord(r13) && vm.halted == 0
      modifies this, vm, vm.regs
      ensures Balanced(old(rsp), old(rbp), old(host))
      ensures Lands(exit,
                if RegistersOk(Alu(Sub, Reg), At(old(r13))) then PerformAlu(old(vm.Model()), Sub, Reg, At(old(r13)))
                else Stop(BadRegister, old(vm.Model())), old(vm.error))
    {
      hide IsRecord, At, TruncDiv, TruncMod, Shl64, Shr64, Wrap, Bitwise64, Sub64;
      var ok := LoadBoth(320, 322);
      if !ok { return ErrorReturn; }
      rdx := ToU64(vm.regs[r14]);
      SubWraps(vm.regs[r14], vm.regs[rax]);
      rdx := Sub64(rdx, ToU64(vm.regs[rax]));
      rax := rdx;
      exit := FinishAlu(327, Sub, Reg);
    }

    method OpMulImm() returns (exit: Exit)
      requires Ready() && IsRecord(r13) && vm.halted == 0
      modifies this, vm, vm.regs
      ensures Balanced(old(rsp), old(rbp), old(host))
      ensures Lands(exit,
                if RegistersOk(Alu(Mul, Imm), At(old(r13))) then PerformAlu(old(vm.Model()), Mul, Imm, At(old(r13)))
                else Stop(BadRegister, old(vm.Model())), old(vm.error))
    {
      hide IsRecord, At, TruncDiv, TruncMod, Shl64, Shr64, Bitwise64;
      var ok := LoadRegAIndex(331);
      if !ok { return ErrorReturn; }
      r14 := rax;
      rax := ToU64(vm.regs[r14]);
      rax := Imul64(rax, ToU64(At(r13).imm));
      exit := FinishAlu(336, Mul, Imm);
    }

    method OpMulReg() returns (exit: Exit)
      requires Ready() && IsRecord(r13) && vm.halted == 0
      modifies this, vm, vm.regs
      ensures Balanced(old(rsp), old(rbp), old(host))
      ensures Lands(exit,
                if RegistersOk(Alu(Mul, Reg), At(old(r13))) then PerformAlu(old(vm.Model()), Mul, Reg, At(old(r13)))
                else Stop(BadRegister, old(vm.Model())), old(vm.error))
    {
      hide IsRecord, At, TruncDiv, TruncMod, Shl64, Shr64, Bitwise64;
      var ok := LoadBoth(340, 342);
      if !ok { return ErrorReturn; }
      rdx := ToU64(vm.regs[rax]);
      rax := ToU64(vm.regs[r14]);
      rax := Imul64(rax, rdx);
      exit := FinishAlu(347, Mul, Reg);
    }

    ghost function DivideResult(exit: Exit, x: u64): AluResult {
      match exit
      case ErrorReturn => Fault(DivZero)
      case DivideFault => Overflowed
      case _ => Computed(ToI64(x))
    }

    /** How a division of x by y has come out. */
    ghost predicate Divided(exit: Exit, x: i64, y: i64, before: Error)
      reads `rax, `rdx, vm`error
    {
      && exit != OkReturn
      && (exit == ErrorReturn ==> vm.error == DivZero)
      && (exit == Resume ==> vm.error == before)
      && AluValue(Div, x, y) == DivideResult(exit, rax)
      && AluValue(Mod, x, y) == DivideResult(exit, rdx)
    }

    /** The middle of the four division bodies, from `test rbx, rbx` to
        `idiv rbx`: quotient in rax, remainder in rdx. */
    method Divide() returns (exit: Exit)
      requires Ready() && IsRecord(r13) && vm.halted == 0 && r14 < 8
      modifies `rax, `rdx, vm`error
      ensures Balanced(old(rsp), old(rbp), old(host))
      ensures vm.Model() == old(vm.Model())
      ensures Divided(exit, vm.regs[r14], ToI64(rbx), old(vm.error))
    {
      hide TruncDiv, TruncMod, Idiv, AluValue, IsRecord, At;
      DivisionEnds(vm.regs[r14], ToI64(rbx));
      if rbx == 0 {
        vm.error := DivZero;
        return ErrorReturn;
      }
      rax := ToU64(vm.regs[r14]);
      rdx := if Negative(rax) then TWO_64 - 1 else 0;
      CqoIdiv(vm.regs[r14], ToI64(rbx));
      var result := Idiv(rdx, rax, rbx);
      if result == None { return DivideFault; }
      rax, rdx := result.value.0, result.value.1;
      return Resume;
    }

    /** The four division bodies up to the store of their result. */
    method DivideImm(siteA: u64) returns (exit: Exit)
      requires Ready() && IsRecord(r13) && vm.halted == 0
      modifies `rax, `rbx, `rdx, `r14, `rsp, `host, vm`error
      ensures Balanced(old(rsp), old(rbp), old(host))
      ensures vm.Model() == old(vm.Model())
      ensures At(r13).a >= 8 ==> exit == ErrorReturn && vm.error == BadRegister
      ensures At(r13).a < 8 ==> Divided(exit, vm.Model().regs[At(r13).a], At(r13).imm, old(vm.error))
      ensures exit == Resume ==> r14 == At(r13).a
    {
      hide TruncDiv, TruncMod, AluValue, IsRecord, At;
      var ok := LoadRegAIndex(siteA);
      if !ok { return ErrorReturn; }
      r14 := rax;
      rbx := ToU64(At(r13).imm);
      exit := Divide();
    }

    method DivideReg(siteA: u64, siteB: u64) returns (exit: Exit)
      requires Ready() && IsRecord(r13) && vm.halted == 0
      modifies `rax, `rbx, `rdx, `r14, `rsp, `host, vm`error
      ensures Balanced(old(rsp), old(rbp), old(host))
      ensures vm.Model() == old(vm.Model())
      ensures !(At(r13).a < 8 && At(r13).b < 8) ==> exit == ErrorReturn && vm.error == BadRegister
      ensures At(r13).a < 8 && At(r13).b < 8 ==>
        Divided(exit, vm.Model().regs[At(r13).a], vm.Model().regs[At(r13).b], old(vm.error))
      ensures exit == Resume ==> r14 == At(r13).a
    {
      hide TruncDiv, TruncMod, AluValue, IsRecord, At;
      var ok := LoadBoth(siteA, siteB);
      if !ok { return ErrorReturn; }
      rbx := ToU64(vm.regs[rax]);
      exit := Divide();
    }

    method OpDivImm() returns (exit: Exit)
      requires Ready() && IsRecord(r13) && vm.halted == 0
      modifies this, vm, vm.regs
      ensures Balanced(old(rsp), old(rbp), old(host))
      ensures Lands(exit,
                if RegistersOk(Alu(Div, Imm), At(old(r13))) then PerformAlu(old(vm.Model()), Div, Imm, At(old(r13)))
                else Stop(BadRegister, old(vm.Model())), old(vm.error))
    {
      hide TruncDiv, TruncMod, AluValue, IsRecord, At;
      exit := DivideImm(351);
      if exit != Resume { return; }
      exit := FinishAlu(360, Div, Imm);
    }

    method OpDivReg() returns (exit: Exit)
      requires Ready() && IsRecord(r13) && vm.halted == 0
      modifies this, vm, vm.regs
      ensures Balanced(old(rsp), old(rbp), old(host))
      ensures Lands(exit,
                if RegistersOk(Alu(Div, Reg), At(old(r13))) then PerformAlu(old(vm.Model()), Div, Reg, At(old(r13)))
                else Stop(BadRegister, old(vm.Model())), old(vm.error))
    {
      hide TruncDiv, TruncMod, AluValue, IsRecord, At;
      exit := DivideReg(364, 366);
      if exit != Resume { return; }
      exit := FinishAlu(374, Div, Reg);
    }

    method OpModImm() returns (exit: Exit)
      requires Ready() && IsRecord(r13) && vm.halted == 0
      modifies this, vm, vm.regs
      ensures Balanced(old(rsp), old(rbp), old(host))
      ensures Lands(exit,
                if RegistersOk(Alu(Mod, Imm), At(old(r13))) then PerformAlu(old(vm.Model()), Mod, Imm, At(old(r13)))
                else Stop(BadRegister, old(vm.Model())), old(vm.error))
    {
      hide TruncDiv, TruncMod, AluValue, IsRecord, At;
      exit := DivideImm(378);
      if exit != Resume { return; }
      rax := rdx;
      exit := FinishAlu(388, Mod, Imm);
    }

    method OpModReg() returns (exit: Exit)
      requires Ready() && IsRecord(r13) && vm.halted == 0
      modifies this, vm, vm.regs
      ensures Balanced(old(rsp), old(rbp), old(host))
      ensures Lands(exit,
                if RegistersOk(Alu(Mod, Reg), At(old(r13))) then PerformAlu(old(vm.Model()), Mod, Reg, At(old(r13)))
                else Stop(BadRegister, old(vm.Model())), old(vm.error))
    {
      hide TruncDiv, TruncMod, AluValue, IsRecord, At;
      exit := DivideReg(392, 394);
      if exit != Resume { return; }
      rax := rdx;
      exit := FinishAlu(403, Mod, Reg);
    }

    /** `.op_and_imm`, `.op_or_imm` and `.op_xor_imm`, which differ in one mnemonic. */
    method OpBitsImm(op: BitOp) returns (exit: Exit)
      requires Ready() && IsRecord(r13) && vm.halted == 0
      modifies this, vm, vm.regs
      ensures Balanced(old(rsp), old(rbp), old(host))
      ensures Lands(exit,
                if RegistersOk(Alu(Bits(op), Imm), At(old(r13))) then PerformAlu(old(vm.Model()), Bits(op), Imm, At(old(r13)))
                else Stop(BadRegister, old(vm.Model())), old(vm.error))
    {
      hide Bitwise64, IsRecord, At, TruncDiv, TruncMod, Shl64, Shr64, Wrap;
      var ok := LoadRegAIndex(543);
      if !ok { return ErrorReturn; }
      r14 := rax;
      rax := ToU64(vm.regs[r14]);
      rax := Bitwise64(op, rax, ToU64(At(r13).imm));
      exit := FinishAlu(548, Bits(op), Imm);
    }

    /** `.op_and_reg`, `.op_or_reg` and `.op_xor_reg`. */
    method OpBitsReg(op: BitOp) returns (exit: Exit)
      requires Ready() && IsRecord(r13) && vm.halted == 0
      modifies this, vm, vm.regs
      ensures Balanced(old(rsp), old(rbp), old(host))
      ensures Lands(exit,
                if RegistersOk(Alu(Bits(op), Reg), At(old(r13))) then PerformAlu(old(vm.Model()), Bits(op), Reg, At(old(r13)))
                else Stop(BadRegister, old(vm.Model())), old(vm.error))
    {
      hide Bitwise64, IsRecord, At, TruncDiv, TruncMod, Shl64, Shr64, Wrap;
      var ok := LoadBoth(552, 554);
      if !ok { return ErrorReturn; }
      r15 := rax;
      rax := ToU64(vm.regs[r14]);
      rax := Bitwise64(op, rax, ToU64(vm.regs[r15]));
      exit := FinishAlu(559, Bits(op), Reg);
    }

    method OpShlImm() returns (exit: Exit)
      requires Ready() && IsRecord(r13) && vm.halted == 0
      modifies this, vm, vm.regs
      ensures Balanced(old(rsp), old(rbp), old(host))
      ensures Lands(exit,
                if RegistersOk(Alu(Shl, Imm), At(old(r13))) then PerformAlu(old(vm.Model()), Shl, Imm, At(old(r13)))
                else Stop(BadRegister, old(vm.Model())), old(vm.error))
    {
      hide Shl64, Shr64, Count, AluValue, PerformAlu, IsRecord, At;
      if RegistersOk(Alu(Shl, Imm), At(r13)) {
        ShiftEnds(vm.Model(), Shl, Imm, At(r13));
      }
      var ok := LoadShiftImm(612, 615);
      if !ok { return ErrorReturn; }
      rax := ToU64(vm.regs[r14]);
      rax := Shl64(rax, Count());
      exit := FinishAlu(620, Shl, Imm);
    }

    method OpShlReg() returns (exit: Exit)
      requires Ready() && IsRecord(r13) && vm.halted == 0
      modifies this, vm, vm.regs
      ensures Balanced(old(rsp), old(rbp), old(host))
      ensures Lands(exit,
                if RegistersOk(Alu(Shl, Reg), At(old(r13))) then PerformAlu(old(vm.Model()), Shl, Reg, At(old(r13)))
                else Stop(BadRegister, old(vm.Model())), old(vm.error))
    {
      hide Shl64, Shr64, Count, AluValue, PerformAlu, IsRecord, At;
      if RegistersOk(Alu(Shl, Reg), At(r13)) {
        ShiftEnds(vm.Model(), Shl, Reg, At(r13));
      }
      var ok := LoadShiftReg(624, 626, 628);
      if !ok { return ErrorReturn; }
      rax := ToU64(vm.regs[r14]);
      rax := Shl64(rax, Count());
      exit := FinishAlu(633, Shl, Reg);
    }

    method OpShrImm() returns (exit: Exit)
      requires Ready() && IsRecord(r13) && vm.halted == 0
      modifies this, vm, vm.regs
      ensures Balanced(old(rsp), old(rbp), old(host))
      ensures Lands(exit,
                if RegistersOk(Alu(Shr, Imm), At(old(r13))) then PerformAlu(old(vm.Model()), Shr, Imm, At(old(r13)))
                else Stop(BadRegister, old(vm.Model())), old(vm.error))
    {
      hide Shl64, Shr64, Count, AluValue, PerformAlu, IsRecord, At;
      if RegistersOk(Alu(Shr, Imm), At(r13)) {
        ShiftEnds(vm.Model(), Shr, Imm, At(r13));
      }
      var ok := LoadShiftImm(637, 640);
      if !ok { return ErrorReturn; }
      rax := ToU64(vm.regs[r14]);
      rax := Shr64(rax, Count());
      exit := FinishAlu(645, Shr, Imm);
    }

    method OpShrReg() returns (exit: Exit)
      requires Ready() && IsRecord(r13) && vm.halted == 0
      modifies this, vm, vm.regs
      ensures Balanced(old(rsp), old(rbp), old(host))
      ensures Lands(exit,
                if RegistersOk(Alu(Shr, Reg), At(old(r13))) then PerformAlu(old(vm.Model()), Shr, Reg, At(old(r13)))
                else Stop(BadRegister, old(vm.Model())), old(vm.error))
    {
      hide Shl64, Shr64, Count, AluValue, PerformAlu, IsRecord, At;
      if RegistersOk(Alu(Shr, Reg), At(r13)) {
        ShiftEnds(vm.Model(), Shr, Reg, At(r13));
      }
      var ok := LoadShiftReg(649, 651, 653);
      if !ok { return ErrorReturn; }
      rax := ToU64(vm.regs[r14]);
      rax := Shr64(rax, Count());
      exit := FinishAlu(658, Shr, Reg);
    }

    method OpNot() returns (exit: Exit)
      requires Ready() && IsRecord(r13) && vm.halted == 0
      modifies this, vm, vm.regs
      ensures Balanced(old(rsp), old(rbp), old(host))
      ensures Lands(exit,
                if RegistersOk(Not, At(old(r13))) then Next(SetReg(old(vm.Model()), At(old(r13)).a, ToI64(Not64(ToU64(old(vm.Model()).regs[At(old(r13)).a])))))
                else Stop(BadRegister, old(vm.Model())), old(vm.error))
    {
      hide IsRecord, At;
      var ok := LoadRegAIndex(603);
      if !ok { return ErrorReturn; }
      r14 := rax;
      rax := ToU64(vm.regs[r14]);
      rax := Not64(rax);
      exit := Finish(608);
    }

    method OpJmp() returns (exit: Exit)
      requires Ready() && IsRecord(r13) && vm.halted == 0
      modifies this, vm
      ensures Balanced(old(rsp), old(rbp), old(host))
      ensures Lands(exit, PerformJump(|vm.code|, old(vm.Model()), Always, At(old(r13))), old(vm.error))
    {
      hide IsRecord, At;
      var ok := CheckJumpImm(407);
      if !ok { return ErrorReturn; }
      vm.ip := rax;
      return Resume;
    }

    method OpJz() returns (exit: Exit)
      requires Ready() && IsRecord(r13) && vm.halted == 0
      modifies this, vm
      ensures Balanced(old(rsp), old(rbp), old(host))
      ensures Lands(exit,
                if RegistersOk(Jump(RegZero), At(old(r13))) then PerformJump(|vm.code|, old(vm.Model()), RegZero, At(old(r13)))
                else Stop(BadRegister, old(vm.Model())), old(vm.error))
    {
      hide IsRecord, At;
      var ok := LoadRegAIndex(412);
      if !ok { return ErrorReturn; }
      if ToU64(vm.regs[rax]) != 0 { return Resume; }
      ok := CheckJumpImm(415);
      if !ok { return ErrorReturn; }
      vm.ip := rax;
      return Resume;
    }

    method OpJnz() returns (exit: Exit)
      requires Ready() && IsRecord(r13) && vm.halted == 0
      modifies this, vm
      ensures Balanced(old(rsp), old(rbp), old(host))
      ensures Lands(exit,
                if RegistersOk(Jump(RegNonzero), At(old(r13))) then PerformJump(|vm.code|, old(vm.Model()), RegNonzero, At(old(r13)))
                else Stop(BadRegister, old(vm.Model())), old(vm.error))
    {
      hide IsRecord, At;
      var ok := LoadRegAIndex(420);
      if !ok { return ErrorReturn; }
      if ToU64(vm.regs[rax]) == 0 { return Resume; }
      ok := CheckJumpImm(423);
      if !ok { return ErrorReturn; }
      vm.ip := rax;
      return Resume;
    }

    method OpJe() returns (exit: Exit)
      requires Ready() && IsRecord(r13) && vm.halted == 0
      modifies this, vm
      ensures Balanced(old(rsp), old(rbp), old(host))
      ensures Lands(exit, PerformJump(|vm.code|, old(vm.Model()), FlagSet, At(old(r13))), old(vm.error))
    {
      hide IsRecord, At;
      if vm.zf == 0 { return Resume; }
      var ok := CheckJumpImm(528);
      if !ok { return ErrorReturn; }
      vm.ip := rax;
      return Resume;
    }

    method OpJne() returns (exit: Exit)
      requires Ready() && IsRecord(r13) && vm.halted == 0
      modifies this, vm
      ensures Balanced(old(rsp), old(rbp), old(host))
      ensures Lands(exit, PerformJump(|vm.code|, old(vm.Model()), FlagClear, At(old(r13))), old(vm.error))
    {
      hide IsRecord, At;
      if vm.zf != 0 { return Resume; }
      var ok := CheckJumpImm(535);
      if !ok { return ErrorReturn; }
      vm.ip := rax;
      return Resume;
    }

    /** `call wai_vm_emit_print`: the stack must be 16-byte aligned, and every
        caller-saved register may come back changed. */
    method CallEmitPrint(site: u64)
      requires vm.Valid() && r12 == vmAddress && rdi == vmAddress
      requires rsp % 16 == 0 && 8 <= rsp < TWO_64 - 8
      modifies `rax, `rcx, `rdx, `rsi, `rdi, `rsp, `host, vm
      ensures host == old(host) && rsp == old(rsp)
      ensures vm.Valid() && vm.error == old(vm.error)
      ensures vm.Model() == old(vm.Model()).(printed := old(vm.stream) + [ToI64(old(rsi))])
    {
      PushQ(site);
      vm.EmitPrint(ToI64(rsi));
      rax, rcx, rdx, rsi, rdi := *, *, *, *, *;
      Ret(site);
    }

    /** `sub rsp, 8` before the call and `add rsp, 8` after it. */
    method CallAligned(site: u64)
      requires Ready() && Aligned() && rdi == vmAddress
      modifies `rax, `rcx, `rdx, `rsi, `rdi, `rsp, `host, vm
      ensures Balanced(old(rsp), old(rbp), old(host))
      ensures vm.error == old(vm.error)
      ensures vm.Model() == old(vm.Model()).(printed := old(vm.stream) + [ToI64(old(rsi))])
    {
      var unused: u64 := *;
      PushQ(unused);
      CallEmitPrint(site);
      unused := PopQ();
    }

    method OpPrint() returns (exit: Exit)
      requires Ready() && Aligned() && IsRecord(r13) && vm.halted == 0
      modifies this, vm
      ensures Balanced(old(rsp), old(rbp), old(host))
      ensures Lands(exit,
                if RegistersOk(Print, At(old(r13))) then Next(old(vm.Model()).(printed := old(vm.Model()).printed + [old(vm.Model()).regs[At(old(r13)).a]]))
                else Stop(BadRegister, old(vm.Model())), old(vm.error))
    {
      hide IsRecord, At;
      var ok := LoadRegAIndex(428);
      if !ok { return ErrorReturn; }
      rsi := ToU64(vm.regs[rax]);
      rdi := r12;
      CallAligned(432);
      return Resume;
    }

    method OpHalt() returns (exit: Exit)
      requires Ready() && IsRecord(r13) && vm.halted == 0
      modifies this, vm
      ensures Balanced(old(rsp), old(rbp), old(host))
      ensures Lands(exit, Next(old(vm.Model()).(halted := true)), old(vm.error))
    {
      hide IsRecord, At;
      vm.halted := 1;
      vm.error := Ok;
      return OkReturn;
    }

    method OpNop() returns (exit: Exit)
      requires Ready() && IsRecord(r13) && vm.halted == 0
      modifies this, vm
      ensures Balanced(old(rsp), old(rbp), old(host))
      ensures Lands(exit, Next(old(vm.Model())), old(vm.error))
    {
      hide IsRecord, At;
      return Resume;
    }

    method OpLoadAbs() returns (exit: Exit)
      requires Ready() && IsRecord(r13) && vm.halted == 0
      modifies this, vm, vm.regs
      ensures Balanced(old(rsp), old(rbp), old(host))
      ensures Lands(exit,
                if RegistersOk(Load(Imm), At(old(r13))) then PerformLoad(old(vm.Model()), Imm, At(old(r13)))
                else Stop(BadRegister, old(vm.Model())), old(vm.error))
    {
      hide LoadWord, ReadWord, IsRecord, At;
      var ok := LoadAddressImm(442, 445);
      if !ok { return ErrorReturn; }
      rax := ReadWord(rbx);
      exit := Finish(448);
    }

    method OpLoadReg() returns (exit: Exit)
      requires Ready() && IsRecord(r13) && vm.halted == 0
      modifies this, vm, vm.regs
      ensures Balanced(old(rsp), old(rbp), old(host))
      ensures Lands(exit,
                if RegistersOk(Load(Reg), At(old(r13))) then PerformLoad(old(vm.Model()), Reg, At(old(r13)))
                else Stop(BadRegister, old(vm.Model())), old(vm.error))
    {
      hide LoadWord, ReadWord, IsRecord, At;
      var ok := LoadAddressReg(452, 454, 456);
      if !ok { return ErrorReturn; }
      rax := ReadWord(rbx);
      exit := Finish(459);
    }

    method OpStoreAbs() returns (exit: Exit)
      requires Ready() && IsRecord(r13) && vm.halted == 0
      modifies this, vm, vm.memory
      ensures Balanced(old(rsp), old(rbp), old(host))
      ensures Lands(exit,
                if RegistersOk(Store(Imm), At(old(r13))) then PerformStore(old(vm.Model()), Imm, At(old(r13)))
                else Stop(BadRegister, old(vm.Model())), old(vm.error))
    {
      hide StoreWord, IsRecord, At;
      var ok := LoadAddressImm(463, 466);
      if !ok { return ErrorReturn; }
      rax := ToU64(vm.regs[r14]);
      WriteWord(rbx, rax);
      return Resume;
    }

    method OpStoreReg() returns (exit: Exit)
      requires Ready() && IsRecord(r13) && vm.halted == 0
      modifies this, vm, vm.memory
      ensures Balanced(old(rsp), old(rbp), old(host))
      ensures Lands(exit,
                if RegistersOk(Store(Reg), At(old(r13))) then PerformStore(old(vm.Model()), Reg, At(old(r13)))
                else Stop(BadRegister, old(vm.Model())), old(vm.error))
    {
      hide StoreWord, IsRecord, At;
      var ok := LoadAddressReg(472, 474, 476);
      if !ok { return ErrorReturn; }
      rax := ToU64(vm.regs[r14]);
      WriteWord(rbx, rax);
      return Resume;
    }

    method OpPush() returns (exit: Exit)
      requires Ready() && IsRecord(r13) && vm.halted == 0
      modifies this, vm, vm.memory
      ensures Balanced(old(rsp), old(rbp), old(host))
      ensures Lands(exit,
                if RegistersOk(Push, At(old(r13))) then PushWord(old(vm.Model()), old(vm.Model()).regs[At(old(r13)).a])
                else Stop(BadRegister, old(vm.Model())), old(vm.error))
    {
      hide StoreWord, IsRecord, At;
      var ok := LoadRegAIndex(482);
      if !ok { return ErrorReturn; }
      rax := ToU64(vm.regs[rax]);
      ok := PushRax(484);
      if !ok { return ErrorReturn; }
      return Resume;
    }

    method OpPop() returns (exit: Exit)
      requires Ready() && IsRecord(r13) && vm.halted == 0
      modifies this, vm, vm.regs
      ensures Balanced(old(rsp), old(rbp), old(host))
      ensures Lands(exit,
                if RegistersOk(Pop, At(old(r13))) then PerformPop(old(vm.Model()), At(old(r13)))
                else Stop(BadRegister, old(vm.Model())), old(vm.error))
    {
      hide LoadWord, ReadWord, IsRecord, At;
      var ok := LoadRegAIndex(488);
      if !ok { return ErrorReturn; }
      r14 := rax;
      ok := PopRax(490);
      if !ok { return ErrorReturn; }
      exit := Finish(492);
    }

    /** `mov rax, [r12 + VM_IP]` and `call .push_rax`: the return index. */
    method PushIp(site: u64) returns (ok: bool)
      requires Ready()
      modifies `rax, `rbx, `rsp, `host, vm`error, vm`sp, vm.memory
      ensures Balanced(old(rsp), old(rbp), old(host))
      ensures ok == PushWord(old(vm.Model()), Wrap(old(vm.ip))).Next?
      ensures vm.Model() == PushWord(old(vm.Model()), Wrap(old(vm.ip))).s
      ensures vm.error == if ok then old(vm.error) else StackOverflow
    {
      hide PushWord, Wrap;
      rax := vm.ip;
      WrapWord(rax);
      ok := PushRax(site);
    }

    method OpCall() returns (exit: Exit)
      requires Ready() && IsRecord(r13) && vm.halted == 0
      modifies this, vm, vm.memory
      ensures Balanced(old(rsp), old(rbp), old(host))
      ensures Lands(exit, PerformCall(|vm.code|, old(vm.Model()), At(old(r13))), old(vm.error))
    {
      hide StoreWord, IsRecord, At, Wrap;
      var ok := CheckJumpImm(496);
      if !ok { return ErrorReturn; }
      r15 := rax;
      ok := PushIp(499);
      if !ok { return ErrorReturn; }
      vm.ip := r15;
      return Resume;
    }

    method OpRet() returns (exit: Exit)
      requires Ready() && IsRecord(r13) && vm.halted == 0
      modifies this, vm
      ensures Balanced(old(rsp), old(rbp), old(host))
      ensures Lands(exit, PerformRet(|vm.code|, old(vm.Model())), old(vm.error))
    {
      hide LoadWord, IsRecord, At;
      var ok := PopRax(504);
      if !ok { return ErrorReturn; }
      ok := CheckJumpRax(505);
      if !ok { return ErrorReturn; }
      vm.ip := rax;
      return Resume;
    }

    method OpCmpImm() returns (exit: Exit)
      requires Ready() && IsRecord(r13) && vm.halted == 0
      modifies this, vm
      ensures Balanced(old(rsp), old(rbp), old(host))
      ensures Lands(exit,
                if RegistersOk(Cmp(Imm), At(old(r13))) then Next(old(vm.Model()).(zf := old(vm.Model()).regs[At(old(r13)).a] == Operand(old(vm.Model()), Imm, At(old(r13)))))
                else Stop(BadRegister, old(vm.Model())), old(vm.error))
    {
      hide IsRecord, At;
      var ok := LoadRegAIndex(510);
      if !ok { return ErrorReturn; }
      rdx := ToU64(vm.regs[rax]);
      vm.zf := if rdx == ToU64(At(r13).imm) then 1 else 0;
      return Resume;
    }

    method OpCmpReg() returns (exit: Exit)
      requires Ready() && IsRecord(r13) && vm.halted == 0
      modifies this, vm
      ensures Balanced(old(rsp), old(rbp), old(host))
      ensures Lands(exit,
                if RegistersOk(Cmp(Reg), At(old(r13))) then Next(old(vm.Model()).(zf := old(vm.Model()).regs[At(old(r13)).a] == Operand(old(vm.Model()), Reg, At(old(r13)))))
                else Stop(BadRegister, old(vm.Model())), old(vm.error))
    {
      hide IsRecord, At;
      var ok := LoadBoth(517, 519);
      if !ok { return ErrorReturn; }
      rdx := ToU64(vm.regs[r14]);
      vm.zf := if rdx == ToU64(vm.regs[rax]) then 1 else 0;
      return Resume;
    }

    // ----- fetch and dispatch -----

    /** The chain of `cmp eax, WAI_OP_..` / `je`: first ten links. */
    method DispatchArithmetic() returns (exit: Exit)
      requires Ready() && Aligned() && IsRecord(r13) && vm.halted == 0
      requires rax == At(r13).opcode && 1 <= rax <= 10
      modifies this, vm, vm.regs, vm.memory
      ensures Balanced(old(rsp), old(rbp), old(host))
      ensures Lands(exit, Dispatch(|vm.code|, old(vm.Model()), At(old(r13))), old(vm.error))
    {
      hide PerformAlu, PerformJump, PerformLoad, PerformStore, PerformPop, PerformCall, PerformRet;
      hide PushWord, SetReg, vm.Model, IsRecord, At;
      match rax {
        case 1 => exit := OpMovImm();
        case 2 => exit := OpMovReg();
        case 3 => exit := OpAddImm();
        case 4 => exit := OpAddReg();
        case 5 => exit := OpSubImm();
        case 6 => exit := OpSubReg();
        case 7 => exit := OpMulImm();
        case 8 => exit := OpMulReg();
        case 9 => exit := OpDivImm();
        case 10 => exit := OpDivReg();
      }
    }

    /** The links from `.op_jmp` to `.op_halt`. */
    method DispatchControl() returns (exit: Exit)
      requires Ready() && Aligned() && IsRecord(r13) && vm.halted == 0
      requires rax == At(r13).opcode && 11 <= rax <= 15
      modifies this, vm, vm.regs, vm.memory
      ensures Balanced(old(rsp), old(rbp), old(host))
      ensures Lands(exit, Dispatch(|vm.code|, old(vm.Model()), At(old(r13))), old(vm.error))
    {
      hide PerformAlu, PerformJump, PerformLoad, PerformStore, PerformPop, PerformCall, PerformRet;
      hide PushWord, SetReg, vm.Model, IsRecord, At;
      match rax {
        case 11 => exit := OpJmp();
        case 12 => exit := OpJz();
        case 13 => exit := OpJnz();
        case 14 => exit := OpPrint();
        case 15 => exit := OpHalt();
      }
    }

    /** The links from `.op_load_abs` to `.op_store_reg`. */
    method DispatchMemory() returns (exit: Exit)
      requires Ready() && Aligned() && IsRecord(r13) && vm.halted == 0
      requires rax == At(r13).opcode && 16 <= rax <= 19
      modifies this, vm, vm.regs, vm.memory
      ensures Balanced(old(rsp), old(rbp), old(host))
      ensures Lands(exit, Dispatch(|vm.code|, old(vm.Model()), At(old(r13))), old(vm.error))
    {
      hide PerformAlu, PerformJump, PerformLoad, PerformStore, PerformPop, PerformCall, PerformRet;
      hide PushWord, SetReg, vm.Model, IsRecord, At;
      match rax {
        case 16 => exit := OpLoadAbs();
        case 17 => exit := OpLoadReg();
        case 18 => exit := OpStoreAbs();
        case 19 => exit := OpStoreReg();
      }
    }

    /** The links from `.op_push` to `.op_ret`. */
    method DispatchStack() returns (exit: Exit)
      requires Ready() && Aligned() && IsRecord(r13) && vm.halted == 0
      requires rax == At(r13).opcode && 20 <= rax <= 23
      modifies this, vm, vm.regs, vm.memory
      ensures Balanced(old(rsp), old(rbp), old(host))
      ensures Lands(exit, Dispatch(|vm.code|, old(vm.Model()), At(old(r13))), old(vm.error))
    {
      hide PerformAlu, PerformJump, PerformLoad, PerformStore, PerformPop, PerformCall, PerformRet;
      hide PushWord, SetReg, vm.Model, IsRecord, At;
      StackDecodes(At(r13).opcode);
      hide Decode;
      match rax {
        case 20 => exit := OpPush();
        case 21 => exit := OpPop();
        case 22 => exit := OpCall();
        case 23 => exit := OpRet();
      }
    }

    /** The links from `.op_cmp_imm` to `.op_nop`. */
    method DispatchCompare() returns (exit: Exit)
      requires Ready() && Aligned() && IsRecord(r13) && vm.halted == 0
      requires rax == At(r13).opcode && 24 <= rax <= 28
      modifies this, vm, vm.regs, vm.memory
      ensures Balanced(old(rsp), old(rbp), old(host))
      ensures Lands(exit, Dispatch(|vm.code|, old(vm.Model()), At(old(r13))), old(vm.error))
    {
      hide PerformAlu, PerformJump, PerformLoad, PerformStore, PerformPop, PerformCall, PerformRet;
      hide PushWord, SetReg, vm.Model, IsRecord, At;
      CompareDecodes(At(r13).opcode);
      hide Decode;
      match rax {
        case 24 => exit := OpCmpImm();
        case 25 => exit := OpCmpReg();
        case 26 => exit := OpJe();
        case 27 => exit := OpJne();
        case 28 => exit := OpNop();
      }
    }

    /** The links to `.op_mod_imm` and `.op_mod_reg`. */
    method DispatchModulo() returns (exit: Exit)
      requires Ready() && Aligned() && IsRecord(r13) && vm.halted == 0
      requires rax == At(r13).opcode && 29 <= rax <= 30
      modifies this, vm, vm.regs, vm.memory
      ensures Balanced(old(rsp), old(rbp), old(host))
      ensures Lands(exit, Dispatch(|vm.code|, old(vm.Model()), At(old(r13))), old(vm.error))
    {
      hide PerformAlu, PerformJump, PerformLoad, PerformStore, PerformPop, PerformCall, PerformRet;
      hide PushWord, SetReg, vm.Model, IsRecord, At;
      match rax {
        case 29 => exit := OpModImm();
        case 30 => exit := OpModReg();
      }
    }

    /** The links from `.op_and_imm` to `.op_xor_reg`. */
    method DispatchBitwise() returns (exit: Exit)
      requires Ready() && Aligned() && IsRecord(r13) && vm.halted == 0
      requires rax == At(r13).opcode && 31 <= rax <= 36
      modifies this, vm, vm.regs, vm.memory
      ensures Balanced(old(rsp), old(rbp), old(host))
      ensures Lands(exit, Dispatch(|vm.code|, old(vm.Model()), At(old(r13))), old(vm.error))
    {
      hide PerformAlu, PerformJump, PerformLoad, PerformStore, PerformPop, PerformCall, PerformRet;
      hide PushWord, SetReg, vm.Model, IsRecord, At;
      BitwiseDecodes(At(r13).opcode);
      hide Decode;
      match rax {
        case 31 => exit := OpBitsImm(BitAnd);
        case 32 => exit := OpBitsReg(BitAnd);
        case 33 => exit := OpBitsImm(BitOr);
        case 34 => exit := OpBitsReg(BitOr);
        case 35 => exit := OpBitsImm(BitXor);
        case 36 => exit := OpBitsReg(BitXor);
      }
    }

    /** The links from `.op_not` on. */
    method DispatchShift() returns (exit: Exit)
      requires Ready() && Aligned() && IsRecord(r13) && vm.halted == 0
      requires rax == At(r13).opcode && 37 <= rax <= 41
      modifies this, vm, vm.regs, vm.memory
      ensures Balanced(old(rsp), old(rbp), old(host))
      ensures Lands(exit, Dispatch(|vm.code|, old(vm.Model()), At(old(r13))), old(vm.error))
    {
      hide PerformAlu, PerformJump, PerformLoad, PerformStore, PerformPop, PerformCall, PerformRet;
      hide PushWord, SetReg, vm.Model, IsRecord, At;
      ShiftDecodes(At(r13).opcode);
      hide Decode;
      match rax {
        case 37 => exit := OpNot();
        case 38 => exit := OpShlImm();
        case 39 => exit := OpShlReg();
        case 40 => exit := OpShrImm();
        case 41 => exit := OpShrReg();
      }
    }

    method DispatchOpcode() returns (exit: Exit)
      requires Ready() && Aligned() && IsRecord(r13) && vm.halted == 0
      requires rax == At(r13).opcode
      modifies this, vm, vm.regs, vm.memory
      ensures Balanced(old(rsp), old(rbp), old(host))
      ensures Lands(exit, Dispatch(|vm.code|, old(vm.Model()), At(old(r13))), old(vm.error))
    {
      if 1 <= rax <= 10 {
        exit := DispatchArithmetic();
      } else if 11 <= rax <= 15 {
        exit := DispatchControl();
      } else if 16 <= rax <= 19 {
        exit := DispatchMemory();
      } else if 20 <= rax <= 23 {
        exit := DispatchStack();
      } else if 24 <= rax <= 28 {
        exit := DispatchCompare();
      } else if 29 <= rax <= 30 {
        exit := DispatchModulo();
      } else if 31 <= rax <= 36 {
        exit := DispatchBitwise();
      } else if 37 <= rax <= 41 {
        exit := DispatchShift();
      } else {
        vm.error := BadOpcode;
        exit := ErrorReturn;
      }
    }

    /** From the bounds check to the load of the opcode: the record of
        instruction ip is found by `ip * 12`, and ip advances. */
    method Fetch()
      requires Ready() && vm.ip < |vm.code|
      requires rax == vm.ip
      modifies `rax, `r13, `r14, vm`ip
      ensures Balanced(old(rsp), old(rbp), old(host))
      ensures IsRecord(r13) && At(r13) == vm.code[old(vm.ip)] && rax == At(r13).opcode
      ensures vm.Model() == old(vm.Model()).(ip := old(vm.ip) + 1)
    {
      RecordAddress(codeAddress, rax, |vm.code|);
      hide Add64, Shl64;
      r13 := codeAddress;
      r14 := Add64(rax, Add64(rax, rax));
      r14 := Shl64(r14, 2);
      r13 := Add64(r13, r14);
      rax := Add64(rax, 1);
      vm.ip := rax;
      rax := At(r13).opcode;
    }

    /** One turn of `.loop`. */
    method Iterate() returns (exit: Exit)
      requires Ready() && Aligned()
      modifies this, vm, vm.regs, vm.memory
      ensures Balanced(old(rsp), old(rbp), old(host))
      ensures old(vm.halted) != 0 ==> exit == OkReturn && vm.Model() == old(vm.Model()) && vm.error == old(vm.error)
      ensures old(vm.halted) == 0 || old(vm.error) == Ok ==> Lands(exit, Step(vm.code, old(vm.Model())), old(vm.error))
    {
      hide Dispatch;
      if vm.halted != 0 {
        return OkReturn;
      }
      rax := vm.ip;
      rbx := |vm.code|;
      if rax >= rbx {
        vm.error := IpOutOfBounds;
        return ErrorReturn;
      }
      Fetch();
      exit := DispatchOpcode();
    }

    /** After k turns of `.loop`, control is at `exit`; a machine that was
        halted to begin with is left alone, its error field included. */
    ghost predicate Reached(exit: Exit, start: State, before: Error, k: nat)
      requires vm.Valid()
      reads vm, vm.regs, vm.memory
    {
      var o := Run(vm.code, start, k);
      if start.halted then
        vm.Model() == start && vm.error == before && (if exit == Resume then k == 0 else exit == OkReturn)
      else if exit == Resume then o == Next(vm.Model()) && !o.s.halted && vm.error == before
      else Lands(exit, o, before) && Over(o)
    }

    /** The loop is still going after k turns only if the run is not over. */
    lemma NotBeyond(exit: Exit, start: State, before: Error, k: nat, n: nat)
      requires vm.Valid() && k > 0 && Reached(exit, start, before, k) && Over(Run(vm.code, start, n))
      ensures exit == Resume ==> k <= n
    {
      if exit == Resume && n < k {
        RunOver(vm.code, start, n, k);
      }
    }

    /** `.loop` until control leaves it. A run that never ends has no result, so
        the caller names a step count `n` by which it is over. */
    method Loop(ghost n: nat) returns (exit: Exit)
      requires Ready() && Aligned()
      requires Over(Run(vm.code, vm.Model(), n))
      modifies this, vm, vm.regs, vm.memory
      ensures Balanced(old(rsp), old(rbp), old(host)) && exit != Resume
      ensures old(vm.halted) != 0 ==> exit == OkReturn && vm.Model() == old(vm.Model()) && vm.error == old(vm.error)
      ensures old(vm.halted) == 0 ==> Lands(exit, Run(vm.code, old(vm.Model()), n), old(vm.error))
    {
      hide Step;
      ghost var start, before := vm.Model(), vm.error;
      ghost var k := 0;
      exit := Resume;
      while exit == Resume
        invariant Balanced(old(rsp), old(rbp), old(host)) && Reached(exit, start, before, k)
        invariant exit == Resume ==> k <= n
        decreases n + 1 - k
      {
        exit := Iterate();
        k := k + 1;
        NotBeyond(exit, start, before, k, n);
      }
      if !start.halted {
        SameEnd(vm.code, start, k, n);
      }
    }

    /** The six pushes of the prologue, and r12 := vm. */
    method Enter()
      requires vm.Valid() && rdi == vmAddress && codeAddress + 12 * |vm.code| <= TWO_64
      requires rsp == entryRsp && 256 <= rsp < TWO_64 - 64
      modifies `rsp, `rbp, `r12, `host
      ensures Ready()
      ensures host == old(host) + [old(rbp), old(rbx), old(r12), old(r13), old(r14), old(r15)]
    {
      PushQ(rbp);
      rbp := rsp;
      PushQ(rbx);
      PushQ(r12);
      PushQ(r13);
      PushQ(r14);
      PushQ(r15);
      r12 := rdi;
    }

    /** `.finish`: the six pops that give the caller its registers back. */
    method Leave(ghost below: seq<u64>, ghost saved: seq<u64>)
      requires Ready() && |saved| == 6 && host == below + saved
      modifies `rsp, `rbp, `rbx, `r12, `r13, `r14, `r15, `host
      ensures rsp == old(rsp) + 48 && host == below
      ensures [rbp, rbx, r12, r13, r14, r15] == saved
    {
      assert saved[..6] == saved;
      r15 := PopQ();
      Unwound(below, saved, 6);
      r14 := PopQ();
      Unwound(below, saved, 5);
      r13 := PopQ();
      Unwound(below, saved, 4);
      r12 := PopQ();
      Unwound(below, saved, 3);
      rbx := PopQ();
      Unwound(below, saved, 2);
      rbp := PopQ();
      Unwound(below, saved, 1);
    }

    /** `wai_vm_exec_asm`, from the call to the `ret` that takes the return
        address. HALT clears the error field; a machine already halted keeps it.
        A divide fault kills the process, so no result is claimed for a run that
        ends in one. */
    method ExecAsm(ghost n: nat) returns (eax: int)
      requires vm.Valid() && rdi == vmAddress && codeAddress + 12 * |vm.code| <= TWO_64
      requires rsp == entryRsp && Aligned() && 256 <= rsp < TWO_64 - 64 && host != []
      requires Over(Run(vm.code, vm.Model(), n)) && !Run(vm.code, vm.Model(), n).Trap?
      modifies this, vm, vm.regs, vm.memory
      ensures vm.Valid()
      ensures match Run(vm.code, old(vm.Model()), n)
        case Next(t) => eax == 0 && vm.Model() == t && vm.error == if old(vm.halted) != 0 then old(vm.error) else Ok
        case Stop(e, t) => eax == 1 && vm.Model() == t && vm.error == e
      ensures rsp == old(rsp) + 8 && host == old(host)[..|old(host)| - 1]
      ensures [rbp, rbx, r12, r13, r14, r15] == old([rbp, rbx, r12, r13, r14, r15])
    {
      if vm.halted != 0 {
        HaltedEnd(vm.code, vm.Model(), n);
      }
      hide Run;
      ghost var saved := [rbp, rbx, r12, r13, r14, r15];
      Enter();
      var exit := Loop(n);
      eax := if exit == OkReturn then 0 else 1;
      Leave(old(host), saved);
      Ret(old(host[|host| - 1]));
    }
  }

  /** `wai_vm_execute`: the engine behind `waivm run`, whatever the error field
      holds on entry. */
  method Execute(vm: Vm, vmAddress: u64, codeAddress: u64, rsp: u64, ghost n: nat) returns (r: Error)
    requires vm.Valid() && codeAddress + 12 * |vm.code| <= TWO_64
    requires rsp % 16 == 8 && 256 <= rsp < TWO_64 - 64
    requires Over(Run(vm.code, vm.Model(), n)) && !Run(vm.code, vm.Model(), n).Trap?
    modifies vm, vm.regs, vm.memory
    ensures vm.Valid()
    ensures vm.Ended(r, Run(vm.code, old(vm.Model()), n), if old(vm.halted) != 0 then old(vm.error) else Ok)
  {
    hide Run;
    var cpu := new Cpu(vm, vmAddress, codeAddress, rsp);
    var rc := cpu.ExecAsm(n);
    if rc != 0 {
      return vm.error;
    }
    return Ok;
  }

  lemma HaltedEnd(code: seq<Instr>, s: State, n: nat)
    requires s.halted
    ensures Run(code, s, n) == Next(s)
  {
    RunOver(code, s, 0, n);
  }

  /** Two step counts by which a run is over name the same end. */
  lemma SameEnd(code: seq<Instr>, s: State, m: nat, n: nat)
    requires Over(Run(code, s, m)) && Over(Run(code, s, n))
    ensures Run(code, s, m) == Run(code, s, n)
  {
    if m <= n {
      RunOver(code, s, m, n);
    } else {
      RunOver(code, s, n, m);
    }
  }
}
