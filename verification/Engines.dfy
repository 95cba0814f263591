/** The two engines side by side. */
module Engines {
  import opened Words
  import opened Isa
  import opened Machine
  import opened CVm
  import opened Nasm
  import opened Verifier
  import opened Safety

  /** Two machines that share no storage. */
  ghost predicate Apart(c: Vm, a: Vm) {
    c != a && {c.regs as object, c.memory} !! {a.regs as object, a.memory}
  }

  /** Two machines in the same state, one per engine, that share no storage. */
  ghost predicate Twins(c: Vm, cpu: Cpu)
    reads c, c.regs, c.memory, cpu, cpu.vm, cpu.vm.regs, cpu.vm.memory
  {
    var a := cpu.vm;
    && c.Valid() && cpu.Ready() && cpu.Aligned() && Apart(c, a)
    && c.code == a.code && !c.codeIsNull
    && c.Model() == a.Model()
  }

  /** The instruction at s is about to run and is HALT. */
  predicate AtHalt(code: seq<Instr>, s: State) {
    !s.halted && s.ip < |code| && Decode(code[s.ip].opcode) == Some(Halt)
  }

  /** A step halts a machine exactly when it executes HALT. */
  lemma HaltsAtHalt(code: seq<Instr>, s: State)
    ensures s.halted ==> Step(code, s) == Next(s) && !AtHalt(code, s)
    ensures !s.halted ==> (Step(code, s).Next? && Step(code, s).s.halted <==> AtHalt(code, s))
  {
    hide LoadWord, StoreWord, AluValue;
  }

  lemma FailingIsNotOk(code: seq<Instr>, s: State)
    ensures Step(code, s).Stop? ==> Step(code, s).e != Ok && !s.halted && !Step(code, s).s.halted
  {
    if Step(code, s).Stop? {
      FailedStep(code, s);
    }
  }

  /** From any state, reachable or not, one `wai_vm_step` and one turn of the
      NASM loop leave the same state, and the loop leaves exactly when the step
      fails or the machine has halted. The error fields agree afterwards unless
      a stale error is pending and the instruction is HALT: the NASM HALT clears
      it and the C one does not. */
  method StepTogether(c: Vm, cpu: Cpu) returns (r: Error, exit: Exit)
    requires Twins(c, cpu) && c.error == cpu.vm.error && StepDefined(c.code, c.Model())
    modifies c, c.regs, c.memory, cpu, cpu.vm, cpu.vm.regs, cpu.vm.memory
    ensures Twins(c, cpu)
    ensures c.Ended(r, Step(c.code, old(c.Model())), old(c.error))
    ensures exit == if r != Ok then ErrorReturn else if c.halted != 0 then OkReturn else Resume
    ensures cpu.vm.error == if AtHalt(c.code, old(c.Model())) then Ok else c.error
    ensures c.error == cpu.vm.error <==> !(old(c.error) != Ok && AtHalt(c.code, old(c.Model())))
  {
    hide Step, StepDefined, AtHalt;
    ghost var s := c.Model();
    FailingIsNotOk(c.code, s);
    DefinedNeverTraps(c.code, s);
    HaltsAtHalt(c.code, s);
    r := c.Step();
    exit := cpu.Iterate();
  }

  /** So they stay together, n turns long, as far as C defines those turns and
      whether or not the run ever ends. */
  method Lockstep(c: Vm, cpu: Cpu, n: nat) returns (r: Error)
    requires Twins(c, cpu) && c.error == cpu.vm.error == Ok && DefinedFor(c.code, c.Model(), n)
    modifies c, c.regs, c.memory, cpu, cpu.vm, cpu.vm.regs, cpu.vm.memory
    ensures Twins(c, cpu) && c.error == cpu.vm.error && c.Ended(r, Run(c.code, old(c.Model()), n), Ok)
  {
    hide Step, AtHalt, StepDefined;
    ghost var start := c.Model();
    r := Ok;
    for k := 0 to n
      invariant Twins(c, cpu) && c.error == cpu.vm.error == Ok && r == Ok
      invariant Run(c.code, start, k) == Next(c.Model())
    {
      FailingIsNotOk(c.code, c.Model());
      var exit;
      r, exit := StepTogether(c, cpu);
      if r != Ok {
        RunOver(c.code, start, k + 1, n);
        return;
      }
    }
  }

  /** `wai_vm_step` repeated until the machine halts or a step fails. */
  method StepToEnd(vm: Vm, ghost n: nat) returns (r: Error)
    requires vm.Valid() && !vm.codeIsNull
    requires DefinedFor(vm.code, vm.Model(), n) && Over(Run(vm.code, vm.Model(), n))
    modifies vm, vm.regs, vm.memory
    ensures vm.Valid() && vm.Ended(r, Run(vm.code, old(vm.Model()), n), old(vm.error))
  {
    hide Step, StepDefined;
    ghost var start, before, k := vm.Model(), vm.error, 0;
    while vm.halted == 0
      invariant vm.Valid() && vm.error == before
      invariant Run(vm.code, start, k) == Next(vm.Model()) && k <= n
      decreases n - k
    {
      ghost var s := vm.Model();
      FailingIsNotOk(vm.code, s);
      r := vm.Step();
      k := k + 1;
      if r != Ok {
        SameEnd(vm.code, start, k, n);
        return;
      }
    }
    SameEnd(vm.code, start, k, n);
    return Ok;
  }

  /** Any program with code, run by both engines where C arithmetic is defined:
      the same registers, ip, flag, memory, stack, output and error. */
  method BothEngines(code: seq<Instr>, codeAddress: u64, rsp: u64, ghost n: nat)
    returns (c: Vm, rc: Error, a: Vm, ra: Error)
    requires |code| <= TWO_63 && codeAddress + 12 * |code| <= TWO_64
    requires rsp % 16 == 8 && 256 <= rsp < TWO_64 - 64
    requires DefinedFor(code, Init(), n) && Over(Run(code, Init(), n))
    ensures c.Valid() && a.Valid() && c.code == a.code == code && c.Model() == a.Model()
    ensures rc == ra && c.error == a.error
    ensures c.Ended(rc, Run(code, Init(), n), Ok)
  {
    hide Step, Init;
    c := new Vm.Init(code, false);
    rc := StepToEnd(c, n);
    DefinedRunNeverTraps(code, Init(), n);
    a := new Vm.Init(code, false);
    ra := Execute(a, 0, codeAddress, rsp, n);
  }

  // ----- where the engines part -----

  /** Without code the engines part on any machine, halted or not: the C stepper
      reports a parse error, records none and leaves the machine; the NASM loop
      ends as a run without instructions does, an out-of-bounds ip recorded
      unless the machine has halted. */
  method EmptyProgram(c: Vm, cpu: Cpu) returns (r: Error, exit: Exit)
    requires c.Valid() && cpu.Ready() && cpu.Aligned() && Apart(c, cpu.vm)
    requires c.codeIsNull && cpu.vm.codeIsNull && c.Model() == cpu.vm.Model() && c.error == cpu.vm.error
    modifies c, c.regs, c.memory, cpu, cpu.vm, cpu.vm.regs, cpu.vm.memory
    ensures c.Valid() && c.Model() == old(c.Model()) && r == Parse && c.error == old(c.error)
    ensures cpu.Ready() && cpu.vm.Model() == old(c.Model())
    ensures if old(c.halted) != 0 then exit == OkReturn && cpu.vm.error == old(c.error)
            else cpu.Lands(exit, Step([], old(c.Model())), old(c.error)) && cpu.vm.error == IpOutOfBounds
  {
    r := c.Step();
    exit := cpu.Iterate();
  }

  /** A division by a register that is zero at power-on, then HALT. */
  function FailThenHalt(): (code: seq<Instr>)
    ensures |code| == 2
  {
    [ Instr(10, 0, 1, 0, 0),    // 0  div r0, r1
      Instr(15, 0, 0, 0, 0) ]   // 1  halt
  }

  lemma FailThenHaltRuns()
    ensures var failed := Init().(ip := 1);
      && Verified(FailThenHalt())
      && StepDefined(FailThenHalt(), Init()) && StepDefined(FailThenHalt(), failed)
      && Run(FailThenHalt(), Init(), 1) == Step(FailThenHalt(), Init()) == Stop(DivZero, failed)
      && Run(FailThenHalt(), failed, 1) == Step(FailThenHalt(), failed) == Next(failed.(ip := 2, halted := true))
  {
    var failed := Init().(ip := 1);
    assert Run(FailThenHalt(), Init(), 0) == Next(Init());
    assert Run(FailThenHalt(), failed, 0) == Next(failed);
  }

  /** Where a caller gets who carries on over the failed division. */
  function CarriedOn(): State {
    Init().(ip := 2, halted := true)
  }

  /** From power-on the division fails in both engines alike; a caller who
      carries on over it finds the machines halted in the same state, the C
      field still at the division error and the NASM field at OK. */
  method StaleErrorAtHalt(c: Vm, cpu: Cpu)
    requires Twins(c, cpu) && c.error == cpu.vm.error == Ok
    requires c.code == FailThenHalt() && c.Model() == Init()
    modifies c, c.regs, c.memory, cpu, cpu.vm, cpu.vm.regs, cpu.vm.memory
    ensures Twins(c, cpu) && c.Model() == CarriedOn()
    ensures c.error == DivZero && cpu.vm.error == Ok
  {
    hide Step, StepDefined, Run, FailThenHalt, AtHalt;
    FailThenHaltRuns();
    var r, exit := StepTogether(c, cpu);
    assert c.Model() == Init().(ip := 1) && c.error == cpu.vm.error == DivZero;
    HaltsAtHalt(FailThenHalt(), c.Model());
    r, exit := StepTogether(c, cpu);
  }
}
