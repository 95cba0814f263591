/** `wai_trace_program`: the C engine driven one step at a time under a limit. */
module Trace {
  import opened Words
  import opened Isa
  import opened Machine
  import opened CVm
  import opened Safety

  const MAX_STEPS: nat := 1_000_000

  /** The verdict, the number of completed steps and the number of prints. */
  datatype Report = Report(verdict: Error, steps: nat, prints: nat)

  /** What the first MAX_STEPS steps of the run amount to; a divide fault kills
      the process before it can say anything. */
  function Verdict(o: Outcome): Option<Error> {
    match o
    case Next(t) => if t.halted then Some(Ok) else Some(Unsupported)
    case Stop(e, _) => Some(e)
    case Trap => None
  }

  /** After n steps the machine has halted. */
  predicate Halted(code: seq<Instr>, n: nat) {
    Run(code, Init(), n).Next? && Run(code, Init(), n).s.halted
  }

  /** The run halts within n steps. */
  ghost predicate HaltsWithin(code: seq<Instr>, n: nat) {
    exists k: nat :: k <= n && Halted(code, k)
  }

  /** The run is still going after n steps. */
  ghost predicate GoesOn(code: seq<Instr>, n: nat) {
    forall k: nat :: k <= n ==> Going(Run(code, Init(), k))
  }

  /** `steps` steps of the run succeed and were taken one by one. */
  predicate Took(code: seq<Instr>, steps: nat) {
    && Run(code, Init(), steps).Next?
    && forall k :: 0 <= k < steps ==> Going(Run(code, Init(), k))
  }

  method TraceProgram(code: seq<Instr>, codeIsNull: bool) returns (r: Report)
    requires (codeIsNull ==> code == []) && |code| <= TWO_63 && DefinedFor(code, Init(), MAX_STEPS)
    ensures Verdict(Run(code, Init(), MAX_STEPS)) == Some(r.verdict)
    ensures r.verdict == Ok <==> HaltsWithin(code, 1_000_000)
    ensures r.verdict == Unsupported <==> GoesOn(code, 1_000_000)
    ensures r.steps <= 1_000_000 && Took(code, r.steps)
    ensures r.prints == |Run(code, Init(), r.steps).s.printed|
    ensures match r.verdict
      case Ok => Run(code, Init(), r.steps).s.halted
      case Unsupported => r.steps == 1_000_000 && Going(Run(code, Init(), r.steps))
      case e => r.steps < 1_000_000 && Run(code, Init(), r.steps + 1).Stop? && Run(code, Init(), r.steps + 1).e == e
  {
    hide Step, Init, StepDefined;
    VerdictMeaning(code);
    hide HaltsWithin, GoesOn;
    var vm := new Vm.Init(code, codeIsNull);
    var steps := 0;
    while vm.halted == 0
      invariant vm.Valid() && fresh(vm) && fresh(vm.regs) && fresh(vm.memory) && vm.code == code && vm.codeIsNull == codeIsNull
      invariant steps <= MAX_STEPS && Run(code, Init(), steps) == Next(vm.Model()) && Took(code, steps)
      decreases MAX_STEPS - steps
    {
      if steps >= MAX_STEPS {
        PrintsAtMost(code, steps);
        return Report(Unsupported, steps, vm.printCount);
      }
      ghost var s := vm.Model();
      if vm.ip >= |code| {
        PrintsAtMost(code, steps);
        OutOfCode(code, s);
        Finished(code, steps + 1);
        return Report(IpOutOfBounds, steps, vm.printCount);
      }
      var status := vm.Step();
      FailedVerdict(code, s);
      if status != Ok {
        PrintsAtMost(code, steps);
        Finished(code, steps + 1);
        return Report(status, steps, vm.printCount);
      }
      steps := steps + 1;
    }
    PrintsAtMost(code, steps);
    Finished(code, steps);
    return Report(Ok, steps, vm.printCount);
  }

  /** One print a step at most, so the counter cannot have wrapped. */
  lemma {:induction false} PrintsAtMost(code: seq<Instr>, n: nat)
    ensures Run(code, Init(), n).Next? ==> |Run(code, Init(), n).s.printed| <= n
    decreases n
  {
    hide Step;
    if n > 0 {
      PrintsAtMost(code, n - 1);
      var o := Run(code, Init(), n - 1);
      if o.Next? {
        PrintsOne(code, o.s);
      }
    }
  }

  lemma PrintsOne(code: seq<Instr>, s: State)
    ensures Step(code, s).Next? ==> |Step(code, s).s.printed| <= |s.printed| + 1
  {
    hide LoadWord, StoreWord, AluValue;
  }

  lemma OutOfCode(code: seq<Instr>, s: State)
    requires !s.halted && s.ip >= |code|
    ensures Step(code, s) == Stop(IpOutOfBounds, s)
  {
  }

  /** A failed step reports neither Ok nor the step limit, and prints nothing. */
  lemma FailedVerdict(code: seq<Instr>, s: State)
    ensures Step(code, s).Stop? ==>
      Step(code, s).e != Ok && Step(code, s).e != Unsupported && Step(code, s).s.printed == s.printed
  {
    if Step(code, s).Stop? {
      FailedStep(code, s);
    }
  }

  lemma Finished(code: seq<Instr>, n: nat)
    requires n <= MAX_STEPS && Over(Run(code, Init(), n))
    ensures Run(code, Init(), MAX_STEPS) == Run(code, Init(), n)
  {
    RunOver(code, Init(), n, MAX_STEPS);
  }

  /** OK says that the run halts within a million steps, UNSUPPORTED that it is
      still going after a million, an error that it stops on it in between. */
  lemma VerdictMeaning(code: seq<Instr>)
    ensures var v := Verdict(Run(code, Init(), MAX_STEPS));
      && (v == Some(Ok) <==> HaltsWithin(code, 1_000_000))
      && (v == Some(Unsupported) <==> GoesOn(code, 1_000_000))
      && (v == None <==> exists n: nat :: n <= 1_000_000 && Run(code, Init(), n).Trap?)
  {
    hide Run, Init;
    StopsAreErrors(code, MAX_STEPS);
    forall k: nat | k <= 1_000_000 && !Going(Run(code, Init(), k))
      ensures Run(code, Init(), k) == Run(code, Init(), MAX_STEPS)
    {
      Finished(code, k);
    }
    assert Halted(code, MAX_STEPS) ==> HaltsWithin(code, 1_000_000);
  }

  /** A trace that is not cut off tells exactly what any engine tells that
      executes the run to its end. */
  lemma VerdictIsFinal(code: seq<Instr>, n: nat)
    requires Over(Run(code, Init(), n))
    ensures Verdict(Run(code, Init(), MAX_STEPS)) ==
      if Over(Run(code, Init(), MAX_STEPS)) then Verdict(Run(code, Init(), n)) else Some(Unsupported)
  {
    if Over(Run(code, Init(), MAX_STEPS)) {
      if n <= MAX_STEPS {
        RunOver(code, Init(), n, MAX_STEPS);
      } else {
        RunOver(code, Init(), MAX_STEPS, n);
      }
    }
  }

  /** A forward-only program of fewer than a million instructions is never cut
      off by the step limit. */
  lemma ForwardNeverUnsupported(code: seq<Instr>)
    requires ForwardOnly(code) && |code| < 1_000_000
    ensures Verdict(Run(code, Init(), MAX_STEPS)) != Some(Unsupported)
    ensures !GoesOn(code, 1_000_000)
  {
    hide ForwardOnly, Run;
    ForwardTerminates(code);
    Finished(code, |code| + 1);
    StopsAreErrors(code, |code| + 1);
  }

  lemma {:induction false} StopsAreErrors(code: seq<Instr>, n: nat)
    ensures var o := Run(code, Init(), n); o.Stop? ==> o.e != Ok && o.e != Unsupported
    decreases n
  {
    hide Step;
    if n > 0 {
      StopsAreErrors(code, n - 1);
      var o := Run(code, Init(), n - 1);
      if o.Next? {
        FailedVerdict(code, o.s);
      }
    }
  }

  // ----- a loop that counts -----

  /** `add r0, 1`, `jmp 0` */
  function Counter(): (code: seq<Instr>)
    ensures |code| == 2
  {
    [Instr(3, 0, 0, 0, 1), Instr(11, 0, 0, 0, 0)]
  }

  predicate Counting(s: State, n: nat) {
    !s.halted && s.ip == n % 2 && s.regs[0] == (n + 1) / 2
  }

  lemma CounterStep(s: State, n: nat)
    requires n < TWO_63 && Counting(s, n)
    ensures StepDefined(Counter(), s)
    ensures Step(Counter(), s).Next? && Counting(Step(Counter(), s).s, n + 1)
  {
    if n % 2 == 0 {
      WrapExact(s.regs[0] + 1);
    }
    hide Wrap, LoadWord, StoreWord, TruncDiv, TruncMod;
  }

  lemma {:induction false} CounterRuns(n: nat)
    requires n <= TWO_63
    ensures Run(Counter(), Init(), n).Next? && Counting(Run(Counter(), Init(), n).s, n)
    ensures DefinedFor(Counter(), Init(), n)
    decreases n
  {
    hide Step, StepDefined, Counter, Init;
    if n == 0 {
      CounterStart();
    } else {
      CounterRuns(n - 1);
      CounterStep(Run(Counter(), Init(), n - 1).s, n - 1);
    }
  }

  lemma CounterStart()
    ensures Counting(Init(), 0)
  {
  }

  /** The simplest endless loop overflows only in the far end, and is traced to
      the step limit. */
  lemma CounterIsCutOff()
    ensures DefinedFor(Counter(), Init(), MAX_STEPS)
    ensures Verdict(Run(Counter(), Init(), MAX_STEPS)) == Some(Unsupported)
  {
    hide Run, DefinedFor, Counter, Init;
    CounterRuns(MAX_STEPS);
  }
}
