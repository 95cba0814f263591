/** The step limit of the tracer on runs whose length is known: the Fibonacci
    example, and a countdown on either side of the millionth step. */
module TraceLimit {
  import opened Words
  import opened Isa
  import opened Machine
  import opened Trace
  import opened Fibonacci

  /** The run halts with step n and not before. */
  predicate HaltsAt(code: seq<Instr>, n: nat) {
    n > 0 && Going(Run(code, Init(), n - 1)) && Halted(code, n)
  }

  lemma HaltsOnce(code: seq<Instr>, n: nat, k: nat)
    requires HaltsAt(code, n)
    ensures Going(Run(code, Init(), k)) <==> k < n
    ensures k >= n ==> Run(code, Init(), k) == Run(code, Init(), n)
  {
    if k >= n {
      RunOver(code, Init(), n, k);
    } else if !Going(Run(code, Init(), k)) {
      RunOver(code, Init(), k, n - 1);
    }
    hide Run;
  }

  /** The verdict on a run that halts: OK up to a million steps, then
      UNSUPPORTED. */
  lemma LimitVerdict(code: seq<Instr>, n: nat)
    requires HaltsAt(code, n)
    ensures Verdict(Run(code, Init(), MAX_STEPS)) == Some(if n <= 1_000_000 then Ok else Unsupported)
  {
    HaltsOnce(code, n, MAX_STEPS);
    hide Run, Init;
  }

  /** So a trace of it counts its steps, or a million. */
  method TraceHalting(code: seq<Instr>, ghost n: nat) returns (r: Report)
    requires HaltsAt(code, n) && |code| <= TWO_63 && DefinedFor(code, Init(), MAX_STEPS)
    ensures if n <= 1_000_000 then r.verdict == Ok && r.steps == n else r.verdict == Unsupported && r.steps == 1_000_000
    ensures Run(code, Init(), r.steps).Next? && r.prints == |Run(code, Init(), r.steps).s.printed|
  {
    hide Run, Init, DefinedFor, HaltsWithin, GoesOn;
    LimitVerdict(code, n);
    r := TraceProgram(code, false);
    HaltsOnce(code, n, r.steps);
    hide HaltsAt;
  }

  // ----- the example -----

  lemma FibonacciHalts(n: i64)
    ensures HaltsAt(Program(n), 7 * ToU64(n) + 6)
  {
    FibonacciProgram(n);
    hide Run, Program, Init, Fib;
  }

  /** examples/fib.wai is traced to OK for the counts up to 142856, read
      unsigned, and cut off for the others. */
  lemma FibonacciVerdict(n: i64)
    ensures Verdict(Run(Program(n), Init(), MAX_STEPS)) == Some(if ToU64(n) <= 142_856 then Ok else Unsupported)
  {
    hide Run, Program, Init, HaltsAt, Verdict;
    FibonacciHalts(n);
    LimitVerdict(Program(n), 7 * ToU64(n) + 6);
  }

  /** For every count u that C defines, which are those where the number after
      the u-th fits a register, the trace of the example returns OK after 7u + 6
      steps and one print. */
  method TraceFibonacci(n: i64) returns (r: Report)
    requires DefinedFor(Program(n), Init(), 7 * ToU64(n) + 6)
    ensures Fib(ToU64(n) + 1) < TWO_63
    ensures r.verdict == Ok && r.steps == 7 * ToU64(n) + 6 && r.prints == 1
  {
    hide Run, Program, Init, DefinedFor, Fib, HaltsAt;
    FibonacciDefined(n, 7 * ToU64(n) + 6);
    SmallCount(ToU64(n));
    FibonacciDefined(n, MAX_STEPS);
    FibonacciHalts(n);
    FibonacciProgram(n);
    r := TraceHalting(Program(n), 7 * ToU64(n) + 6);
  }

  // ----- a countdown -----

  /** `mov r0, k`, `sub r0, 1`, `jnz r0, 1` and `halt`, with a `nop` before the
      `halt` if `late`. */
  function Countdown(k: i64, late: bool): (code: seq<Instr>)
    ensures 4 <= |code| <= 5
  {
    [Instr(1, 0, 0, 0, k), Instr(5, 0, 0, 0, 1), Instr(13, 0, 0, 0, 1)]
    + (if late then [Instr(28, 0, 0, 0, 0)] else []) + [Instr(15, 0, 0, 0, 0)]
  }

  /** Where the countdown from k is after t steps. */
  predicate Counted(s: State, k: nat, t: nat) {
    && !s.halted
    && if t == 0 then s.ip == 0
       else if t % 2 == 0 then s.ip == 2 && s.regs[0] == k - t / 2
       else s.regs[0] == k - t / 2 && s.ip == if t / 2 < k then 1 else 3
  }

  lemma CountdownStep(k: i64, late: bool, s: State, t: nat)
    requires k >= 1 && t <= 2 * k && Counted(s, k, t)
    ensures Step(Countdown(k, late), s).Next? && Counted(Step(Countdown(k, late), s).s, k, t + 1)
    ensures StepDefined(Countdown(k, late), s)
  {
    if t > 0 {
      WrapExact(s.regs[0] as int - 1);
    }
    hide Wrap, LoadWord, StoreWord, TruncDiv, TruncMod, Bitwise64, Shl64, Shr64, Product;
  }

  lemma {:induction false} CountdownRuns(k: i64, late: bool, t: nat)
    requires k >= 1 && t <= 2 * k + 1
    ensures Run(Countdown(k, late), Init(), t).Next? && Counted(Run(Countdown(k, late), Init(), t).s, k, t)
    ensures DefinedFor(Countdown(k, late), Init(), t)
    decreases t
  {
    hide Step, StepDefined, Countdown;
    if t > 0 {
      CountdownRuns(k, late, t - 1);
      CountdownStep(k, late, Run(Countdown(k, late), Init(), t - 1).s, t - 1);
    }
  }

  /** The instructions behind the loop. */
  lemma CountdownLast(k: i64, late: bool, s: State)
    requires !s.halted && 3 <= s.ip < |Countdown(k, late)|
    ensures Step(Countdown(k, late), s) == Next(s.(ip := s.ip + 1, halted := s.ip == 4 || !late))
    ensures StepDefined(Countdown(k, late), s)
  {
    hide LoadWord, StoreWord, TruncDiv, TruncMod, Bitwise64, Shl64, Shr64, Product;
  }

  /** The countdown from k halts with step 2k + 2, or one later. */
  lemma CountdownHalts(k: i64, late: bool)
    requires k >= 1
    ensures HaltsAt(Countdown(k, late), 2 * k + if late then 3 else 2)
    ensures DefinedFor(Countdown(k, late), Init(), 2 * k + if late then 3 else 2)
  {
    hide Step, StepDefined, Init;
    var p, m := Countdown(k, late), 2 * k + 1;
    CountdownRuns(k, late, m);
    var s := Run(p, Init(), m).s;
    CountdownLast(k, late, s);
    var t := Step(p, s).s;
    assert Run(p, Init(), m + 1) == Next(t);
    if late {
      CountdownLast(k, late, t);
      assert Run(p, Init(), m + 2) == Step(p, t);
    }
    hide Countdown;
  }

  lemma HaltedStaysDefined(code: seq<Instr>, n: nat, m: nat)
    requires HaltsAt(code, n) && DefinedFor(code, Init(), n)
    ensures DefinedFor(code, Init(), m)
  {
    hide Run, StepDefined, HaltsAt;
    forall k | 0 <= k < m && k >= n
      ensures Run(code, Init(), k).Next? ==> StepDefined(code, Run(code, Init(), k).s)
    {
      HaltsOnce(code, n, k);
      HaltedHere(code, n);
      HaltedIsDefined(code, Run(code, Init(), n).s);
    }
  }

  lemma HaltedHere(code: seq<Instr>, n: nat)
    requires HaltsAt(code, n)
    ensures Run(code, Init(), n).Next? && Run(code, Init(), n).s.halted
  {
  }

  /** On either side of the limit: halting with step 1_000_000, as the countdown
      from 499_999 does, is OK; one step later, it is UNSUPPORTED. */
  method TraceCountdown(k: i64, late: bool) returns (r: Report)
    requires k >= 1
    ensures r.verdict == if k < 499_999 || (k == 499_999 && !late) then Ok else Unsupported
    ensures k == 499_999 ==> r.steps == 1_000_000
  {
    hide Countdown, HaltsAt, DefinedFor, Init;
    ghost var n := 2 * k + if late then 3 else 2;
    CountdownHalts(k, late);
    HaltedStaysDefined(Countdown(k, late), n, MAX_STEPS);
    r := TraceHalting(Countdown(k, late), n);
  }
}
