/** examples/fib.wai as a program of the machine: what it prints and how long it
    runs, for every initial count. */
module Fibonacci {
  import opened Words
  import opened Isa
  import opened Machine

  function Fib(n: nat): nat {
    if n < 2 then n else Fib(n - 2) + Fib(n - 1)
  }

  /** The twelve instructions of the example, with `n` as the count. */
  function Program(n: i64): (p: seq<Instr>)
    ensures |p| == 12
  {
    [ Instr(1, 0, 0, 0, n),     // 0        mov r0, n
      Instr(1, 1, 0, 0, 0),     // 1        mov r1, 0
      Instr(1, 2, 0, 0, 1),     // 2        mov r2, 1
      Instr(12, 0, 0, 0, 10),   // 3  loop: jz r0, done
      Instr(2, 3, 1, 0, 0),     // 4        mov r3, r1
      Instr(4, 3, 2, 0, 0),     // 5        add r3, r2
      Instr(2, 1, 2, 0, 0),     // 6        mov r1, r2
      Instr(2, 2, 3, 0, 0),     // 7        mov r2, r3
      Instr(5, 0, 0, 0, 1),     // 8        sub r0, 1
      Instr(11, 0, 0, 0, 3),    // 9        jmp loop
      Instr(14, 1, 0, 0, 0),    // 10 done: print r1
      Instr(15, 0, 0, 0, 0) ]   // 11       halt
  }

  /** One step of the program, by instruction index. */
  lemma StepAt(n: i64, s: State)
    requires !s.halted && s.ip < 12
    ensures var t := s.(ip := s.ip + 1);
      Step(Program(n), s) ==
        if s.ip == 0 then Next(SetReg(t, 0, n))
        else if s.ip == 1 then Next(SetReg(t, 1, 0))
        else if s.ip == 2 then Next(SetReg(t, 2, 1))
        else if s.ip == 3 then (if s.regs[0] == 0 then Next(s.(ip := 10)) else Next(t))
        else if s.ip == 4 then Next(SetReg(t, 3, s.regs[1]))
        else if s.ip == 5 then Next(SetReg(t, 3, Wrap(s.regs[3] as int + s.regs[2] as int)))
        else if s.ip == 6 then Next(SetReg(t, 1, s.regs[2]))
        else if s.ip == 7 then Next(SetReg(t, 2, s.regs[3]))
        else if s.ip == 8 then Next(SetReg(t, 0, Wrap(s.regs[0] as int - 1)))
        else if s.ip == 9 then Next(s.(ip := 3))
        else if s.ip == 10 then Next(t.(printed := t.printed + [s.regs[1]]))
        else Next(t.(halted := true))
  {
    hide Wrap, LoadWord, StoreWord, TruncDiv, TruncMod, Bitwise64, Shl64, Shr64, Product;
  }

  lemma WrapSum(x: int, y: int)
    ensures Wrap(Wrap(x) as int + Wrap(y) as int) == Wrap(x + y)
  {
    var i := WrapWrap(x);
    var j := WrapWrap(y);
    WrapCongruent(Wrap(x) as int + Wrap(y) as int, x + y, i + j);
  }

  /** The countdown reaches zero only when all u turns are done. */
  lemma CountdownZero(u: int)
    requires 0 <= u < TWO_64
    ensures Wrap(u) == 0 <==> u == 0
  {
    WrapWord(u);
  }

  /** At `loop` after k turns of a run whose count is u. */
  predicate AtLoop(s: State, u: u64, k: nat) {
    && k <= u
    && s.ip == 3 && !s.halted && s.printed == []
    && s.regs[0] == Wrap(u - k) && s.regs[1] == Wrap(Fib(k)) && s.regs[2] == Wrap(Fib(k + 1))
  }

  /** The first four steps of a turn: on past `jz`, and the next number in r3. */
  lemma TurnFirst(n: i64, s: State, u: u64, k: nat) returns (s1: State, s2: State, s3: State, s4: State)
    requires AtLoop(s, u, k) && k < u
    ensures Step(Program(n), s) == Next(s1) && Step(Program(n), s1) == Next(s2)
    ensures Step(Program(n), s2) == Next(s3) && Step(Program(n), s3) == Next(s4)
    ensures !s.halted && !s1.halted && !s2.halted && !s3.halted && !s4.halted
    ensures s.ip == 3 && s1.ip == 4 && s2.ip == 5 && s3.ip == 6 && s4.ip == 7
    ensures s2.regs[3] == Wrap(Fib(k)) && s2.regs[2] == Wrap(Fib(k + 1))
    ensures s4.printed == [] && s4.regs[0] == Wrap(u - k)
    ensures s4.regs[1] == s4.regs[2] == Wrap(Fib(k + 1)) && s4.regs[3] == Wrap(Fib(k + 2))
  {
    hide Step, Program, Wrap, Fib;
    CountdownZero(u - k);
    StepAt(n, s);
    s1 := s.(ip := 4);
    StepAt(n, s1);
    s2 := SetReg(s1.(ip := 5), 3, s.regs[1]);
    StepAt(n, s2);
    WrapSum(Fib(k), Fib(k + 1));
    FibNext(k);
    s3 := SetReg(s2.(ip := 6), 3, Wrap(Fib(k + 2)));
    StepAt(n, s3);
    s4 := SetReg(s3.(ip := 7), 1, Wrap(Fib(k + 1)));
  }

  /** The last three steps of a turn: the next pair, and the count. */
  lemma TurnLast(n: i64, s4: State, u: u64, k: nat) returns (s5: State, s6: State, t: State)
    requires k < u && s4.ip == 7 && !s4.halted && s4.printed == [] && s4.regs[0] == Wrap(u - k)
    requires s4.regs[1] == Wrap(Fib(k + 1)) && s4.regs[3] == Wrap(Fib(k + 2))
    ensures Step(Program(n), s4) == Next(s5) && Step(Program(n), s5) == Next(s6) && Step(Program(n), s6) == Next(t)
    ensures !s5.halted && !s6.halted && s5.ip == 8 && s6.ip == 9
    ensures s5.regs[0] == Wrap(u - k) && AtLoop(t, u, k + 1)
  {
    hide Step, Program, Wrap, Fib;
    StepAt(n, s4);
    s5 := SetReg(s4.(ip := 8), 2, Wrap(Fib(k + 2)));
    StepAt(n, s5);
    WrapSum(u - k, -1);
    WrapExact(-1);
    s6 := SetReg(s5.(ip := 9), 0, Wrap(u - (k + 1)));
    StepAt(n, s6);
    t := s6.(ip := 3);
  }

  /** One turn of the loop: seven steps, one Fibonacci number further. */
  lemma Turn(n: i64, s: State, u: u64, k: nat) returns (t: State)
    requires AtLoop(s, u, k) && k < u
    ensures Run(Program(n), s, 7) == Next(t) && AtLoop(t, u, k + 1)
  {
    hide Step, Program, Wrap, Fib, AtLoop;
    var s1, s2, s3, s4 := TurnFirst(n, s, u, k);
    var s5, s6;
    s5, s6, t := TurnLast(n, s4, u, k);
    SevenSteps(Program(n), s, s1, s2, s3, s4, s5, s6, t);
  }

  lemma FibNext(k: nat)
    ensures Fib(k) + Fib(k + 1) == Fib(k + 2)
  {
  }

  lemma SevenSteps(p: seq<Instr>, s: State, s1: State, s2: State, s3: State, s4: State, s5: State, s6: State, t: State)
    requires Step(p, s) == Next(s1) && Step(p, s1) == Next(s2) && Step(p, s2) == Next(s3) && Step(p, s3) == Next(s4)
    requires Step(p, s4) == Next(s5) && Step(p, s5) == Next(s6) && Step(p, s6) == Next(t)
    ensures Run(p, s, 0) == Next(s) && Run(p, s, 1) == Next(s1) && Run(p, s, 2) == Next(s2) && Run(p, s, 3) == Next(s3)
    ensures Run(p, s, 4) == Next(s4) && Run(p, s, 5) == Next(s5) && Run(p, s, 6) == Next(s6) && Run(p, s, 7) == Next(t)
  {
    hide Step;
    assert Run(p, s, 0) == Next(s);
    assert Run(p, s, 1) == Next(s1);
    assert Run(p, s, 2) == Next(s2);
    assert Run(p, s, 3) == Next(s3);
    assert Run(p, s, 4) == Next(s4);
    assert Run(p, s, 5) == Next(s5);
    assert Run(p, s, 6) == Next(s6);
  }

  /** The three moves before the loop. */
  lemma Setup(n: i64) returns (t: State)
    ensures Run(Program(n), Init(), 3) == Next(t) && AtLoop(t, ToU64(n), 0)
  {
    hide Step, Program;
    var p, s := Program(n), Init();
    StepAt(n, s);
    var s1 := SetReg(s.(ip := 1), 0, n);
    StepAt(n, s1);
    var s2 := SetReg(s1.(ip := 2), 1, 0);
    StepAt(n, s2);
    t := SetReg(s2.(ip := 3), 2, 1);
    WrapWord(ToU64(n));
    WrapExact(0);
    WrapExact(1);
    assert Run(p, s, 0) == Next(s);
    assert Run(p, s, 1) == Next(s1);
    assert Run(p, s, 2) == Next(s2);
  }

  lemma {:induction false} Turns(n: i64, k: nat) returns (t: State)
    requires k <= ToU64(n)
    ensures Run(Program(n), Init(), 3 + 7 * k) == Next(t) && AtLoop(t, ToU64(n), k)
    decreases k
  {
    hide Step, Program, Init;
    if k == 0 {
      t := Setup(n);
    } else {
      var s := Turns(n, k - 1);
      t := Turn(n, s, ToU64(n), k - 1);
      RunSplit(Program(n), Init(), 3 + 7 * (k - 1), 7);
    }
  }

  /** The last three steps: leave the loop, print, halt. */
  lemma Finale(n: i64, s: State)
    requires s.ip == 3 && !s.halted && s.regs[0] == 0
    ensures Run(Program(n), s, 2) == Next(s.(ip := 11, printed := s.printed + [s.regs[1]]))
    ensures Run(Program(n), s, 3) == Next(s.(ip := 12, printed := s.printed + [s.regs[1]], halted := true))
  {
    hide Step, Program;
    var p := Program(n);
    StepAt(n, s);
    var s1 := s.(ip := 10);
    StepAt(n, s1);
    var s2 := s.(ip := 11, printed := s.printed + [s.regs[1]]);
    StepAt(n, s2);
    assert Run(p, s, 0) == Next(s);
    assert Run(p, s, 1) == Next(s1);
    assert Run(p, s, 2) == Next(s2);
  }

  /** The machine has halted without error, having printed just x. */
  predicate HaltedPrinting(o: Outcome, x: i64) {
    o.Next? && o.s.halted && o.s.printed == [x]
  }

  /** Started with any 64-bit count n, read unsigned as u, the program prints
      the u-th Fibonacci number reduced to 64 bits, once, and halts after
      exactly 7u + 6 steps. */
  lemma FibonacciProgram(n: i64)
    ensures var u: int := ToU64(n);
      && Going(Run(Program(n), Init(), 7 * u + 5))
      && HaltedPrinting(Run(Program(n), Init(), 7 * u + 6), Wrap(Fib(u)))
  {
    hide Step, Program, Init;
    var u: int := ToU64(n);
    var s := Turns(n, u);
    CountdownZero(0);
    Finale(n, s);
    RunSplit(Program(n), Init(), 3 + 7 * u, 2);
    RunSplit(Program(n), Init(), 3 + 7 * u, 3);
  }

  // ----- where C defines it -----

  /** Two instructions of the program can overflow. */
  lemma DefinedHere(n: i64, s: State)
    requires !s.halted && s.ip < 12
    ensures StepDefined(Program(n), s) <==>
      && (s.ip == 5 ==> Fits(s.regs[3] as int + s.regs[2] as int))
      && (s.ip == 8 ==> Fits(s.regs[0] as int - 1))
  {
    hide Wrap, LoadWord, StoreWord, TruncDiv, TruncMod, Bitwise64, Shl64, Shr64, Product;
  }

  lemma DefinedSplit(code: seq<Instr>, s: State, m: nat, n: nat)
    requires Run(code, s, m).Next?
    ensures DefinedFor(code, s, m + n) <==> DefinedFor(code, s, m) && DefinedFor(code, Run(code, s, m).s, n)
  {
    hide Run, StepDefined;
    forall j | 0 <= j < n
      ensures Run(code, s, m + j) == Run(code, Run(code, s, m).s, j)
    {
      RunSplit(code, s, m, j);
    }
    if DefinedFor(code, s, m) && DefinedFor(code, Run(code, s, m).s, n) {
      forall k | 0 <= k < m + n && Run(code, s, k).Next?
        ensures StepDefined(code, Run(code, s, k).s)
      {
        if k >= m {
          assert Run(code, s, m + (k - m)) == Run(code, Run(code, s, m).s, k - m);
        }
      }
    }
    if DefinedFor(code, s, m + n) {
      DefinedForLess(code, s, m, m + n);
    }
  }

  lemma SetupDefined(n: i64)
    ensures DefinedFor(Program(n), Init(), 3)
  {
    hide Step, Program, StepDefined;
    var p, s := Program(n), Init();
    StepAt(n, s);
    DefinedHere(n, s);
    var s1 := SetReg(s.(ip := 1), 0, n);
    StepAt(n, s1);
    DefinedHere(n, s1);
    var s2 := SetReg(s1.(ip := 2), 1, 0);
    DefinedHere(n, s2);
    assert Run(p, s, 0) == Next(s);
    assert Run(p, s, 1) == Next(s1);
    assert Run(p, s, 2) == Next(s2);
  }

  /** A turn is defined if the next number fits, and the count does not wrap. */
  lemma TurnDefined(n: i64, s: State, u: u64, k: nat)
    requires AtLoop(s, u, k) && k < u
    ensures DefinedFor(Program(n), s, 7) <==>
      Fits(Wrap(Fib(k)) as int + Wrap(Fib(k + 1)) as int) && Fits(Wrap(u - k) as int - 1)
  {
    hide Step, Program, Wrap, Fib, AtLoop, StepDefined, Fits, Run;
    var s1, s2, s3, s4 := TurnFirst(n, s, u, k);
    var s5, s6, t := TurnLast(n, s4, u, k);
    SevenSteps(Program(n), s, s1, s2, s3, s4, s5, s6, t);
    DefinedHere(n, s);
    DefinedHere(n, s1);
    DefinedHere(n, s2);
    DefinedHere(n, s3);
    DefinedHere(n, s4);
    DefinedHere(n, s5);
    DefinedHere(n, s6);
    if DefinedFor(Program(n), s, 7) {
      assert StepDefined(Program(n), Run(Program(n), s, 2).s);
      assert StepDefined(Program(n), Run(Program(n), s, 5).s);
    }
  }

  lemma {:induction false} FibGrows(j: nat, k: nat)
    requires j <= k
    ensures Fib(j) <= Fib(k)
    decreases k
  {
    if j < k {
      FibGrows(j, k - 1);
      if k >= 2 {
        FibNext(k - 2);
      }
    }
  }

  /** The first k turns are defined as long as the numbers fit. */
  lemma {:induction false} TurnsDefined(n: i64, k: nat)
    requires k <= ToU64(n) < TWO_63 && Fib(k + 1) < TWO_63
    ensures DefinedFor(Program(n), Init(), 3 + 7 * k)
    decreases k
  {
    hide Step, Program, Init, Run, StepDefined, DefinedFor, AtLoop;
    if k == 0 {
      SetupDefined(n);
    } else {
      FibGrows(k, k + 1);
      TurnsDefined(n, k - 1);
      var s := Turns(n, k - 1);
      TurnDefined(n, s, ToU64(n), k - 1);
      TurnFits(ToU64(n), k - 1);
      DefinedSplit(Program(n), Init(), 3 + 7 * (k - 1), 7);
    }
  }

  lemma TurnFits(u: int, k: nat)
    requires k < u < TWO_63 && Fib(k + 2) < TWO_63
    ensures Fits(Wrap(Fib(k)) as int + Wrap(Fib(k + 1)) as int) && Fits(Wrap(u - k) as int - 1)
  {
    FibNext(k);
    hide Fib, Wrap;
    WrapExact(Fib(k));
    WrapExact(Fib(k + 1));
    WrapExact(u - k);
  }

  /** The least index past u whose number does not fit belongs to a turn that
      overflows. */
  lemma {:induction false} TurnOverflows(n: i64, k: nat)
    requires k <= ToU64(n) && Fib(k + 1) >= TWO_63
    ensures !DefinedFor(Program(n), Init(), 3 + 7 * k)
    decreases k
  {
    hide Step, Program, Init, Run, StepDefined, DefinedFor, AtLoop;
    if Fib(k) >= TWO_63 {
      TurnOverflows(n, k - 1);
      DefinedForMore(Program(n), 3 + 7 * (k - 1), 3 + 7 * k);
    } else {
      FibNext(k - 1);
      FibGrows(k - 1, k);
      var s := Turns(n, k - 1);
      hide Fib, Wrap;
      WrapExact(Fib(k - 1));
      WrapExact(Fib(k));
      TurnDefined(n, s, ToU64(n), k - 1);
      DefinedSplit(Program(n), Init(), 3 + 7 * (k - 1), 7);
    }
  }

  lemma DefinedForMore(code: seq<Instr>, m: nat, n: nat)
    requires m <= n && !DefinedFor(code, Init(), m)
    ensures !DefinedFor(code, Init(), n)
  {
    if DefinedFor(code, Init(), n) {
      DefinedForLess(code, Init(), m, n);
    }
  }

  lemma FinaleDefined(n: i64, s: State, m: nat)
    requires s.ip == 3 && !s.halted && s.regs[0] == 0
    ensures DefinedFor(Program(n), s, m)
  {
    hide Step, Program, StepDefined;
    var p := Program(n);
    StepAt(n, s);
    DefinedHere(n, s);
    var s1 := s.(ip := 10);
    StepAt(n, s1);
    DefinedHere(n, s1);
    var s2 := s.(ip := 11, printed := s.printed + [s.regs[1]]);
    DefinedHere(n, s2);
    Finale(n, s);
    assert Run(p, s, 0) == Next(s);
    assert Run(p, s, 1) == Next(s1);
    forall k | 3 <= k < m
      ensures Run(p, s, k) == Run(p, s, 3) && StepDefined(p, Run(p, s, 3).s)
    {
      RunOver(p, s, 3, k);
      HaltedIsDefined(p, Run(p, s, 3).s);
    }
    hide Run;
  }

  lemma HaltedIsDefined(code: seq<Instr>, s: State)
    requires s.halted
    ensures StepDefined(code, s)
  {
  }

  lemma {:induction false} FibDoubles(k: nat)
    ensures Fib(2 * k + 1) >= Pow2(k)
  {
    if k > 0 {
      FibDoubles(k - 1);
      FibNext(2 * k - 1);
      FibGrows(2 * k - 1, 2 * k);
    }
  }

  lemma FibLarge(u: nat, k: nat)
    requires u >= 2 * k
    ensures Fib(u + 1) >= Pow2(k)
  {
    FibDoubles(k);
    FibGrows(2 * k + 1, u + 1);
  }

  /** A count whose next number fits a register is small. */
  lemma SmallCount(u: nat)
    requires Fib(u + 1) < TWO_63
    ensures u < 128
  {
    hide Fib;
    if u >= 128 {
      FibLarge(u, 64);
      Pow2At64();
      assert false;
    }
  }

  /** C defines the run, however far it is followed, exactly if the number after
      the one it prints fits a register. */
  lemma FibonacciDefined(n: i64, m: nat)
    requires m >= 7 * ToU64(n) + 6
    ensures DefinedFor(Program(n), Init(), m) <==> Fib(ToU64(n) + 1) < TWO_63
  {
    hide Step, Program, Init, Run, StepDefined, DefinedFor, Fib;
    var u: nat := ToU64(n);
    if Fib(u + 1) < TWO_63 {
      SmallCount(u);
      TurnsDefined(n, u);
      var s := Turns(n, u);
      CountdownZero(0);
      FinaleDefined(n, s, m - (3 + 7 * u));
      DefinedSplit(Program(n), Init(), 3 + 7 * u, m - (3 + 7 * u));
    } else {
      TurnOverflows(n, u);
      DefinedForMore(Program(n), 3 + 7 * u, m);
    }
  }
}
