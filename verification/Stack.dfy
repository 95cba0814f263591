/** The stack that shares memory with STORE: what it holds as a sequence, how
    each instruction moves it over a run, and where a RET lands. */
module Stack {
  import opened Words
  import opened Isa
  import opened Machine
  import opened Safety

  // ----- the words above sp -----

  predicate Aligned(s: State) {
    s.sp % 8 == 0
  }

  /** The words of memory from address `a` to the end, lowest first. */
  function WordsFrom(memory: seq<byte>, a: nat): (w: seq<i64>)
    requires |memory| == MEMORY_SIZE && a <= MEMORY_SIZE && a % 8 == 0
    ensures 8 * |w| == MEMORY_SIZE - a
    decreases MEMORY_SIZE - a
  {
    if a == MEMORY_SIZE then [] else [LoadWord(memory, a)] + WordsFrom(memory, a + 8)
  }

  /** The stack, top first. */
  function StackOf(s: State): seq<i64>
    requires Aligned(s)
  {
    WordsFrom(s.memory, s.sp)
  }

  lemma Suffix(s: seq<byte>, a: nat, n: nat)
    requires a + n <= |s|
    ensures s[a..a + n] == s[a..][..n]
    ensures s[a + n..] == s[a..][n..]
  {
  }

  lemma WordFrame(m: seq<byte>, m': seq<byte>, a: nat)
    requires |m| == |m'| == MEMORY_SIZE && ValidAddress(a)
    requires m[a..a + 8] == m'[a..a + 8]
    ensures LoadWord(m, a) == LoadWord(m', a)
  {
  }

  lemma TopWord(m: seq<byte>, sp: nat)
    requires |m| == MEMORY_SIZE && sp <= LAST_ADDRESS && sp % 8 == 0
    ensures WordsFrom(m, sp) == [LoadWord(m, sp)] + WordsFrom(m, sp + 8)
  {
    hide LoadWord;
  }

  lemma NoWords(memory: seq<byte>)
    requires |memory| == MEMORY_SIZE
    ensures WordsFrom(memory, MEMORY_SIZE) == []
  {
  }

  lemma {:induction false} WordsFrame(m: seq<byte>, m': seq<byte>, a: nat)
    requires |m| == |m'| == MEMORY_SIZE && a <= MEMORY_SIZE && a % 8 == 0
    requires m[a..] == m'[a..]
    ensures WordsFrom(m, a) == WordsFrom(m', a)
    decreases MEMORY_SIZE - a
  {
    hide LoadWord, WordsFrom;
    if a == MEMORY_SIZE {
      NoWords(m);
      NoWords(m');
    } else {
      assert a <= LAST_ADDRESS;
      Suffix(m, a, 8);
      Suffix(m', a, 8);
      WordsFrame(m, m', a + 8);
      WordFrame(m, m', a);
      TopWord(m, a);
      TopWord(m', a);
    }
  }

  lemma PushedWords(m: seq<byte>, sp: nat, x: i64)
    requires |m| == MEMORY_SIZE && 8 <= sp <= MEMORY_SIZE && sp % 8 == 0
    ensures WordsFrom(StoreWord(m, sp - 8, x), sp - 8) == [x] + WordsFrom(m, sp)
  {
    var m' := StoreWord(m, sp - 8, x);
    LoadStored(m, sp - 8, x);
    assert m'[sp..] == m[sp..];
    WordsFrame(m, m', sp);
  }

  lemma StoreBelow(m: seq<byte>, a: nat, x: i64, sp: nat)
    requires |m| == MEMORY_SIZE && ValidAddress(a) && a + 8 <= sp <= MEMORY_SIZE && sp % 8 == 0
    ensures WordsFrom(StoreWord(m, a, x), sp) == WordsFrom(m, sp)
  {
    var m' := StoreWord(m, a, x);
    assert m'[sp..] == m[sp..];
    WordsFrame(m, m', sp);
  }

  lemma WordsAbove(m: seq<byte>, a: nat, x: i64)
    requires |m| == MEMORY_SIZE && ValidAddress(a) && a % 8 == 0
    ensures WordsFrom(StoreWord(m, a, x), a + 8) == WordsFrom(m, a + 8)
  {
    StoreBelow(m, a, x, a + 8);
  }

  /** An aligned store inside the stack replaces exactly one of its words. */
  lemma {:induction false} StoreInside(m: seq<byte>, a: nat, x: i64, sp: nat)
    requires |m| == MEMORY_SIZE && ValidAddress(a) && a % 8 == 0
    requires sp <= a && sp % 8 == 0
    ensures WordsFrom(StoreWord(m, a, x), sp) == WordsFrom(m, sp)[(a - sp) / 8 := x]
    decreases a - sp
  {
    hide LoadWord, StoreWord, WordsFrom;
    var m' := StoreWord(m, a, x);
    TopWord(m, sp);
    TopWord(m', sp);
    if sp == a {
      LoadStored(m, a, x);
      WordsAbove(m, a, x);
    } else {
      StoreInside(m, a, x, sp + 8);
      LoadFrame(m, a, x, sp);
      assert (a - sp) / 8 == (a - (sp + 8)) / 8 + 1;
    }
  }

  // ----- one step -----

  predicate At(code: seq<Instr>, s: State, op: Op) {
    !s.halted && s.ip < |code| && Decode(code[s.ip].opcode) == Some(op) && RegistersOk(op, code[s.ip])
  }

  /** A STORE about to run leaves every address from `floor` up alone. */
  predicate StoreClear(code: seq<Instr>, s: State, floor: nat) {
    forall src :: At(code, s, Store(src)) && ValidAddress(Operand(s, src, code[s.ip])) ==>
      Operand(s, src, code[s.ip]) + 8 <= floor
  }

  /** A STORE about to run stays below the stack or hits one of its words. */
  predicate StoreTame(code: seq<Instr>, s: State) {
    forall src :: At(code, s, Store(src)) && ValidAddress(Operand(s, src, code[s.ip])) ==>
      Operand(s, src, code[s.ip]) + 8 <= s.sp || Operand(s, src, code[s.ip]) % 8 == 0
  }

  /** What an operation makes of the stack, s being past its instruction, told
      from the registers, ip and the stack alone. */
  function Moved(s: State, op: Op, ins: Instr, stack: seq<i64>): seq<i64>
    requires RegistersOk(op, ins)
  {
    match op
    case Push => [s.regs[ins.a]] + stack
    case Call => [Wrap(s.ip)] + stack
    case Pop => if stack == [] then stack else stack[1..]
    case Ret => if stack == [] then stack else stack[1..]
    case Store(src) => Poked(stack, Operand(s, src, ins), s.regs[ins.a])
    case _ => stack
  }

  /** The stack with x for its word at address `a`, if it has one. */
  function Poked(stack: seq<i64>, a: i64, x: i64): seq<i64> {
    var base: int := MEMORY_SIZE - 8 * |stack|;
    if a % 8 == 0 && base <= a <= LAST_ADDRESS then stack[(a - base) / 8 := x] else stack
  }

  /** The stack after the instruction at s. */
  function StackEffect(code: seq<Instr>, s: State, stack: seq<i64>): seq<i64> {
    if s.halted || s.ip >= |code| then stack
    else
      var ins := code[s.ip];
      match Decode(ins.opcode)
      case None => stack
      case Some(op) => if RegistersOk(op, ins) then Moved(s.(ip := s.ip + 1), op, ins, stack) else stack
  }

  /** Whatever is no stack operation and no STORE leaves sp and memory alone. */
  lemma LeavesMemory(count: nat, s: State, op: Op, ins: Instr)
    requires RegistersOk(op, ins) && Perform(count, s, op, ins).Next?
    requires op !in {Push, Pop, Call, Ret} && !op.Store?
    ensures Perform(count, s, op, ins).s.sp == s.sp
    ensures Perform(count, s, op, ins).s.memory == s.memory
  {
    hide AluValue, LoadWord, StoreWord, PerformPop, PerformCall, PerformRet, PerformStore, PushWord;
  }

  lemma StorePokes(m: seq<byte>, a: i64, x: i64, sp: nat)
    requires |m| == MEMORY_SIZE && ValidAddress(a) && sp <= MEMORY_SIZE && sp % 8 == 0
    requires a + 8 <= sp || a % 8 == 0
    ensures WordsFrom(StoreWord(m, a, x), sp) == Poked(WordsFrom(m, sp), a, x)
  {
    hide StoreWord;
    if a + 8 <= sp {
      StoreBelow(m, a, x, sp);
    } else {
      StoreInside(m, a, x, sp);
    }
    hide WordsFrom;
  }

  /** The operation has taken s to t and moved the stack as it should. */
  predicate Moves(s: State, op: Op, ins: Instr, t: State)
    requires Aligned(s) && RegistersOk(op, ins)
  {
    && Aligned(t)
    && StackOf(t) == Moved(s, op, ins, StackOf(s))
    && (op == Pop ==> StackOf(s) != [] && t.regs[ins.a] == StackOf(s)[0])
    && (op == Ret ==> StackOf(s) != [] && t.ip == StackOf(s)[0])
  }

  lemma PushMoves(count: nat, s: State, op: Op, ins: Instr)
    requires Aligned(s) && RegistersOk(op, ins) && Perform(count, s, op, ins).Next?
    requires op == Push
    ensures Moves(s, op, ins, Perform(count, s, op, ins).s)
  {
    hide StoreWord, WordsFrom;
    PushedWords(s.memory, s.sp, s.regs[ins.a]);
  }

  lemma CallMoves(count: nat, s: State, op: Op, ins: Instr)
    requires Aligned(s) && RegistersOk(op, ins) && Perform(count, s, op, ins).Next?
    requires op == Call
    ensures Moves(s, op, ins, Perform(count, s, op, ins).s)
  {
    hide StoreWord, WordsFrom, Wrap;
    PushedWords(s.memory, s.sp, Wrap(s.ip));
  }

  lemma PopMoves(count: nat, s: State, op: Op, ins: Instr)
    requires Aligned(s) && RegistersOk(op, ins) && Perform(count, s, op, ins).Next?
    requires op == Pop
    ensures Moves(s, op, ins, Perform(count, s, op, ins).s)
  {
    hide LoadWord, WordsFrom;
    TopWord(s.memory, s.sp);
  }

  lemma RetMoves(count: nat, s: State, op: Op, ins: Instr)
    requires Aligned(s) && RegistersOk(op, ins) && Perform(count, s, op, ins).Next?
    requires op == Ret
    ensures Moves(s, op, ins, Perform(count, s, op, ins).s)
  {
    hide LoadWord, WordsFrom;
    TopWord(s.memory, s.sp);
  }

  lemma StoreMoves(count: nat, s: State, op: Op, ins: Instr)
    requires Aligned(s) && RegistersOk(op, ins) && Perform(count, s, op, ins).Next?
    requires op.Store? && (Operand(s, op.src, ins) + 8 <= s.sp || Operand(s, op.src, ins) % 8 == 0)
    ensures Moves(s, op, ins, Perform(count, s, op, ins).s)
  {
    hide StoreWord, WordsFrom, Poked;
    StorePokes(s.memory, Operand(s, op.src, ins), s.regs[ins.a], s.sp);
  }

  lemma PerformMoves(count: nat, s: State, op: Op, ins: Instr)
    requires Aligned(s) && RegistersOk(op, ins) && Perform(count, s, op, ins).Next?
    requires op.Store? ==> Operand(s, op.src, ins) + 8 <= s.sp || Operand(s, op.src, ins) % 8 == 0
    ensures Moves(s, op, ins, Perform(count, s, op, ins).s)
  {
    hide Perform, WordsFrom;
    match op
    case Push => PushMoves(count, s, op, ins);
    case Call => CallMoves(count, s, op, ins);
    case Pop => PopMoves(count, s, op, ins);
    case Ret => RetMoves(count, s, op, ins);
    case Store(_) => StoreMoves(count, s, op, ins);
    case _ => LeavesMemory(count, s, op, ins);
  }

  /** The effect on the stack is that of the one operation at s. */
  lemma EffectIs(code: seq<Instr>, s: State, op: Op, stack: seq<i64>)
    requires At(code, s, op)
    ensures StackEffect(code, s, stack) == Moved(s.(ip := s.ip + 1), op, code[s.ip], stack)
    ensures At(code, s, Pop) <==> op == Pop
    ensures At(code, s, Ret) <==> op == Ret
  {
    hide Decode;
  }

  /** A halted machine executes nothing. */
  lemma NoEffect(code: seq<Instr>, s: State, stack: seq<i64>)
    requires s.halted
    ensures StackEffect(code, s, stack) == stack && !At(code, s, Pop) && !At(code, s, Ret)
    ensures Step(code, s) == Next(s)
  {
  }

  /** PUSH and CALL extend the stack, POP and RET shrink it and deliver its top,
      STORE replaces the word it hits, and nothing else changes it. */
  lemma StackStep(code: seq<Instr>, s: State)
    requires Aligned(s) && Step(code, s).Next? && StoreTame(code, s)
    ensures var t := Step(code, s).s;
      && Aligned(t)
      && StackOf(t) == StackEffect(code, s, StackOf(s))
      && (At(code, s, Pop) ==> StackOf(s) != [] && t.regs[code[s.ip].a] == StackOf(s)[0])
      && (At(code, s, Ret) ==> StackOf(s) != [] && t.ip == StackOf(s)[0])
  {
    hide Step, Decode, WordsFrom, StackEffect, Moved, Perform, RegistersOk;
    if s.halted {
      NoEffect(code, s, StackOf(s));
    } else {
      GoodStep(code, s);
      var ins := code[s.ip];
      var op := Decode(ins.opcode).value;
      assert At(code, s, op);
      EffectIs(code, s, op, StackOf(s));
      if op.Store? {
        StoredValid(code, s, op.src);
      }
      PerformMoves(|code|, s.(ip := s.ip + 1), op, ins);
    }
  }

  /** A STORE that succeeds has a valid address. */
  lemma StoredValid(code: seq<Instr>, s: State, src: Source)
    requires At(code, s, Store(src)) && Step(code, s).Next? && StoreTame(code, s)
    ensures Operand(s, src, code[s.ip]) + 8 <= s.sp || Operand(s, src, code[s.ip]) % 8 == 0
  {
    AtExecutes(code, s, Store(src));
    hide Step, Decode, StoreWord;
  }

  lemma AtExecutes(code: seq<Instr>, s: State, op: Op)
    requires At(code, s, op)
    ensures Step(code, s) == Perform(|code|, s.(ip := s.ip + 1), op, code[s.ip])
  {
    hide Perform, Decode;
  }

  /** The number of words tells where sp is. */
  lemma WordsTell(s: State)
    requires Aligned(s)
    ensures |StackOf(s)| == 8192 <==> s.sp < 8
    ensures StackOf(s) == [] <==> s.sp > LAST_ADDRESS
  {
    hide LoadWord;
  }

  lemma PushLimit(code: seq<Instr>, s: State)
    requires Aligned(s) && At(code, s, Push)
    ensures Step(code, s).Stop? <==> |StackOf(s)| == 8192
    ensures Step(code, s).Stop? ==> Step(code, s).e == StackOverflow
  {
    AtExecutes(code, s, Push);
    WordsTell(s);
    hide Step, StackOf, Decode, LoadWord, StoreWord;
  }

  lemma CallLimit(code: seq<Instr>, s: State)
    requires Aligned(s) && At(code, s, Call) && 0 <= code[s.ip].imm < |code|
    ensures Step(code, s).Stop? <==> |StackOf(s)| == 8192
    ensures Step(code, s).Stop? ==> Step(code, s).e == StackOverflow
  {
    AtExecutes(code, s, Call);
    WordsTell(s);
    hide Step, StackOf, Decode, LoadWord, StoreWord;
  }

  lemma PopLimit(code: seq<Instr>, s: State)
    requires Aligned(s) && At(code, s, Pop)
    ensures Step(code, s).Stop? <==> StackOf(s) == []
    ensures Step(code, s).Stop? ==> Step(code, s).e == StackUnderflow
  {
    AtExecutes(code, s, Pop);
    WordsTell(s);
    hide Step, StackOf, Decode, LoadWord, StoreWord;
  }

  lemma RetLimit(code: seq<Instr>, s: State)
    requires Aligned(s) && At(code, s, Ret)
    ensures Step(code, s) == Stop(StackUnderflow, s.(ip := s.ip + 1)) <==> StackOf(s) == []
  {
    AtExecutes(code, s, Ret);
    WordsTell(s);
    hide Step, StackOf, Decode, LoadWord;
  }

  /** Overflow happens exactly at 8192 words, underflow exactly at none. */
  lemma StackLimits(code: seq<Instr>, s: State)
    requires Aligned(s)
    ensures At(code, s, Push) ==>
      (Step(code, s).Stop? <==> |StackOf(s)| == 8192) && (Step(code, s).Stop? ==> Step(code, s).e == StackOverflow)
    ensures At(code, s, Call) && 0 <= code[s.ip].imm < |code| ==>
      (Step(code, s).Stop? <==> |StackOf(s)| == 8192) && (Step(code, s).Stop? ==> Step(code, s).e == StackOverflow)
    ensures At(code, s, Pop) ==>
      (Step(code, s).Stop? <==> StackOf(s) == []) && (Step(code, s).Stop? ==> Step(code, s).e == StackUnderflow)
    ensures At(code, s, Ret) ==>
      (Step(code, s) == Stop(StackUnderflow, s.(ip := s.ip + 1)) <==> StackOf(s) == [])
  {
    hide Step, StackOf, Decode, RegistersOk;
    if At(code, s, Push) { PushLimit(code, s); }
    if At(code, s, Call) && 0 <= code[s.ip].imm < |code| { CallLimit(code, s); }
    if At(code, s, Pop) { PopLimit(code, s); }
    if At(code, s, Ret) { RetLimit(code, s); }
  }

  lemma AlignedStep(code: seq<Instr>, s: State)
    requires Aligned(s) && Step(code, s).Next?
    ensures Aligned(Step(code, s).s)
  {
    hide AluValue, LoadWord, StoreWord;
    if !s.halted {
      GoodStep(code, s);
    }
  }

  /** In every reachable state sp is a multiple of 8 within memory. */
  lemma {:induction false} AlignedRun(code: seq<Instr>, n: nat)
    requires Run(code, Init(), n).Next?
    ensures Aligned(Run(code, Init(), n).s) && 0 <= Run(code, Init(), n).s.sp <= MEMORY_SIZE
    decreases n
  {
    hide Step;
    if n > 0 {
      AlignedRun(code, n - 1);
      AlignedStep(code, Run(code, Init(), n - 1).s);
    }
  }

  // ----- whole runs against an abstract stack -----

  /** The stack a machine with a stack of its own would hold after n steps. */
  function AbstractStack(code: seq<Instr>, s: State, n: nat): seq<i64>
    requires Aligned(s) && Run(code, s, n).Next?
  {
    if n == 0 then StackOf(s)
    else StackEffect(code, Run(code, s, n - 1).s, AbstractStack(code, s, n - 1))
  }

  /** Each STORE of the first n steps stays below the stack or hits a word of it. */
  predicate StoresTame(code: seq<Instr>, s: State, n: nat) {
    forall k :: 0 <= k < n && Run(code, s, k).Next? ==> StoreTame(code, Run(code, s, k).s)
  }

  /** Where POP or RET is about to run, no STORE is. */
  lemma TakesTop(code: seq<Instr>, s: State)
    requires Aligned(s) && Step(code, s).Next? && (At(code, s, Pop) || At(code, s, Ret))
    ensures StackOf(s) != []
    ensures At(code, s, Pop) ==> Step(code, s).s.regs[code[s.ip].a] == StackOf(s)[0]
    ensures At(code, s, Ret) ==> Step(code, s).s.ip == StackOf(s)[0]
  {
    assert StoreTame(code, s);
    StackStep(code, s);
  }

  /** Over any run whose stores stay below the stack or replace whole words of
      it, the words from sp up are the abstract stack, and every POP and RET
      takes its top. */
  lemma {:induction false} StackRefinement(code: seq<Instr>, s: State, n: nat)
    requires Aligned(s) && Run(code, s, n).Next? && StoresTame(code, s, n)
    ensures Aligned(Run(code, s, n).s)
    ensures StackOf(Run(code, s, n).s) == AbstractStack(code, s, n)
    ensures var r := Run(code, s, n).s;
      (At(code, r, Pop) || At(code, r, Ret)) && Step(code, r).Next? ==>
        && AbstractStack(code, s, n) != []
        && (At(code, r, Pop) ==> Step(code, r).s.regs[code[r.ip].a] == AbstractStack(code, s, n)[0])
        && (At(code, r, Ret) ==> Step(code, r).s.ip == AbstractStack(code, s, n)[0])
    decreases n
  {
    hide Step, At, StoreTame;
    if n > 0 {
      StackRefinement(code, s, n - 1);
      StackStep(code, Run(code, s, n - 1).s);
    }
    var r := Run(code, s, n).s;
    if (At(code, r, Pop) || At(code, r, Ret)) && Step(code, r).Next? {
      TakesTop(code, r);
    }
  }

  // ----- call and return -----

  /** The run is still going inside the callee: sp has not risen above `floor`
      and the next STORE, if any, stays below it. */
  predicate Inside(code: seq<Instr>, o: Outcome, floor: nat) {
    o.Next? && o.s.sp <= floor && StoreClear(code, o.s, floor)
  }

  lemma FloorKept(code: seq<Instr>, s: State, floor: nat)
    requires floor <= MEMORY_SIZE
    requires s.sp <= floor && StoreClear(code, s, floor) && Step(code, s).Next?
    ensures Step(code, s).s.memory[floor..] == s.memory[floor..]
  {
    hide Decode, LoadWord, WordBytes;
    if !s.halted {
      GoodStep(code, s);
      hide Step;
      var ins := code[s.ip];
      var op := Decode(ins.opcode).value;
      if op !in {Push, Pop, Call, Ret} && !op.Store? {
        LeavesMemory(|code|, s.(ip := s.ip + 1), op, ins);
        hide Perform;
      } else {
        hide PerformAlu, PerformJump, PerformLoad;
        match op
        case Store(src) => assert At(code, s, Store(src));
        case _ =>
      }
    }
  }

  lemma {:induction false} FloorKeptRun(code: seq<Instr>, s: State, floor: nat, n: nat)
    requires floor <= MEMORY_SIZE && Run(code, s, n).Next?
    requires forall k :: 0 <= k < n ==> Inside(code, Run(code, s, k), floor)
    ensures Run(code, s, n).s.memory[floor..] == s.memory[floor..]
    decreases n
  {
    hide Step;
    if n > 0 {
      FloorKeptRun(code, s, floor, n - 1);
      assert Inside(code, Run(code, s, n - 1), floor);
      FloorKept(code, Run(code, s, n - 1).s, floor);
    }
  }

  /** A CALL that succeeded at s, then n steps inside the callee, then a RET
      with sp back where the CALL left it: control lands just after the CALL
      with the caller's sp, and everything from the return address up is as the
      CALL left it. A CALL at the very end has nowhere to come back to. */
  lemma CallReturn(code: seq<Instr>, s: State, n: nat)
    requires |code| <= TWO_63
    requires At(code, s, Call) && Step(code, s).Next?
    requires forall k :: 0 <= k < n ==> Inside(code, Run(code, Step(code, s).s, k), s.sp - 8)
    requires Run(code, Step(code, s).s, n).Next?
    requires At(code, Run(code, Step(code, s).s, n).s, Ret)
    requires Run(code, Step(code, s).s, n).s.sp == s.sp - 8
    ensures var c, r := Step(code, s).s, Run(code, Step(code, s).s, n).s;
      && Step(code, r) == (if s.ip + 1 < |code| then Next(r.(ip := s.ip + 1, sp := s.sp))
                           else Stop(BadJump, r.(ip := r.ip + 1, sp := s.sp)))
      && r.memory[s.sp - 8..] == c.memory[s.sp - 8..]
  {
    hide Step, Run, LoadWord, StoreWord;
    var c := Step(code, s).s;
    var r := Run(code, c, n).s;
    CallPushes(code, s);
    FloorKeptRun(code, c, s.sp - 8, n);
    ReturnsTo(code, r, c, Wrap(s.ip + 1));
    if s.ip + 1 < TWO_63 {
      WrapExact(s.ip + 1);
    }
  }

  lemma CallPushes(code: seq<Instr>, s: State)
    requires At(code, s, Call) && Step(code, s).Next?
    ensures s.sp >= 8
    ensures Step(code, s).s.memory == StoreWord(s.memory, s.sp - 8, Wrap(s.ip + 1))
    ensures LoadWord(Step(code, s).s.memory, s.sp - 8) == Wrap(s.ip + 1)
  {
    LoadStored(s.memory, s.sp - 8, Wrap(s.ip + 1));
    AtExecutes(code, s, Call);
    hide Step, Decode, LoadWord, StoreWord, Wrap;
  }

  lemma ReturnsTo(code: seq<Instr>, r: State, c: State, x: i64)
    requires At(code, r, Ret) && r.sp <= LAST_ADDRESS
    requires r.memory[r.sp..] == c.memory[r.sp..] && LoadWord(c.memory, r.sp) == x
    ensures Step(code, r) == JumpTo(|code|, r.(ip := r.ip + 1, sp := r.sp + 8), x)
  {
    Suffix(r.memory, r.sp, 8);
    Suffix(c.memory, r.sp, 8);
  }
}
