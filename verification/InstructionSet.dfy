/** The instruction set as docs/isa.md tells it: opcode by opcode number, what
    the next instruction leaves in the machine, in numbers. */
module InstructionSet {
  import opened Words
  import opened Isa
  import opened Machine
  import opened Verifier
  import opened Safety

  // ----- the next instruction and what it leaves -----

  /** The next instruction has this opcode, and its registers exist: a if it is
      used, b if it is. */
  predicate Fetches(code: seq<Instr>, s: State, opcode: byte, a: bool, b: bool) {
    && !s.halted && s.ip < |code| && code[s.ip].opcode == opcode
    && (a ==> code[s.ip].a < 8) && (b ==> code[s.ip].b < 8)
  }

  function X(code: seq<Instr>, s: State): i64
    requires s.ip < |code| && code[s.ip].a < 8
  {
    s.regs[code[s.ip].a]
  }

  /** The second operand: register b or the immediate. */
  function Y(code: seq<Instr>, s: State, b: bool): i64
    requires s.ip < |code| && (b ==> code[s.ip].b < 8)
  {
    if b then s.regs[code[s.ip].b] else code[s.ip].imm
  }

  /** Only ip moves, to the next index. */
  predicate Passes(code: seq<Instr>, s: State) {
    Step(code, s) == Next(s.(ip := s.ip + 1))
  }

  /** Register a takes v, the flag tells whether v is zero, ip moves on. */
  predicate Leaves(code: seq<Instr>, s: State, v: i64)
    requires s.ip < |code| && code[s.ip].a < 8
  {
    Step(code, s) == Next(s.(ip := s.ip + 1, regs := s.regs[code[s.ip].a := v], zf := v == 0))
  }

  /** The step fails, and nothing changes but ip. */
  predicate Fails(code: seq<Instr>, s: State, e: Error) {
    Step(code, s) == Stop(e, s.(ip := s.ip + 1))
  }

  /** ip is set to the target, or the target is refused. */
  predicate Jumps(code: seq<Instr>, s: State, target: int) {
    if 0 <= target < |code| then Step(code, s) == Next(s.(ip := target)) else Fails(code, s, BadJump)
  }

  /** Bit k of the 64 bits of x. */
  function BitOf(x: int, k: nat): nat {
    x % 0x1_0000_0000_0000_0000 / Pow2(k) % 2
  }

  /** The eight bytes of m from a on are those of x, the lowest first. */
  predicate HoldsWord(m: seq<byte>, a: nat, x: int)
    requires |m| == 65536 && a <= 65528
  {
    forall i :: 0 <= i < 8 ==> m[a + i] as int == x % 0x1_0000_0000_0000_0000 / Pow256(i) % 256
  }

  lemma Executes(code: seq<Instr>, s: State, op: Op)
    requires !s.halted && s.ip < |code| && Decode(code[s.ip].opcode) == Some(op) && RegistersOk(op, code[s.ip])
    ensures Step(code, s) == Perform(|code|, s.(ip := s.ip + 1), op, code[s.ip])
    ensures StepDefined(code, s) <==>
      (op.Alu? ==> AluDefined(op.alu, s.regs[code[s.ip].a], Operand(s, op.src, code[s.ip])))
  {
    DispatchTo(|code|, s.(ip := s.ip + 1), code[s.ip], op);
    hide Perform, Decode, Dispatch, AluDefined, Operand;
  }

  /** An ALU instruction, down to its value. */
  lemma ExecutesAlu(code: seq<Instr>, s: State, alu: AluOp, b: bool)
    requires !s.halted && s.ip < |code| && Decode(code[s.ip].opcode) == Some(Alu(alu, if b then Reg else Imm))
    requires code[s.ip].a < 8 && (b ==> code[s.ip].b < 8)
    ensures match AluValue(alu, X(code, s), Y(code, s, b))
      case Computed(v) => Leaves(code, s, v)
      case Fault(e) => Fails(code, s, e)
      case Overflowed => Step(code, s) == Trap
    ensures StepDefined(code, s) <==> AluDefined(alu, X(code, s), Y(code, s, b))
  {
    hide Decode, AluValue, AluDefined, Step, StepDefined;
    Executes(code, s, Alu(alu, if b then Reg else Imm));
  }

  // ----- moves and sums -----

  lemma MoveStep(code: seq<Instr>, s: State, b: bool)
    requires Fetches(code, s, if b then 2 else 1, true, b)
    ensures Leaves(code, s, Y(code, s, b)) && StepDefined(code, s)
  {
    assert Decode(code[s.ip].opcode) == Some(Alu(Mov, if b then Reg else Imm));
    hide Decode, Leaves, StepDefined, X, Y;
    ExecutesAlu(code, s, Mov, b);
  }

  /** r is what 64 bits keep of n. */
  predicate Keeps64(r: i64, n: int) {
    (n - r) % 0x1_0000_0000_0000_0000 == 0
  }

  lemma WrapKeeps(n: int)
    ensures Keeps64(Wrap(n), n)
  {
    var k := WrapWrap(n);
    assert n - Wrap(n) == -k * TWO_64 + 0;
    ModShift(0, -k);
  }

  /** ADD, SUB and MUL keep the low 64 bits of the exact result; C defines them
      where nothing is lost. */
  lemma AddStep(code: seq<Instr>, s: State, b: bool) returns (r: i64)
    requires Fetches(code, s, if b then 4 else 3, true, b)
    ensures Leaves(code, s, r) && Keeps64(r, X(code, s) + Y(code, s, b))
    ensures StepDefined(code, s) <==> -0x8000_0000_0000_0000 <= X(code, s) + Y(code, s, b) < 0x8000_0000_0000_0000
  {
    assert Decode(code[s.ip].opcode) == Some(Alu(Add, if b then Reg else Imm));
    hide Decode, Leaves, StepDefined, X, Y, Wrap;
    ExecutesAlu(code, s, Add, b);
    r := Wrap(X(code, s) + Y(code, s, b));
    WrapKeeps(X(code, s) + Y(code, s, b));
  }

  lemma SubtractStep(code: seq<Instr>, s: State, b: bool) returns (r: i64)
    requires Fetches(code, s, if b then 6 else 5, true, b)
    ensures Leaves(code, s, r) && Keeps64(r, X(code, s) - Y(code, s, b))
    ensures StepDefined(code, s) <==> -0x8000_0000_0000_0000 <= X(code, s) - Y(code, s, b) < 0x8000_0000_0000_0000
  {
    assert Decode(code[s.ip].opcode) == Some(Alu(Sub, if b then Reg else Imm));
    hide Decode, Leaves, StepDefined, X, Y, Wrap;
    ExecutesAlu(code, s, Sub, b);
    r := Wrap(X(code, s) - Y(code, s, b));
    WrapKeeps(X(code, s) - Y(code, s, b));
  }

  lemma MultiplyStep(code: seq<Instr>, s: State, b: bool) returns (r: i64)
    requires Fetches(code, s, if b then 8 else 7, true, b)
    ensures Leaves(code, s, r) && Keeps64(r, X(code, s) * Y(code, s, b))
    ensures StepDefined(code, s) <==> -0x8000_0000_0000_0000 <= X(code, s) * Y(code, s, b) < 0x8000_0000_0000_0000
  {
    assert Decode(code[s.ip].opcode) == Some(Alu(Mul, if b then Reg else Imm));
    hide Decode, Leaves, StepDefined, X, Y, Wrap;
    ExecutesAlu(code, s, Mul, b);
    r := Wrap(X(code, s) * Y(code, s, b));
    WrapKeeps(X(code, s) * Y(code, s, b));
  }

  // ----- divisions -----

  /** q and m are quotient and remainder of x by y, truncated toward zero. */
  predicate Divides(x: int, y: int, q: int, m: int) {
    && x == q * y + m
    && (if y < 0 then y < m < -y else -y < m < y)
    && (x >= 0 ==> m >= 0) && (x <= 0 ==> m <= 0)
  }

  predicate LeavesRange(x: int, y: int) {
    x == -0x8000_0000_0000_0000 && y == -1
  }

  lemma Quotients(x: i64, y: i64) returns (q: int, m: int)
    requires y != 0
    ensures q == TruncDiv(x, y) && m == TruncMod(x, y) && Divides(x, y, q, m)
    ensures Fits(q) <==> !LeavesRange(x, y)
    ensures Fits(m)
  {
    q, m := TruncDiv(x, y), TruncMod(x, y);
    TruncDivMod(x, y);
    TruncDivFits(x, y);
    hide TruncDiv, TruncMod;
  }

  /** DIV leaves the quotient and MOD the remainder of a division that rounds
      toward zero, unless the divisor is zero or the quotient 2^63. */
  lemma DivideStep(code: seq<Instr>, s: State, b: bool, mod: bool) returns (q: int, m: int)
    requires Fetches(code, s, if mod then (if b then 30 else 29) else (if b then 10 else 9), true, b)
    ensures var x, y := X(code, s), Y(code, s, b);
      if y == 0 then Fails(code, s, DivZero)
      else if x == -0x8000_0000_0000_0000 && y == -1 then Step(code, s) == Trap
      else
        && Divides(x, y, q, m)
        && -0x8000_0000_0000_0000 <= (if mod then m else q) < 0x8000_0000_0000_0000
        && Leaves(code, s, if mod then m else q)
    ensures StepDefined(code, s) <==> !(X(code, s) == -0x8000_0000_0000_0000 && Y(code, s, b) == -1)
  {
    var alu := if mod then Mod else Div;
    assert Decode(code[s.ip].opcode) == Some(Alu(alu, if b then Reg else Imm));
    hide Decode, Leaves, Fails, StepDefined, X, Y, TruncDiv, TruncMod, Step;
    ExecutesAlu(code, s, alu, b);
    var x, y := X(code, s), Y(code, s, b);
    DivisionEnds(x, y);
    q, m := 0, 0;
    if y != 0 {
      q, m := Quotients(x, y);
    }
  }

  // ----- bits -----

  lemma RawReading(x: i64)
    ensures ToU64(x) == x % 0x1_0000_0000_0000_0000
  {
  }

  lemma BitOfWord(x: i64, k: nat)
    requires k < 64
    ensures BitOf(x, k) == Bit(ToU64(x), k)
  {
    RawReading(x);
    BitIsDigit(ToU64(x), k);
  }

  lemma BitsKept(op: BitOp, x: i64, y: i64, k: nat) returns (r: i64)
    requires k < 64
    ensures r == ToI64(Bitwise64(op, ToU64(x), ToU64(y)))
    ensures BitOf(r, k) == Bit(Bitwise(op, ToU64(x), ToU64(y), 64), k)
  {
    r := ToI64(Bitwise64(op, ToU64(x), ToU64(y)));
    BitOfWord(r, k);
    hide Bitwise, BitOf, Bit;
  }

  /** AND, OR and XOR are the product, the sum less the product and the sum
      modulo 2 of each of the 64 bits. */
  lemma AndStep(code: seq<Instr>, s: State, b: bool) returns (r: i64)
    requires Fetches(code, s, if b then 32 else 31, true, b)
    ensures Leaves(code, s, r) && StepDefined(code, s)
    ensures forall k :: 0 <= k < 64 ==> BitOf(r, k) == BitOf(X(code, s), k) * BitOf(Y(code, s, b), k)
  {
    assert Decode(code[s.ip].opcode) == Some(Alu(Bits(BitAnd), if b then Reg else Imm));
    hide Decode, Leaves, StepDefined, X, Y, Bitwise, BitOf, Bit;
    ExecutesAlu(code, s, Bits(BitAnd), b);
    var x, y := X(code, s), Y(code, s, b);
    r := ToI64(Bitwise64(BitAnd, ToU64(x), ToU64(y)));
    forall k | 0 <= k < 64
      ensures BitOf(r, k) == BitOf(x, k) * BitOf(y, k)
    {
      var r' := BitsKept(BitAnd, x, y, k);
      BitOfWord(x, k);
      BitOfWord(y, k);
      BitwiseAtBit(ToU64(x), ToU64(y), 64, k);
    }
  }

  lemma OrStep(code: seq<Instr>, s: State, b: bool) returns (r: i64)
    requires Fetches(code, s, if b then 34 else 33, true, b)
    ensures Leaves(code, s, r) && StepDefined(code, s)
    ensures forall k :: 0 <= k < 64 ==>
      BitOf(r, k) == BitOf(X(code, s), k) + BitOf(Y(code, s, b), k) - BitOf(X(code, s), k) * BitOf(Y(code, s, b), k)
  {
    assert Decode(code[s.ip].opcode) == Some(Alu(Bits(BitOr), if b then Reg else Imm));
    hide Decode, Leaves, StepDefined, X, Y, Bitwise, BitOf, Bit;
    ExecutesAlu(code, s, Bits(BitOr), b);
    var x, y := X(code, s), Y(code, s, b);
    r := ToI64(Bitwise64(BitOr, ToU64(x), ToU64(y)));
    forall k | 0 <= k < 64
      ensures BitOf(r, k) == BitOf(x, k) + BitOf(y, k) - BitOf(x, k) * BitOf(y, k)
    {
      var r' := BitsKept(BitOr, x, y, k);
      BitOfWord(x, k);
      BitOfWord(y, k);
      BitwiseAtBit(ToU64(x), ToU64(y), 64, k);
    }
  }

  lemma XorStep(code: seq<Instr>, s: State, b: bool) returns (r: i64)
    requires Fetches(code, s, if b then 36 else 35, true, b)
    ensures Leaves(code, s, r) && StepDefined(code, s)
    ensures forall k :: 0 <= k < 64 ==> BitOf(r, k) == (BitOf(X(code, s), k) + BitOf(Y(code, s, b), k)) % 2
  {
    assert Decode(code[s.ip].opcode) == Some(Alu(Bits(BitXor), if b then Reg else Imm));
    hide Decode, Leaves, StepDefined, X, Y, Bitwise, BitOf, Bit;
    ExecutesAlu(code, s, Bits(BitXor), b);
    var x, y := X(code, s), Y(code, s, b);
    r := ToI64(Bitwise64(BitXor, ToU64(x), ToU64(y)));
    forall k | 0 <= k < 64
      ensures BitOf(r, k) == (BitOf(x, k) + BitOf(y, k)) % 2
    {
      var r' := BitsKept(BitXor, x, y, k);
      BitOfWord(x, k);
      BitOfWord(y, k);
      BitwiseAtBit(ToU64(x), ToU64(y), 64, k);
    }
  }

  /** NOT leaves -x - 1. */
  lemma NotStep(code: seq<Instr>, s: State)
    requires Fetches(code, s, 37, true, false)
    ensures Leaves(code, s, -(X(code, s) as int) - 1) && StepDefined(code, s)
  {
    assert Decode(code[s.ip].opcode) == Some(Not);
    NotIsNegation(X(code, s));
    hide Decode, Step, StepDefined;
    Executes(code, s, Not);
  }

  /** SHL multiplies by 2^y and keeps the low 64 bits, SHR divides the unsigned
      reading by 2^y; other counts than 0 to 63 are refused. */
  lemma ShiftLeftStep(code: seq<Instr>, s: State, b: bool) returns (r: i64)
    requires Fetches(code, s, if b then 39 else 38, true, b)
    ensures var y := Y(code, s, b);
      if 0 <= y <= 63 then Leaves(code, s, r) && Keeps64(r, X(code, s) * Pow2(y)) else Fails(code, s, BadShift)
    ensures StepDefined(code, s)
  {
    assert Decode(code[s.ip].opcode) == Some(Alu(Shl, if b then Reg else Imm));
    hide Decode, Leaves, Fails, StepDefined, X, Y, Shl64;
    ExecutesAlu(code, s, Shl, b);
    var x, y := X(code, s), Y(code, s, b);
    r := 0;
    if 0 <= y <= 63 {
      r := ToI64(Shl64(ToU64(x), y));
      Shl64IsProduct(ToU64(x), y);
      ProductKept(x, r, Pow2(y));
    }
  }

  lemma ProductKept(x: i64, r: i64, p: nat)
    requires ToU64(r) == ToU64(x) * p % TWO_64
    ensures Keeps64(r, x * p)
  {
    var u: int, v: int := ToU64(x), ToU64(r);
    var k := if x < 0 then 1 else 0;
    var j := if r < 0 then 1 else 0;
    var q := u * p / TWO_64;
    assert u * p == q * TWO_64 + v;
    assert x as int == u - k * TWO_64 && r as int == v - j * TWO_64;
    assert (u - k * TWO_64) * p == u * p - (k * p) * TWO_64;
    assert x * p - r == (q - k * p + j) * TWO_64 + 0;
    ModShift(0, q - k * p + j);
  }

  lemma ShiftRightStep(code: seq<Instr>, s: State, b: bool) returns (r: i64)
    requires Fetches(code, s, if b then 41 else 40, true, b)
    ensures var y := Y(code, s, b);
      if 0 <= y <= 63 then
        && Leaves(code, s, r)
        && r % 0x1_0000_0000_0000_0000 == X(code, s) % 0x1_0000_0000_0000_0000 / Pow2(y)
      else Fails(code, s, BadShift)
    ensures StepDefined(code, s)
  {
    assert Decode(code[s.ip].opcode) == Some(Alu(Shr, if b then Reg else Imm));
    hide Decode, Leaves, Fails, StepDefined, X, Y, Shr64;
    ExecutesAlu(code, s, Shr, b);
    var x, y := X(code, s), Y(code, s, b);
    r := 0;
    if 0 <= y <= 63 {
      r := ToI64(Shr64(ToU64(x), y));
      Shr64IsQuotient(ToU64(x), y);
      RawReading(x);
      RawReading(r);
    }
  }

  // ----- comparing and jumping -----

  lemma CompareStep(code: seq<Instr>, s: State, b: bool)
    requires Fetches(code, s, if b then 25 else 24, true, b)
    ensures Step(code, s) == Next(s.(ip := s.ip + 1, zf := X(code, s) == Y(code, s, b)))
    ensures StepDefined(code, s)
  {
    assert Decode(code[s.ip].opcode) == Some(Cmp(if b then Reg else Imm));
    hide Decode, Step, StepDefined;
    Executes(code, s, Cmp(if b then Reg else Imm));
  }

  lemma JumpStep(code: seq<Instr>, s: State)
    requires Fetches(code, s, 11, false, false)
    ensures Jumps(code, s, code[s.ip].imm) && StepDefined(code, s)
  {
    assert Decode(code[s.ip].opcode) == Some(Jump(Always));
    hide Decode, Step, StepDefined;
    Executes(code, s, Jump(Always));
  }

  /** JZ jumps on zero; JNZ on every other value, negative ones included. */
  lemma JumpOnRegisterStep(code: seq<Instr>, s: State, zero: bool)
    requires Fetches(code, s, if zero then 12 else 13, true, false)
    ensures if (X(code, s) == 0) == zero then Jumps(code, s, code[s.ip].imm) else Passes(code, s)
    ensures StepDefined(code, s)
  {
    var cond := if zero then RegZero else RegNonzero;
    assert Decode(code[s.ip].opcode) == Some(Jump(cond));
    hide Decode, Step, StepDefined;
    Executes(code, s, Jump(cond));
  }

  lemma JumpOnFlagStep(code: seq<Instr>, s: State, equal: bool)
    requires Fetches(code, s, if equal then 26 else 27, false, false)
    ensures if s.zf == equal then Jumps(code, s, code[s.ip].imm) else Passes(code, s)
    ensures StepDefined(code, s)
  {
    var cond := if equal then FlagSet else FlagClear;
    assert Decode(code[s.ip].opcode) == Some(Jump(cond));
    hide Decode, Step, StepDefined;
    Executes(code, s, Jump(cond));
  }

  /** On any run: a comparison followed by JE goes to the target if the operands
      are equal and on if not; followed by JNE the other way round. */
  lemma CompareAndBranch(code: seq<Instr>, start: State, n: nat, s: State, b: bool, equal: bool)
    requires Run(code, start, n) == Next(s) && Fetches(code, s, if b then 25 else 24, true, b)
    requires s.ip + 1 < |code| && code[s.ip + 1].opcode == if equal then 26 else 27
    ensures var o, target := Run(code, start, n + 2), code[s.ip + 1].imm;
      var t := s.(zf := X(code, s) == Y(code, s, b));
      if (X(code, s) == Y(code, s, b)) == equal then
        o == if 0 <= target < |code| then Next(t.(ip := target)) else Stop(BadJump, t.(ip := s.ip + 2))
      else o == Next(t.(ip := s.ip + 2))
  {
    var t := s.(ip := s.ip + 1, zf := X(code, s) == Y(code, s, b));
    CompareStep(code, s, b);
    JumpOnFlagStep(code, t, equal);
    hide Step;
    assert Run(code, start, n + 1) == Next(t);
    assert Run(code, start, n + 2) == Step(code, t);
  }

  // ----- output and the end -----

  lemma PrintStep(code: seq<Instr>, s: State)
    requires Fetches(code, s, 14, true, false)
    ensures Step(code, s) == Next(s.(ip := s.ip + 1, printed := s.printed + [X(code, s)]))
    ensures StepDefined(code, s)
  {
    assert Decode(code[s.ip].opcode) == Some(Print);
    hide Decode, Step, StepDefined;
    Executes(code, s, Print);
  }

  lemma HaltStep(code: seq<Instr>, s: State)
    requires Fetches(code, s, 15, false, false)
    ensures Step(code, s) == Next(s.(ip := s.ip + 1, halted := true)) && StepDefined(code, s)
  {
    assert Decode(code[s.ip].opcode) == Some(Halt);
    hide Decode, Step, StepDefined;
    Executes(code, s, Halt);
  }

  lemma NopStep(code: seq<Instr>, s: State)
    requires Fetches(code, s, 28, false, false)
    ensures Passes(code, s) && StepDefined(code, s)
  {
    assert Decode(code[s.ip].opcode) == Some(Nop);
    hide Decode, Step, StepDefined;
    Executes(code, s, Nop);
  }

  // ----- memory -----

  lemma WordRead(m: seq<byte>, a: nat)
    requires |m| == 65536 && a <= 65528
    ensures HoldsWord(m, a, LoadWord(m, a))
  {
    var x := LoadWord(m, a);
    WordBytesRoundTrip(m[a..a + 8]);
    RawReading(x);
    forall i | 0 <= i < 8
      ensures m[a + i] == ToU64(x) / Pow256(i) % 256
    {
      WordByte(x, i);
      assert m[a..a + 8][i] == m[a + i];
    }
    hide WordValue, WordBytes;
  }

  /** m' is m with the eight bytes from a on holding x. */
  predicate Stored(m: seq<byte>, m': seq<byte>, a: nat, x: int)
    requires |m| == 65536 && a <= 65528
  {
    && |m'| == 65536 && HoldsWord(m', a, x)
    && forall i :: 0 <= i < 65536 && !(a <= i < a + 8) ==> m'[i] == m[i]
  }

  lemma WordStored(m: seq<byte>, a: nat, x: i64)
    requires |m| == 65536 && a <= 65528
    ensures Stored(m, StoreWord(m, a, x), a, x)
  {
    var m' := StoreWord(m, a, x);
    RawReading(x);
    forall i | 0 <= i < 8
      ensures m'[a + i] == ToU64(x) / Pow256(i) % 256
    {
      WordByte(x, i);
    }
    hide WordBytes;
  }

  /** LOAD and STORE reach the addresses 0 to 65528, aligned or not. */
  lemma LoadStep(code: seq<Instr>, s: State, b: bool) returns (r: i64)
    requires Fetches(code, s, if b then 17 else 16, true, b)
    ensures var y := Y(code, s, b);
      if 0 <= y <= 65528 then Leaves(code, s, r) && HoldsWord(s.memory, y, r) else Fails(code, s, MemoryOob)
    ensures StepDefined(code, s)
  {
    var y := Y(code, s, b);
    assert Decode(code[s.ip].opcode) == Some(Load(if b then Reg else Imm));
    hide Decode, Step, StepDefined, LoadWord, HoldsWord;
    Executes(code, s, Load(if b then Reg else Imm));
    r := 0;
    if 0 <= y <= 65528 {
      r := LoadWord(s.memory, y);
      WordRead(s.memory, y);
    }
  }

  lemma StoreStep(code: seq<Instr>, s: State, b: bool) returns (m: seq<byte>)
    requires Fetches(code, s, if b then 19 else 18, true, b)
    ensures var y := Y(code, s, b);
      if 0 <= y <= 65528 then
        Stored(s.memory, m, y, X(code, s)) && Step(code, s) == Next(s.(ip := s.ip + 1, memory := m))
      else Fails(code, s, MemoryOob)
    ensures StepDefined(code, s)
  {
    var y := Y(code, s, b);
    assert Decode(code[s.ip].opcode) == Some(Store(if b then Reg else Imm));
    hide Decode, Step, StepDefined, StoreWord, HoldsWord;
    Executes(code, s, Store(if b then Reg else Imm));
    m := s.memory;
    if 0 <= y <= 65528 {
      m := StoreWord(s.memory, y, X(code, s));
      WordStored(s.memory, y, X(code, s));
    }
  }

  // ----- the stack -----

  lemma PushStep(code: seq<Instr>, s: State) returns (m: seq<byte>)
    requires Fetches(code, s, 20, true, false)
    ensures if s.sp >= 8 then
        && Stored(s.memory, m, s.sp - 8, X(code, s))
        && Step(code, s) == Next(s.(ip := s.ip + 1, sp := s.sp - 8, memory := m))
      else Fails(code, s, StackOverflow)
    ensures StepDefined(code, s)
  {
    assert Decode(code[s.ip].opcode) == Some(Push);
    hide Decode, Step, StepDefined, StoreWord, HoldsWord;
    Executes(code, s, Push);
    m := s.memory;
    if s.sp >= 8 {
      m := StoreWord(s.memory, s.sp - 8, X(code, s));
      WordStored(s.memory, s.sp - 8, X(code, s));
    }
  }

  lemma PopStep(code: seq<Instr>, s: State) returns (r: i64)
    requires Fetches(code, s, 21, true, false)
    ensures if s.sp <= 65528 then
        && HoldsWord(s.memory, s.sp, r)
        && Step(code, s) ==
             Next(s.(ip := s.ip + 1, regs := s.regs[code[s.ip].a := r], zf := r == 0, sp := s.sp + 8))
      else Fails(code, s, StackUnderflow)
    ensures StepDefined(code, s)
  {
    assert Decode(code[s.ip].opcode) == Some(Pop);
    hide Decode, Step, StepDefined, LoadWord, HoldsWord;
    Executes(code, s, Pop);
    r := 0;
    if s.sp <= 65528 {
      r := LoadWord(s.memory, s.sp);
      WordRead(s.memory, s.sp);
    }
  }

  /** CALL refuses its target before it looks at the stack, then leaves the next
      index there. */
  lemma CallStep(code: seq<Instr>, s: State) returns (m: seq<byte>)
    requires Fetches(code, s, 22, false, false)
    ensures var target := code[s.ip].imm;
      if !(0 <= target < |code|) then Fails(code, s, BadJump)
      else if s.sp < 8 then Fails(code, s, StackOverflow)
      else
        && Stored(s.memory, m, s.sp - 8, s.ip + 1)
        && Step(code, s) == Next(s.(ip := target, sp := s.sp - 8, memory := m))
    ensures StepDefined(code, s)
  {
    assert Decode(code[s.ip].opcode) == Some(Call);
    hide Decode, Step, StepDefined, StoreWord, Wrap, Stored, PerformCall;
    var t := s.(ip := s.ip + 1);
    Executes(code, s, Call);
    CallEnds(|code|, t, code[s.ip]);
    m := s.memory;
    if s.sp >= 8 {
      m := StoreWord(s.memory, s.sp - 8, Wrap(s.ip + 1));
      ReturnStored(s.memory, s.sp - 8, s.ip + 1);
    }
  }

  lemma CallEnds(count: nat, s: State, ins: Instr)
    ensures PerformCall(count, s, ins) ==
      if !(0 <= ins.imm < count) then Stop(BadJump, s)
      else if s.sp < 8 then Stop(StackOverflow, s)
      else Next(s.(ip := ins.imm, sp := s.sp - 8, memory := StoreWord(s.memory, s.sp - 8, Wrap(s.ip))))
  {
    hide StoreWord, Wrap;
  }

  lemma ReturnStored(m: seq<byte>, a: nat, n: int)
    requires |m| == 65536 && a <= 65528
    ensures Stored(m, StoreWord(m, a, Wrap(n)), a, n)
  {
    hide HoldsWord, StoreWord, Wrap;
    WordStored(m, a, Wrap(n));
    WrapSameWord(StoreWord(m, a, Wrap(n)), a, n);
  }

  lemma WrapSameWord(m: seq<byte>, a: nat, n: int)
    requires |m| == 65536 && a <= 65528
    ensures HoldsWord(m, a, Wrap(n)) <==> HoldsWord(m, a, n)
  {
    RawReading(Wrap(n));
  }

  /** RET takes the word off the stack even when it refuses it as a target. */
  lemma ReturnStep(code: seq<Instr>, s: State) returns (r: i64)
    requires Fetches(code, s, 23, false, false)
    ensures if s.sp <= 65528 then
        && HoldsWord(s.memory, s.sp, r)
        && Step(code, s) == if 0 <= r < |code| then Next(s.(ip := r, sp := s.sp + 8))
                            else Stop(BadJump, s.(ip := s.ip + 1, sp := s.sp + 8))
      else Fails(code, s, StackUnderflow)
    ensures StepDefined(code, s)
  {
    assert Decode(code[s.ip].opcode) == Some(Ret);
    hide Decode, Step, StepDefined, LoadWord, HoldsWord;
    Executes(code, s, Ret);
    r := 0;
    if s.sp <= 65528 {
      r := LoadWord(s.memory, s.sp);
      WordRead(s.memory, s.sp);
    }
  }

  // ----- refusals -----

  /** The opcodes that use register a, and those that use register b. */
  predicate NeedsA(opcode: byte) {
    1 <= opcode <= 10 || 12 <= opcode <= 14 || 16 <= opcode <= 21 || 24 <= opcode <= 25 || 29 <= opcode <= 41
  }

  predicate NeedsB(opcode: byte) {
    opcode in {2, 4, 6, 8, 10, 17, 19, 25, 30, 32, 34, 36, 39, 41}
  }

  predicate BadRegisters(ins: Instr) {
    (NeedsA(ins.opcode) && ins.a >= 8) || (NeedsB(ins.opcode) && ins.b >= 8)
  }

  lemma RegistersNeeded(ins: Instr)
    requires 1 <= ins.opcode <= 41
    ensures Decode(ins.opcode).Some? && (RegistersOk(Decode(ins.opcode).value, ins) <==> !BadRegisters(ins))
  {
  }

  /** A halted machine stays; a fetch past the end, an unknown opcode and a
      register from 8 on are refused. */
  lemma RefusedStep(code: seq<Instr>, s: State)
    ensures s.halted ==> Step(code, s) == Next(s)
    ensures !s.halted && s.ip >= |code| ==> Step(code, s) == Stop(IpOutOfBounds, s)
    ensures !s.halted && s.ip < |code| ==>
      var ins := code[s.ip];
      if ins.opcode == 0 || ins.opcode > 41 then Fails(code, s, BadOpcode) && StepDefined(code, s)
      else BadRegisters(ins) ==> Fails(code, s, BadRegister) && StepDefined(code, s)
  {
    if !s.halted && s.ip < |code| {
      var ins := code[s.ip];
      EncodeDecode(ins.opcode);
      if 1 <= ins.opcode <= 41 {
        RegistersNeeded(ins);
      }
    }
    hide Perform, Decode, Encode, NeedsA, NeedsB, AluDefined;
  }

  // ----- power-on and runs -----

  lemma PowerOn()
    ensures var s := Init();
      && s.regs == [0, 0, 0, 0, 0, 0, 0, 0] && s.ip == 0 && !s.zf && !s.halted && s.printed == []
      && s.sp == 65536 && |s.memory| == 65536 && forall i :: 0 <= i < 65536 ==> s.memory[i] == 0
  {
  }

  /** Each state of the path is one step behind the one before. */
  predicate Path(code: seq<Instr>, path: seq<State>) {
    path != [] && forall k :: 0 <= k < |path| - 1 ==> Step(code, path[k]) == Next(path[k + 1])
  }

  lemma {:induction false} PathOf(code: seq<Instr>, s: State, n: nat) returns (path: seq<State>)
    requires Run(code, s, n).Next?
    ensures Path(code, path) && |path| == n + 1 && path[0] == s && path[n] == Run(code, s, n).s
    decreases n
  {
    hide Step;
    path := [s];
    if n > 0 {
      path := PathOf(code, s, n - 1);
      path := path + [Run(code, s, n).s];
    }
  }

  lemma {:induction false} PathIsRun(code: seq<Instr>, path: seq<State>, n: nat)
    requires Path(code, path) && n < |path|
    ensures Run(code, path[0], n) == Next(path[n])
    decreases n
  {
    hide Step;
    if n > 0 {
      PathIsRun(code, path, n - 1);
    }
  }

  ghost predicate Connected(code: seq<Instr>, s: State, n: nat, t: State) {
    exists path :: Path(code, path) && |path| == n + 1 && path[0] == s && path[n] == t
  }

  /** n steps lead from s to t exactly along a path of n steps. */
  lemma RunIsPath(code: seq<Instr>, s: State, n: nat, t: State)
    ensures Run(code, s, n) == Next(t) <==> Connected(code, s, n, t)
  {
    hide Path, Run;
    if Run(code, s, n) == Next(t) {
      var path := PathOf(code, s, n);
    }
    if Connected(code, s, n, t) {
      var path :| Path(code, path) && |path| == n + 1 && path[0] == s && path[n] == t;
      PathIsRun(code, path, n);
    }
  }

  // ----- what the static checks look at -----

  /** The verdict on one instruction in a program of `count`. */
  lemma VerdictInNumbers(ins: Instr, count: nat)
    ensures StaticError(ins, count) ==
      if ins.c != 0 then Parse
      else if ins.opcode == 0 || ins.opcode > 41 then BadOpcode
      else if BadRegisters(ins) then BadRegister
      else if ins.opcode in {11, 12, 13, 22, 26, 27} && !(0 <= ins.imm < count) then BadJump
      else if ins.opcode in {9, 29} && ins.imm == 0 then DivZero
      else if ins.opcode in {16, 18} && !(0 <= ins.imm <= 65528) then MemoryOob
      else if ins.opcode in {38, 40} && !(0 <= ins.imm <= 63) then BadShift
      else Ok
  {
    VerifyInstructionIsStatic(ins, count);
    EncodeDecode(ins.opcode);
    if 1 <= ins.opcode <= 41 {
      RegistersNeeded(ins);
      ImmediateInNumbers(ins, count);
    }
    hide Decode, Encode, NeedsA, NeedsB, RegistersOk, OperandError;
  }

  lemma ImmediateInNumbers(ins: Instr, count: nat)
    requires 1 <= ins.opcode <= 41
    ensures Decode(ins.opcode).Some?
    ensures OperandError(Decode(ins.opcode).value, ins.imm, count) ==
      if ins.opcode in {11, 12, 13, 22, 26, 27} && !(0 <= ins.imm < count) then BadJump
      else if ins.opcode in {9, 29} && ins.imm == 0 then DivZero
      else if ins.opcode in {16, 18} && !(0 <= ins.imm <= 65528) then MemoryOob
      else if ins.opcode in {38, 40} && !(0 <= ins.imm <= 63) then BadShift
      else Ok
  {
  }

  /** The fragments the safety theorems speak of: closed by HALT, JMP, CALL or
      RET; never failing; only going forward. */
  lemma FragmentsInNumbers(code: seq<Instr>)
    ensures EndsClosed(code) <==> code != [] && code[|code| - 1].opcode in {11, 15, 22, 23}
    ensures AllHarmless(code) <==>
      forall i :: 0 <= i < |code| ==>
        && 1 <= code[i].opcode <= 41 && code[i].opcode !in {10, 17, 19, 20, 21, 22, 23, 30, 39, 41}
        && (code[i].opcode in {9, 29} ==> code[i].imm != -1)
    ensures ForwardOnly(code) <==>
      forall i :: 0 <= i < |code| ==>
        code[i].opcode != 23 && (code[i].opcode in {11, 12, 13, 22, 26, 27} ==> code[i].imm > i)
  {
    forall i | 0 <= i < |code|
      ensures Harmless(code[i]) <==>
        && 1 <= code[i].opcode <= 41 && code[i].opcode !in {10, 17, 19, 20, 21, 22, 23, 30, 39, 41}
        && (code[i].opcode in {9, 29} ==> code[i].imm != -1)
    {
      HarmlessInNumbers(code[i]);
    }
    hide Harmless;
  }

  lemma HarmlessInNumbers(ins: Instr)
    ensures Harmless(ins) <==>
      && 1 <= ins.opcode <= 41 && ins.opcode !in {10, 17, 19, 20, 21, 22, 23, 30, 39, 41}
      && (ins.opcode in {9, 29} ==> ins.imm != -1)
  {
    EncodeDecode(ins.opcode);
  }
}
