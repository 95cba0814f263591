/** One line of assembly source: operands, mnemonics, labels and the
    instruction they denote. */
module Syntax {
  import opened Words
  import opened Isa
  import opened Text

  // ----- operands -----

  predicate IsIdentifier(s: string) {
    && s != []
    && (IsAlpha(s[0]) || s[0] == '_')
    && forall i :: 0 < i < |s| ==> IsAlpha(s[i]) || IsDigit(s[i]) || s[i] == '_'
  }

  method CheckIdentifier(s: string) returns (ok: bool)
    ensures ok == IsIdentifier(s)
  {
    if s == "" || !(IsAlpha(s[0]) || s[0] == '_') {
      return false;
    }
    for i := 1 to |s|
      invariant forall j :: 0 < j < i ==> IsAlpha(s[j]) || IsDigit(s[j]) || s[j] == '_'
    {
      if !(IsAlpha(s[i]) || IsDigit(s[i]) || s[i] == '_') {
        return false;
      }
    }
    return true;
  }

  /** `r0` to `r7`, two characters exactly. */
  function ParseRegister(token: string): (r: Option<byte>)
    ensures r.Some? ==> r.value < REGISTERS
  {
    if |token| == 2 && token[0] == 'r' && '0' <= token[1] <= '7' then Some(token[1] as int - '0' as int)
    else None
  }

  datatype Operand = Immediate(imm: i64) | Register(reg: byte)

  /** A register if it is one, else a number. */
  function ParseOperand(token: string): (r: Option<Operand>)
    ensures r.Some? && r.value.Register? ==> r.value.reg < REGISTERS
  {
    match ParseRegister(token)
    case Some(r) => Some(Register(r))
    case None =>
      match ParseI64(token)
      case Some(x) => Some(Immediate(x))
      case None => None
  }

  /** `[operand]`, with at most 63 characters between the brackets. */
  function ParseMemoryOperand(token: string): (r: Option<Operand>)
    ensures r.Some? && r.value.Register? ==> r.value.reg < REGISTERS
  {
    if |token| < 3 || token[0] != '[' || token[|token| - 1] != ']' || |token| - 2 >= 64 then None
    else ParseOperand(Trim(token[1..|token| - 1]))
  }

  // ----- mnemonics -----

  datatype Name =
    | NMov | NAdd | NSub | NMul | NDiv | NMod | NAnd | NOr | NXor | NShl | NShr | NCmp
    | NLoad | NStore | NPush | NPop | NJmp | NCall | NJe | NJne | NJz | NJnz | NPrint | NRet | NNop | NNot | NHalt

  function NameOf(s: string): Option<Name> {
    if s == "mov" then Some(NMov)
    else if s == "add" then Some(NAdd)
    else if s == "sub" then Some(NSub)
    else if s == "mul" then Some(NMul)
    else if s == "div" then Some(NDiv)
    else if s == "mod" then Some(NMod)
    else if s == "and" then Some(NAnd)
    else if s == "or" then Some(NOr)
    else if s == "xor" then Some(NXor)
    else if s == "shl" then Some(NShl)
    else if s == "shr" then Some(NShr)
    else if s == "cmp" then Some(NCmp)
    else if s == "load" then Some(NLoad)
    else if s == "store" then Some(NStore)
    else if s == "push" then Some(NPush)
    else if s == "pop" then Some(NPop)
    else if s == "jmp" then Some(NJmp)
    else if s == "call" then Some(NCall)
    else if s == "je" then Some(NJe)
    else if s == "jne" then Some(NJne)
    else if s == "jz" then Some(NJz)
    else if s == "jnz" then Some(NJnz)
    else if s == "print" then Some(NPrint)
    else if s == "ret" then Some(NRet)
    else if s == "nop" then Some(NNop)
    else if s == "not" then Some(NNot)
    else if s == "halt" then Some(NHalt)
    else None
  }

  function TextOf(n: Name): string {
    match n
    case NMov => "mov"
    case NAdd => "add"
    case NSub => "sub"
    case NMul => "mul"
    case NDiv => "div"
    case NMod => "mod"
    case NAnd => "and"
    case NOr => "or"
    case NXor => "xor"
    case NShl => "shl"
    case NShr => "shr"
    case NCmp => "cmp"
    case NLoad => "load"
    case NStore => "store"
    case NPush => "push"
    case NPop => "pop"
    case NJmp => "jmp"
    case NCall => "call"
    case NJe => "je"
    case NJne => "jne"
    case NJz => "jz"
    case NJnz => "jnz"
    case NPrint => "print"
    case NRet => "ret"
    case NNop => "nop"
    case NNot => "not"
    case NHalt => "halt"
  }

  lemma NameRoundTripAlu(n: Name)
    requires n in {NMov, NAdd, NSub, NMul, NDiv, NMod, NAnd, NOr, NXor}
    ensures NameOf(TextOf(n)) == Some(n)
  {
    var s := TextOf(n);
    var c0, c1, c2 := s[0], s[1], if |s| > 2 then s[2] else ' ';
  }

  lemma NameRoundTripData(n: Name)
    requires n in {NShl, NShr, NCmp, NLoad, NStore, NPush, NPop, NPrint, NNot}
    ensures NameOf(TextOf(n)) == Some(n)
  {
    var s := TextOf(n);
    var c0, c1, c2 := s[0], s[1], if |s| > 2 then s[2] else ' ';
  }

  lemma NameRoundTripControl(n: Name)
    requires n in {NJmp, NCall, NJe, NJne, NJz, NJnz, NRet, NNop, NHalt}
    ensures NameOf(TextOf(n)) == Some(n)
  {
    var s := TextOf(n);
    var c0, c1, c2 := s[0], s[1], if |s| > 2 then s[2] else ' ';
  }

  /** Mnemonics are told apart by the chain of string comparisons. */
  lemma NameRoundTrip(n: Name)
    ensures NameOf(TextOf(n)) == Some(n)
  {
    hide NameOf, TextOf;
    if n in {NMov, NAdd, NSub, NMul, NDiv, NMod, NAnd, NOr, NXor} {
      NameRoundTripAlu(n);
    } else if n in {NShl, NShr, NCmp, NLoad, NStore, NPush, NPop, NPrint, NNot} {
      NameRoundTripData(n);
    } else {
      NameRoundTripControl(n);
    }
  }

  /** The family a mnemonic names, given where its last operand comes from. */
  function OpOf(n: Name, src: Source): Op {
    match n
    case NMov => Alu(Mov, src)
    case NAdd => Alu(Add, src)
    case NSub => Alu(Sub, src)
    case NMul => Alu(Mul, src)
    case NDiv => Alu(Div, src)
    case NMod => Alu(Mod, src)
    case NAnd => Alu(Bits(BitAnd), src)
    case NOr => Alu(Bits(BitOr), src)
    case NXor => Alu(Bits(BitXor), src)
    case NShl => Alu(Shl, src)
    case NShr => Alu(Shr, src)
    case NCmp => Cmp(src)
    case NLoad => Load(src)
    case NStore => Store(src)
    case NPush => Push
    case NPop => Pop
    case NJmp => Jump(Always)
    case NCall => Call
    case NJe => Jump(FlagSet)
    case NJne => Jump(FlagClear)
    case NJz => Jump(RegZero)
    case NJnz => Jump(RegNonzero)
    case NPrint => Print
    case NRet => Ret
    case NNop => Nop
    case NNot => Not
    case NHalt => Halt
  }

  // ----- lines -----

  /** What one source line is: nothing, a label, an instruction with the label
      it refers to, or an error. */
  datatype Line = Empty | Label(name: string) | Code(ins: Instr, target: Option<string>) | Bad

  function MakeInstr(op: Op, a: byte): Instr {
    Instr(Encode(op), a, 0, 0, 0)
  }

  function WithOperand(n: Name, a: byte, y: Operand): Instr {
    match y
    case Immediate(x) => MakeInstr(OpOf(n, Imm), a).(imm := x)
    case Register(b) => MakeInstr(OpOf(n, Reg), a).(b := b)
  }

  function ParseTwoOperand(n: Name, register: string, operand: Option<Operand>): Line {
    match (ParseRegister(register), operand)
    case (Some(a), Some(y)) => Code(WithOperand(n, a, y), None)
    case _ => Bad
  }

  function ParseTokens(tokens: seq<string>): Line
    requires tokens != []
  {
    match NameOf(tokens[0])
    case None => Bad
    case Some(n) =>
      match n
      case NLoad =>
        if |tokens| != 3 then Bad else ParseTwoOperand(n, tokens[1], ParseMemoryOperand(tokens[2]))
      case NStore =>
        if |tokens| != 3 then Bad else ParseTwoOperand(n, tokens[2], ParseMemoryOperand(tokens[1]))
      case NPush | NPop | NPrint | NNot =>
        if |tokens| != 2 || ParseRegister(tokens[1]) == None then Bad
        else Code(MakeInstr(OpOf(n, Imm), ParseRegister(tokens[1]).value), None)
      case NJmp | NCall | NJe | NJne =>
        if |tokens| != 2 || !IsIdentifier(tokens[1]) then Bad
        else Code(MakeInstr(OpOf(n, Imm), 0), Some(tokens[1]))
      case NJz | NJnz =>
        if |tokens| != 3 || !IsIdentifier(tokens[2]) || ParseRegister(tokens[1]) == None then Bad
        else Code(MakeInstr(OpOf(n, Imm), ParseRegister(tokens[1]).value), Some(tokens[2]))
      case NRet | NNop | NHalt =>
        if |tokens| != 1 then Bad else Code(MakeInstr(OpOf(n, Imm), 0), None)
      case _ =>
        if |tokens| != 3 then Bad else ParseTwoOperand(n, tokens[1], ParseOperand(tokens[2]))
  }

  /** The text before the first `;`. */
  function Uncommented(s: string): string {
    if s == [] || s[0] == ';' then [] else [s[0]] + Uncommented(s[1..])
  }

  const MAX_TOKENS: nat := 4

  function LineOf(raw: string): Line {
    var line := Trim(Uncommented(raw));
    if line == "" then Empty
    else if line[|line| - 1] == ':' then
      var name := Trim(line[..|line| - 1]);
      if IsIdentifier(name) then Label(name) else Bad
    else if |Tokens(Blanks, line)| > MAX_TOKENS then Bad
    else if Tokens(Blanks, line) == [] then Empty
    else ParseTokens(Tokens(Blanks, line))
  }

  // ----- what the parser can produce -----

  predicate IsBranch(op: Op) {
    op.Jump? || op == Call
  }

  predicate UsesImm(op: Op) {
    match op
    case Alu(_, src) => src == Imm
    case Cmp(src) => src == Imm
    case Load(src) => src == Imm
    case Store(src) => src == Imm
    case Jump(_) => true
    case Call => true
    case _ => false
  }

  /** The one record with these operands: registers in range, and every field
      its family does not use zero. */
  predicate Canonical(ins: Instr) {
    && Decode(ins.opcode).Some?
    && var op := Decode(ins.opcode).value;
    && ins.c == 0 && RegistersOk(op, ins)
    && (!UsesA(op) ==> ins.a == 0) && (!UsesB(op) ==> ins.b == 0) && (!UsesImm(op) ==> ins.imm == 0)
  }

  predicate Denotes(ins: Instr, target: Option<string>) {
    && Canonical(ins)
    && (target.Some? <==> IsBranch(Decode(ins.opcode).value))
    && (target.Some? ==> ins.imm == 0 && IsIdentifier(target.value))
  }

  predicate TakesOperand(n: Name) {
    !(n in {NPush, NPop, NJmp, NCall, NJe, NJne, NJz, NJnz, NPrint, NRet, NNop, NNot, NHalt})
  }

  lemma MadeCanonical(op: Op, a: byte)
    requires if UsesA(op) then a < REGISTERS else a == 0
    requires !UsesB(op)
    ensures Canonical(MakeInstr(op, a)) && Decode(MakeInstr(op, a).opcode) == Some(op)
  {
    DecodeEncode(op);
    hide Decode, Encode;
  }

  lemma WithOperandCanonical(n: Name, a: byte, y: Operand)
    requires TakesOperand(n) && a < REGISTERS && (y.Register? ==> y.reg < REGISTERS)
    ensures Denotes(WithOperand(n, a, y), None)
    ensures Decode(WithOperand(n, a, y).opcode) == Some(OpOf(n, if y.Register? then Reg else Imm))
  {
    DecodeEncode(OpOf(n, Imm));
    DecodeEncode(OpOf(n, Reg));
    hide Decode, Encode;
  }

  lemma MadeDenotes(n: Name, a: byte, target: Option<string>)
    requires !TakesOperand(n) && (if UsesA(OpOf(n, Imm)) then a < REGISTERS else a == 0)
    requires target.Some? <==> IsBranch(OpOf(n, Imm))
    requires target.Some? ==> IsIdentifier(target.value)
    ensures Denotes(MakeInstr(OpOf(n, Imm), a), target)
  {
    MadeCanonical(OpOf(n, Imm), a);
    hide Decode, Encode, IsIdentifier;
  }

  /** Every instruction a line denotes is canonical; a branch, and only a
      branch, refers to a label and leaves its target open. */
  lemma ParsedIsCanonical(tokens: seq<string>)
    requires tokens != [] && ParseTokens(tokens).Code?
    ensures Denotes(ParseTokens(tokens).ins, ParseTokens(tokens).target)
  {
    var n := NameOf(tokens[0]).value;
    hide NameOf, ParseI64, ParseRegister, Trim, Decode, Encode, MakeInstr, WithOperand, ParseOperand, ParseMemoryOperand, Canonical, Denotes, IsIdentifier;
    if TakesOperand(n) {
      var register := if n == NStore then tokens[2] else tokens[1];
      var operand := if n == NStore then ParseMemoryOperand(tokens[1])
                     else if n == NLoad then ParseMemoryOperand(tokens[2]) else ParseOperand(tokens[2]);
      WithOperandCanonical(n, ParseRegister(register).value, operand.value);
    } else if n in {NRet, NNop, NHalt, NJmp, NCall, NJe, NJne} {
      MadeDenotes(n, 0, ParseTokens(tokens).target);
    } else {
      MadeDenotes(n, ParseRegister(tokens[1]).value, ParseTokens(tokens).target);
    }
  }

  lemma LineIsCanonical(raw: string)
    requires LineOf(raw).Code?
    ensures Denotes(LineOf(raw).ins, LineOf(raw).target)
  {
    hide ParseTokens, Tokens, Trim, Uncommented, Denotes, IsIdentifier;
    ParsedIsCanonical(Tokens(Blanks, Trim(Uncommented(raw))));
  }
}
