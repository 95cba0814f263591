/** `wai_disassemble_program`, and the way back through the assembler. */
module Disassembler {
  import opened Words
  import opened Isa
  import opened Text
  import opened Syntax
  import opened Assembler

  // ----- text of one instruction -----

  function RegText(reg: byte): string {
    "r" + Digits(reg)
  }

  function TwoRegs(name: string, ins: Instr): string {
    name + " " + RegText(ins.a) + ", " + RegText(ins.b)
  }

  function RegImm(name: string, ins: Instr): string {
    name + " " + RegText(ins.a) + ", " + Decimal(ins.imm)
  }

  function OneReg(name: string, ins: Instr): string {
    name + " " + RegText(ins.a)
  }

  function OneImm(name: string, ins: Instr): string {
    name + " " + Decimal(ins.imm)
  }

  function LoadText(name: string, ins: Instr, address: string): string {
    name + " " + RegText(ins.a) + ", " + ("[" + address + "]")
  }

  function StoreText(name: string, ins: Instr, address: string): string {
    name + " " + ("[" + address + "]") + ", " + RegText(ins.a)
  }

  /** The switch of wai_disassemble_instruction, without the index column. */
  function InstructionText(ins: Instr): string {
    match ins.opcode
    case 1 => RegImm("mov", ins)
    case 2 => TwoRegs("mov", ins)
    case 3 => RegImm("add", ins)
    case 4 => TwoRegs("add", ins)
    case 5 => RegImm("sub", ins)
    case 6 => TwoRegs("sub", ins)
    case 7 => RegImm("mul", ins)
    case 8 => TwoRegs("mul", ins)
    case 9 => RegImm("div", ins)
    case 10 => TwoRegs("div", ins)
    case 29 => RegImm("mod", ins)
    case 30 => TwoRegs("mod", ins)
    case 31 => RegImm("and", ins)
    case 32 => TwoRegs("and", ins)
    case 33 => RegImm("or", ins)
    case 34 => TwoRegs("or", ins)
    case 35 => RegImm("xor", ins)
    case 36 => TwoRegs("xor", ins)
    case 37 => OneReg("not", ins)
    case 38 => RegImm("shl", ins)
    case 39 => TwoRegs("shl", ins)
    case 40 => RegImm("shr", ins)
    case 41 => TwoRegs("shr", ins)
    case 11 => OneImm("jmp", ins)
    case 12 => RegImm("jz", ins)
    case 13 => RegImm("jnz", ins)
    case 14 => OneReg("print", ins)
    case 15 => "halt"
    case 16 => LoadText("load", ins, Decimal(ins.imm))
    case 17 => LoadText("load", ins, RegText(ins.b))
    case 18 => StoreText("store", ins, Decimal(ins.imm))
    case 19 => StoreText("store", ins, RegText(ins.b))
    case 20 => OneReg("push", ins)
    case 21 => OneReg("pop", ins)
    case 22 => OneImm("call", ins)
    case 23 => "ret"
    case 28 => "nop"
    case 24 => RegImm("cmp", ins)
    case 25 => TwoRegs("cmp", ins)
    case 26 => OneImm("je", ins)
    case 27 => OneImm("jne", ins)
    case _ => ".byte 0x" + [DigitChar(ins.opcode / 16), DigitChar(ins.opcode % 16)] + " ; invalid opcode"
  }

  // ----- the words a canonical instruction is made of -----

  /** The mnemonic of each family. */
  function NameFor(op: Op): Name {
    match op
    case Alu(Mov, _) => NMov
    case Alu(Add, _) => NAdd
    case Alu(Sub, _) => NSub
    case Alu(Mul, _) => NMul
    case Alu(Div, _) => NDiv
    case Alu(Mod, _) => NMod
    case Alu(Bits(BitAnd), _) => NAnd
    case Alu(Bits(BitOr), _) => NOr
    case Alu(Bits(BitXor), _) => NXor
    case Alu(Shl, _) => NShl
    case Alu(Shr, _) => NShr
    case Not => NNot
    case Cmp(_) => NCmp
    case Jump(Always) => NJmp
    case Jump(RegZero) => NJz
    case Jump(RegNonzero) => NJnz
    case Jump(FlagSet) => NJe
    case Jump(FlagClear) => NJne
    case Print => NPrint
    case Halt => NHalt
    case Nop => NNop
    case Load(_) => NLoad
    case Store(_) => NStore
    case Push => NPush
    case Pop => NPop
    case Call => NCall
    case Ret => NRet
  }

  function SourceOf(op: Op): Source {
    if UsesB(op) then Reg else Imm
  }

  lemma NamesFamily(op: Op)
    ensures OpOf(NameFor(op), SourceOf(op)) == op
  {
  }

  /** The last operand as text: a register or a number. */
  function OperandText(op: Op, ins: Instr): string {
    if UsesB(op) then RegText(ins.b) else Decimal(ins.imm)
  }

  /** The words of an instruction: its mnemonic and its operands in the order
      they are written. */
  function WordsOf(op: Op, ins: Instr): seq<string> {
    var name := TextOf(NameFor(op));
    match op
    case Load(_) => [name, RegText(ins.a), "[" + OperandText(op, ins) + "]"]
    case Store(_) => [name, "[" + OperandText(op, ins) + "]", RegText(ins.a)]
    case _ =>
      if UsesA(op) then
        if UsesB(op) || UsesImm(op) then [name, RegText(ins.a), OperandText(op, ins)] else [name, RegText(ins.a)]
      else if UsesImm(op) then [name, Decimal(ins.imm)]
      else [name]
  }

  function Joined(words: seq<string>): string
    requires 1 <= |words| <= 3
  {
    if |words| == 1 then words[0]
    else if |words| == 2 then words[0] + " " + words[1]
    else words[0] + " " + words[1] + ", " + words[2]
  }

  /** The layout of each family, for a mnemonic. */
  function Layout(op: Op, ins: Instr, name: string): string {
    match op
    case Load(_) => LoadText(name, ins, OperandText(op, ins))
    case Store(_) => StoreText(name, ins, OperandText(op, ins))
    case _ =>
      if UsesA(op) then
        if UsesB(op) then TwoRegs(name, ins) else if UsesImm(op) then RegImm(name, ins) else OneReg(name, ins)
      else if UsesImm(op) then OneImm(name, ins)
      else name
  }

  lemma LayoutIsJoined(op: Op, ins: Instr)
    ensures Layout(op, ins, TextOf(NameFor(op))) == Joined(WordsOf(op, ins))
  {
    hide TextOf, NameFor, RegText, Decimal;
  }

  predicate Prints(ins: Instr)
    requires Decode(ins.opcode).Some?
  {
    var op := Decode(ins.opcode).value;
    InstructionText(ins) == Layout(op, ins, TextOf(NameFor(op)))
  }

  lemma PrintsLow(ins: Instr)
    requires 1 <= ins.opcode <= 19
    ensures Prints(ins)
  {
    hide RegText, Decimal, TwoRegs, RegImm, OneReg, OneImm, LoadText, StoreText;
  }

  lemma PrintsMiddle(ins: Instr)
    requires 20 <= ins.opcode <= 30
    ensures Prints(ins)
  {
    hide RegText, Decimal, TwoRegs, RegImm, OneReg, OneImm, LoadText, StoreText;
  }

  lemma PrintsHigh(ins: Instr)
    requires 31 <= ins.opcode <= 41
    ensures Prints(ins)
  {
    hide RegText, Decimal, TwoRegs, RegImm, OneReg, OneImm, LoadText, StoreText;
  }

  /** The switch prints the words of the family, joined. */
  lemma TextIsJoined(ins: Instr)
    requires Decode(ins.opcode).Some?
    ensures InstructionText(ins) == Joined(WordsOf(Decode(ins.opcode).value, ins))
  {
    EncodeDecode(ins.opcode);
    LayoutIsJoined(Decode(ins.opcode).value, ins);
    hide Decode, Joined, WordsOf, InstructionText, Layout;
    if ins.opcode <= 19 {
      PrintsLow(ins);
    } else if ins.opcode <= 30 {
      PrintsMiddle(ins);
    } else {
      PrintsHigh(ins);
    }
  }

  // ----- a line of words reads as those words -----

  /** A word the line reader leaves alone: no space, comma, comment or colon. */
  predicate PlainWord(w: string) {
    w != [] && forall i :: 0 <= i < |w| ==> !Splits(Blanks, w[i]) && w[i] != ';' && w[i] != ':'
  }

  predicate PlainText(s: string) {
    && s != []
    && !IsSpace(s[0]) && !IsSpace(s[|s| - 1])
    && (forall i :: 0 <= i < |s| ==> s[i] != ';' && s[i] != ':' && s[i] != '\n')
  }

  lemma {:induction false} UncommentedPlain(s: string)
    requires forall i :: 0 <= i < |s| ==> s[i] != ';'
    ensures Uncommented(s) == s
  {
    if s != [] {
      UncommentedPlain(s[1..]);
    }
  }

  lemma PlainLine(s: string)
    requires PlainText(s)
    ensures LineOf(s) ==
      if |Tokens(Blanks, s)| > MAX_TOKENS then Bad
      else if Tokens(Blanks, s) == [] then Empty
      else ParseTokens(Tokens(Blanks, s))
  {
    UncommentedPlain(s);
    TrimNothing(s);
    hide Tokens, ParseTokens, Trim, Uncommented;
  }

  lemma WordTokens(w: string)
    requires PlainWord(w)
    ensures Tokens(Blanks, w) == [w]
  {
    FirstToken(Blanks, w, []);
    NoTokens(Blanks, []);
    hide Tokens;
    assert w + [] == w;
  }

  lemma SpacedTokens(w: string, rest: string)
    requires PlainWord(w)
    ensures Tokens(Blanks, w + " " + rest) == [w] + Tokens(Blanks, rest)
  {
    var t := " " + rest;
    assert t[1..] == rest;
    SkipOne(Blanks, t);
    FirstToken(Blanks, w, t);
    hide Tokens;
    assert w + " " + rest == w + t;
  }

  lemma CommaTokens(w: string, rest: string)
    requires PlainWord(w)
    ensures Tokens(Blanks, w + ", " + rest) == [w] + Tokens(Blanks, rest)
  {
    var t := ", " + rest;
    assert t[1..] == " " + rest && t[1..][1..] == rest;
    SkipOne(Blanks, t);
    SkipOne(Blanks, t[1..]);
    FirstToken(Blanks, w, t);
    hide Tokens;
    assert w + ", " + rest == w + t;
  }

  predicate PlainWords(words: seq<string>) {
    1 <= |words| <= 3 && forall i :: 0 <= i < |words| ==> PlainWord(words[i])
  }

  lemma JoinedTokens(words: seq<string>)
    requires PlainWords(words)
    ensures Tokens(Blanks, Joined(words)) == words
  {
    hide Tokens, PlainWord;
    WordTokens(words[|words| - 1]);
    if |words| == 2 {
      SpacedTokens(words[0], words[1]);
    } else if |words| == 3 {
      CommaTokens(words[1], words[2]);
      SpacedTokens(words[0], words[1] + ", " + words[2]);
      assert words[0] + " " + words[1] + ", " + words[2] == words[0] + " " + (words[1] + ", " + words[2]);
    }
  }

  lemma JoinedPlain(words: seq<string>)
    requires PlainWords(words)
    ensures PlainText(Joined(words))
  {
    var s := Joined(words);
    var first, last := words[0], words[|words| - 1];
    assert PlainWord(first) && PlainWord(last);
    assert s[0] == first[0] && s[|s| - 1] == last[|last| - 1];
    if |words| == 3 {
      assert PlainWord(words[1]);
    }
  }

  /** A line of plain words parses as those words. */
  lemma JoinedLine(words: seq<string>)
    requires PlainWords(words)
    ensures LineOf(Joined(words)) == ParseTokens(words)
  {
    JoinedTokens(words);
    JoinedPlain(words);
    PlainLine(Joined(words));
  }

  // ----- the words are plain, and read back -----

  lemma DigitsPlain(n: nat)
    ensures PlainWord(Digits(n))
  {
    DigitsShape(n);
  }

  lemma DecimalPlain(x: int)
    ensures PlainWord(Decimal(x))
  {
    DigitsPlain(Abs(x));
  }

  lemma RegTextPlain(r: byte)
    ensures PlainWord(RegText(r))
  {
    DigitsPlain(r);
  }

  lemma BracketsPlain(w: string)
    requires PlainWord(w)
    ensures PlainWord("[" + w + "]")
  {
  }

  lemma NamePlain(n: Name)
    ensures PlainWord(TextOf(n))
  {
  }

  lemma ParseRegText(r: byte)
    requires r < REGISTERS
    ensures ParseRegister(RegText(r)) == Some(r)
    ensures ParseOperand(RegText(r)) == Some(Register(r))
  {
  }

  lemma ParseDecimalOperand(x: i64)
    ensures ParseOperand(Decimal(x)) == Some(Immediate(x))
    ensures ParseRegister(Decimal(x)) == None
    ensures !IsIdentifier(Decimal(x))
  {
    ParsePrinted(x);
    DigitsShape(Abs(x));
  }

  lemma {:induction false} DigitsLength(n: nat, k: nat)
    requires k > 0 && n < Pow10(k)
    ensures |Digits(n)| <= k
    decreases k
  {
    if n >= 10 {
      DigitsLength(n / 10, k - 1);
    }
  }

  function Pow10(k: nat): (p: nat)
    ensures p >= 1
  {
    if k == 0 then 1 else 10 * Pow10(k - 1)
  }

  lemma DecimalLength(x: i64)
    ensures 1 <= |Decimal(x)| <= 20
  {
    assert Pow10(4) == 10_000;
    assert Pow10(8) == 100_000_000;
    assert Pow10(12) == 1_000_000_000_000;
    assert Pow10(16) == 10_000_000_000_000_000;
    assert Pow10(19) == 10_000_000_000_000_000_000;
    DigitsLength(Abs(x), 19);
    DigitsShape(Abs(x));
  }

  lemma ParseBrackets(w: string)
    requires PlainWord(w) && |w| <= 20
    ensures ParseMemoryOperand("[" + w + "]") == ParseOperand(w)
  {
    var t := "[" + w + "]";
    assert t[1..|t| - 1] == w;
    TrimNothing(w);
  }

  // ----- round trips -----

  lemma WordsPlain(op: Op, ins: Instr)
    ensures PlainWords(WordsOf(op, ins))
  {
    NamePlain(NameFor(op));
    RegTextPlain(ins.a);
    RegTextPlain(ins.b);
    DecimalPlain(ins.imm);
    BracketsPlain(OperandText(op, ins));
    hide PlainWord, RegText, Decimal, TextOf;
  }

  lemma ParseOperandText(op: Op, ins: Instr)
    requires UsesB(op) ==> ins.b < REGISTERS
    ensures var y := if UsesB(op) then Register(ins.b) else Immediate(ins.imm);
      && ParseOperand(OperandText(op, ins)) == Some(y)
      && ParseMemoryOperand("[" + OperandText(op, ins) + "]") == Some(y)
  {
    DecimalLength(ins.imm);
    DecimalPlain(ins.imm);
    if UsesB(op) {
      ParseRegText(ins.b);
      RegTextPlain(ins.b);
      ParseBrackets(RegText(ins.b));
    } else {
      ParseDecimalOperand(ins.imm);
      ParseBrackets(Decimal(ins.imm));
    }
  }

  /** A canonical record is rebuilt from its family and its operands. */
  lemma Rebuilt(ins: Instr)
    requires Canonical(ins)
    ensures var op := Decode(ins.opcode).value;
      var y := if UsesB(op) then Register(ins.b) else Immediate(ins.imm);
      && (TakesOperand(NameFor(op)) ==> WithOperand(NameFor(op), ins.a, y) == ins)
      && (!TakesOperand(NameFor(op)) && !IsBranch(op) ==>
            OpOf(NameFor(op), Imm) == op && MakeInstr(op, ins.a) == ins && (!UsesA(op) ==> ins.a == 0))
  {
    EncodeDecode(ins.opcode);
    NamesFamily(Decode(ins.opcode).value);
    hide Decode, Encode;
  }

  /** The shape of the words by mnemonic. */
  lemma WordShape(op: Op, ins: Instr)
    ensures var n, words := NameFor(op), WordsOf(op, ins);
      var name, a, y := TextOf(n), RegText(ins.a), OperandText(op, ins);
      words ==
        if n == NLoad then [name, a, "[" + y + "]"]
        else if n == NStore then [name, "[" + y + "]", a]
        else if TakesOperand(n) then [name, a, y]
        else if n in {NPush, NPop, NPrint, NNot} then [name, a]
        else if n in {NJz, NJnz} then [name, a, Decimal(ins.imm)]
        else if n in {NJmp, NCall, NJe, NJne} then [name, Decimal(ins.imm)]
        else [name]
    ensures IsBranch(op) <==> NameFor(op) in {NJz, NJnz, NJmp, NCall, NJe, NJne}
    ensures UsesA(op) <==> NameFor(op) !in {NJmp, NCall, NJe, NJne, NRet, NNop, NHalt}
  {
    hide TextOf, RegText, Decimal;
  }

  /** What the parser makes of words of that shape. */
  lemma ShapeParses(n: Name, words: seq<string>)
    requires words != [] && NameOf(words[0]) == Some(n)
    ensures n == NLoad && |words| == 3 ==> ParseTokens(words) == ParseTwoOperand(n, words[1], ParseMemoryOperand(words[2]))
    ensures n == NStore && |words| == 3 ==> ParseTokens(words) == ParseTwoOperand(n, words[2], ParseMemoryOperand(words[1]))
    ensures TakesOperand(n) && n != NLoad && n != NStore && |words| == 3 ==>
      ParseTokens(words) == ParseTwoOperand(n, words[1], ParseOperand(words[2]))
    ensures n in {NPush, NPop, NPrint, NNot} && |words| == 2 && ParseRegister(words[1]).Some? ==>
      ParseTokens(words) == Code(MakeInstr(OpOf(n, Imm), ParseRegister(words[1]).value), None)
    ensures n in {NJz, NJnz} && |words| == 3 && ParseRegister(words[1]).Some? ==>
      ParseTokens(words) ==
        if IsIdentifier(words[2]) then Code(MakeInstr(OpOf(n, Imm), ParseRegister(words[1]).value), Some(words[2])) else Bad
    ensures n in {NJmp, NCall, NJe, NJne} && |words| == 2 ==>
      ParseTokens(words) == if IsIdentifier(words[1]) then Code(MakeInstr(OpOf(n, Imm), 0), Some(words[1])) else Bad
    ensures n in {NRet, NNop, NHalt} && |words| == 1 ==> ParseTokens(words) == Code(MakeInstr(OpOf(n, Imm), 0), None)
  {
    hide NameOf, ParseOperand, ParseMemoryOperand, ParseRegister, IsIdentifier, MakeInstr, OpOf, ParseTwoOperand;
  }

  /** The words of a canonical instruction parse as that instruction, unless it
      is a branch: a number is not a label. */
  lemma WordsParse(ins: Instr)
    requires Canonical(ins)
    ensures var op := Decode(ins.opcode).value;
      ParseTokens(WordsOf(op, ins)) == if IsBranch(op) then Bad else Code(ins, None)
  {
    var op := Decode(ins.opcode).value;
    var n := NameFor(op);
    Rebuilt(ins);
    WordShape(op, ins);
    NameRoundTrip(n);
    ShapeParses(n, WordsOf(op, ins));
    ParseOperandText(op, ins);
    ParseDecimalOperand(ins.imm);
    if UsesA(op) {
      ParseRegText(ins.a);
    }
    hide Decode, TextOf, NameOf, RegText, Decimal, ParseOperand, ParseMemoryOperand, ParseRegister, IsIdentifier;
    hide OperandText, WithOperand, MakeInstr, OpOf, WordsOf, ParseTokens, NameFor, IsBranch, UsesA;
  }

  /** Disassembling then assembling: every canonical instruction other than a
      branch comes back, any 64-bit immediate included; a branch never does. */
  lemma InstructionRoundTrip(ins: Instr)
    requires Canonical(ins)
    ensures LineOf(InstructionText(ins)) ==
      if IsBranch(Decode(ins.opcode).value) then Bad else Code(ins, None)
  {
    var op := Decode(ins.opcode).value;
    TextIsJoined(ins);
    WordsPlain(op, ins);
    JoinedLine(WordsOf(op, ins));
    WordsParse(ins);
  }

  lemma BranchWords(x: Instr, y: Instr)
    requires Canonical(x) && Canonical(y)
    requires IsBranch(Decode(x.opcode).value) && IsBranch(Decode(y.opcode).value)
    requires WordsOf(Decode(x.opcode).value, x) == WordsOf(Decode(y.opcode).value, y)
    ensures x == y
  {
    var p, q := Decode(x.opcode).value, Decode(y.opcode).value;
    EncodeDecode(x.opcode);
    EncodeDecode(y.opcode);
    assert WordsOf(p, x)[0] == WordsOf(q, y)[0];
    NameRoundTrip(NameFor(p));
    NameRoundTrip(NameFor(q));
    NamesFamily(p);
    NamesFamily(q);
    var n := |WordsOf(p, x)| - 1;
    assert WordsOf(p, x)[n] == WordsOf(q, y)[n];
    assert WordsOf(p, x)[1] == WordsOf(q, y)[1];
    if Decimal(x.imm) == Decimal(y.imm) {
      DecimalInjective(x.imm, y.imm);
    }
    if UsesA(p) {
      ParseRegText(x.a);
      ParseRegText(y.a);
    }
    hide Decode, Encode, TextOf, NameOf, RegText, Decimal, ParseRegister, ParseOperand;
  }

  /** Over all canonical instructions, branches included, no two print alike. */
  lemma TextInjective(x: Instr, y: Instr)
    requires Canonical(x) && Canonical(y) && InstructionText(x) == InstructionText(y)
    ensures x == y
  {
    var p, q := Decode(x.opcode).value, Decode(y.opcode).value;
    InstructionRoundTrip(x);
    InstructionRoundTrip(y);
    if IsBranch(p) && IsBranch(q) {
      TextIsJoined(x);
      TextIsJoined(y);
      WordsPlain(p, x);
      WordsPlain(q, y);
      JoinedTokens(WordsOf(p, x));
      JoinedTokens(WordsOf(q, y));
      BranchWords(x, y);
    }
    hide Decode, LineOf, InstructionText;
  }

  // ----- whole programs -----

  /** `%04zu` and two spaces. */
  function IndexText(ip: nat): string {
    var d := Digits(ip);
    (if |d| < 4 then seq(4 - |d|, _ => '0') else []) + d + "  "
  }

  /** The column is at least four digits wide and spells the index. */
  lemma IndexReadsBack(ip: nat)
    ensures |IndexText(ip)| >= 6
    ensures NumberValue(IndexText(ip)[..|IndexText(ip)| - 2], 10) == ip
  {
    var d := Digits(ip);
    DigitsInValue(ip, 10);
    hide NumberValue;
    var zeros := if |d| < 4 then 4 - |d| else 0;
    ZerosInFront(d, zeros);
    assert IndexText(ip)[..|IndexText(ip)| - 2] == seq(zeros, _ => '0') + d;
  }

  lemma {:induction false} ZerosInFront(d: string, k: nat)
    ensures NumberValue(seq(k, _ => '0') + d, 10) == NumberValue(d, 10)
    decreases k
  {
    if k == 0 {
      assert seq(k, _ => '0') + d == d;
    } else {
      ZerosInFront(d, k - 1);
      LeadingZero(seq(k - 1, _ => '0') + d, 10);
      assert seq(k, _ => '0') + d == "0" + (seq(k - 1, _ => '0') + d);
    }
  }

  function Listing(code: seq<Instr>): string {
    if code == [] then []
    else Listing(code[..|code| - 1]) + IndexText(|code| - 1) + InstructionText(code[|code| - 1]) + "\n"
  }

  method DisassembleProgram(code: seq<Instr>) returns (out: string)
    ensures out == Listing(code)
  {
    hide IndexText, InstructionText;
    out := [];
    for i := 0 to |code|
      invariant out == Listing(code[..i])
    {
      assert code[..i + 1][..i] == code[..i];
      out := out + IndexText(i) + InstructionText(code[i]) + "\n";
    }
    assert code[..|code|] == code;
  }

  function Unlines(lines: seq<string>): string {
    if lines == [] then [] else lines[0] + "\n" + Unlines(lines[1..])
  }

  /** Lines that are not empty and hold no newline are found again. */
  lemma {:induction false} LinesOfUnlines(lines: seq<string>)
    requires forall i :: 0 <= i < |lines| ==> IsWord(Newline, lines[i])
    ensures Tokens(Newline, Unlines(lines)) == lines
    decreases |lines|
  {
    hide Tokens;
    if lines == [] {
      NoTokens(Newline, []);
    } else {
      var t, rest := lines[0], Unlines(lines[1..]);
      FirstToken(Newline, t, "\n" + rest);
      assert ("\n" + rest)[1..] == rest;
      SkipOne(Newline, "\n" + rest);
      assert t + "\n" + rest == t + ("\n" + rest);
      LinesOfUnlines(lines[1..]);
    }
  }

  function Texts(code: seq<Instr>): (lines: seq<string>)
    ensures |lines| == |code|
    ensures forall i :: 0 <= i < |code| ==> lines[i] == InstructionText(code[i])
  {
    seq(|code|, i requires 0 <= i < |code| => InstructionText(code[i]))
  }

  /** The listing without its index column, as source text. */
  function SourceText(code: seq<Instr>): string {
    Unlines(Texts(code))
  }

  lemma TextIsLine(ins: Instr)
    requires Canonical(ins)
    ensures IsWord(Newline, InstructionText(ins))
  {
    var op := Decode(ins.opcode).value;
    TextIsJoined(ins);
    WordsPlain(op, ins);
    JoinedPlain(WordsOf(op, ins));
    hide InstructionText, WordsOf, Joined, Decode;
  }

  predicate AllCanonical(code: seq<Instr>) {
    forall i :: 0 <= i < |code| ==> Canonical(code[i])
  }

  // ----- the index column comes off again -----

  function IndexedTexts(code: seq<Instr>): (lines: seq<string>)
    ensures |lines| == |code|
    ensures forall i :: 0 <= i < |code| ==> lines[i] == IndexText(i) + InstructionText(code[i])
  {
    seq(|code|, i requires 0 <= i < |code| => IndexText(i) + InstructionText(code[i]))
  }

  lemma {:induction false} UnlinesSnoc(lines: seq<string>, last: string)
    ensures Unlines(lines + [last]) == Unlines(lines) + last + "\n"
  {
    if lines == [] {
      assert [last][1..] == [] && [] + [last] == [last];
      assert Unlines([last]) == last + "\n" + Unlines([]);
    } else {
      assert (lines + [last])[1..] == lines[1..] + [last];
      UnlinesSnoc(lines[1..], last);
    }
  }

  lemma IndexedSnoc(code: seq<Instr>)
    requires code != []
    ensures var n := |code| - 1;
      IndexedTexts(code) == IndexedTexts(code[..n]) + [IndexText(n) + InstructionText(code[n])]
  {
    hide IndexText, InstructionText;
  }

  lemma {:induction false} ListingIsLines(code: seq<Instr>)
    ensures Listing(code) == Unlines(IndexedTexts(code))
    decreases |code|
  {
    hide IndexText, InstructionText, Unlines;
    if code == [] {
      UnlinesEmpty();
    } else {
      var n := |code| - 1;
      var before := IndexedTexts(code[..n]);
      var last := IndexText(n) + InstructionText(code[n]);
      ListingIsLines(code[..n]);
      IndexedSnoc(code);
      UnlinesSnoc(before, last);
    }
  }

  lemma UnlinesEmpty()
    ensures Unlines([]) == []
  {
  }

  lemma {:induction false} DigitRunOf(d: string, rest: string)
    requires forall i :: 0 <= i < |d| ==> IsDigit(d[i])
    requires rest != [] && !IsDigit(rest[0]) && !IsAlpha(rest[0])
    ensures DigitRun(d + rest, 10) == |d|
  {
    if d == [] {
      assert d + rest == rest;
    } else {
      assert (d + rest)[1..] == d[1..] + rest;
      DigitRunOf(d[1..], rest);
    }
  }

  /** A listing line without its leading digits and the two spaces after them. */
  function Uncolumned(line: string): string {
    var n := DigitRun(line, 10) + 2;
    if n <= |line| then line[n..] else []
  }

  lemma ColumnComesOff(ip: nat, text: string)
    ensures Uncolumned(IndexText(ip) + text) == text
    ensures IsWord(Newline, IndexText(ip))
  {
    DigitsShape(ip);
    var d := Digits(ip);
    hide Digits;
    var t := if |d| < 4 then seq(4 - |d|, _ => '0') + d else d;
    DigitRunOf(t, "  " + text);
    assert IndexText(ip) + text == t + ("  " + text);
    hide DigitRun;
  }

  /** A listing as source text: its lines without their columns. */
  function Unindexed(listing: string): string {
    var lines := Tokens(Newline, listing);
    Unlines(seq(|lines|, i requires 0 <= i < |lines| => Uncolumned(lines[i])))
  }

  lemma ListingSource(code: seq<Instr>)
    requires AllCanonical(code)
    ensures Unindexed(Listing(code)) == SourceText(code)
  {
    hide Tokens, Unlines, Uncolumned, IndexText, InstructionText, Canonical, Listing;
    var lines := IndexedTexts(code);
    ListingIsLines(code);
    forall i | 0 <= i < |code|
      ensures IsWord(Newline, lines[i]) && Uncolumned(lines[i]) == InstructionText(code[i])
    {
      ColumnComesOff(i, InstructionText(code[i]));
      TextIsLine(code[i]);
    }
    LinesOfUnlines(lines);
    assert seq(|lines|, i requires 0 <= i < |lines| => Uncolumned(lines[i])) == Texts(code);
  }

  lemma {:induction false} ItemAt(lines: seq<string>, i: nat)
    requires i < |lines|
    ensures ItemsOf(lines)[i] == LineOf(lines[i])
    decreases |lines|
  {
    hide LineOf;
    if i < |lines| - 1 {
      ItemAt(lines[..|lines| - 1], i);
    }
  }

  lemma {:induction false} PlainItems(items: seq<Line>, code: seq<Instr>, labels: seq<LabelDef>)
    requires |items| == |code| && forall i :: 0 <= i < |items| ==> items[i] == Code(code[i], None)
    ensures Accepted(items) && Emit(items, labels) == Some(code)
    decreases |items|
  {
    if items != [] {
      var n := |items| - 1;
      PlainItems(items[..n], code[..n], labels);
      assert code == code[..n] + [code[n]];
    }
  }

  lemma {:induction false} BadItem(items: seq<Line>, i: nat)
    requires i < |items| && items[i].Bad?
    ensures !Accepted(items)
    decreases |items|
  {
    if i < |items| - 1 {
      BadItem(items[..|items| - 1], i);
    }
  }

  predicate HasBranch(code: seq<Instr>) {
    exists i :: 0 <= i < |code| && Decode(code[i].opcode).Some? && IsBranch(Decode(code[i].opcode).value)
  }

  lemma SourceRoundTrip(code: seq<Instr>)
    requires AllCanonical(code)
    ensures TwoPass(SourceText(code)) == if HasBranch(code) then None else Some(code)
  {
    hide Tokens, LineOf, InstructionText, Decode, Unlines;
    forall i | 0 <= i < |code| ensures IsWord(Newline, Texts(code)[i]) {
      TextIsLine(code[i]);
    }
    LinesOfUnlines(Texts(code));
    var items := ItemsOf(Texts(code));
    forall i | 0 <= i < |code|
      ensures items[i] == if IsBranch(Decode(code[i].opcode).value) then Bad else Code(code[i], None)
    {
      assert Canonical(code[i]);
      ItemAt(Texts(code), i);
      InstructionRoundTrip(code[i]);
    }
    if HasBranch(code) {
      var i :| 0 <= i < |code| && Decode(code[i].opcode).Some? && IsBranch(Decode(code[i].opcode).value);
      BadItem(items, i);
    } else {
      assert forall i :: 0 <= i < |code| ==> Canonical(code[i]);
      PlainItems(items, code, LabelsOf(items));
    }
  }

  /** Assembling the listing of a canonical program, its index column cut off,
      gives the program back if it has no branch, and is rejected if it has
      one. */
  lemma ProgramRoundTrip(code: seq<Instr>)
    requires AllCanonical(code)
    ensures TwoPass(Unindexed(Listing(code))) == if HasBranch(code) then None else Some(code)
  {
    hide TwoPass, SourceText, Unindexed, Listing, HasBranch;
    ListingSource(code);
    SourceRoundTrip(code);
  }
}
