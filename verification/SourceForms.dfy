/** Assembly text in letters and opcode numbers: what each instruction looks
    like in a listing and in a source. */
module SourceForms {
  import opened Words
  import opened Isa
  import opened Text
  import opened Syntax
  import opened Assembler
  import opened Labels
  import opened Disassembler
  import opened Symbolic

  // ----- printed numbers -----

  /** t is x in decimal: a minus sign if x is negative, then the digits of its
      magnitude without leading zeros. */
  predicate PrintedFor(t: string, x: int) {
    && t != [] && (x < 0 ==> t[0] == '-')
    && var d := if x < 0 then t[1..] else t;
    && Spells(d, Abs(x), 10) && (|d| > 1 ==> d[0] != '0')
  }

  lemma DecimalPrinted(x: int)
    ensures PrintedFor(Decimal(x), x)
  {
    var d := Digits(Abs(x));
    DigitsShape(Abs(x));
    DigitsInShape(Abs(x), 10);
    DigitsInValue(Abs(x), 10);
    SpellsValue(d, Abs(x), 10);
    hide Spells, Digits, DigitsIn, NumberValue;
    assert x < 0 ==> Decimal(x)[1..] == d;
  }

  /** The registers are r0 to r7. */
  lemma RegisterNames(token: string)
    ensures forall r: byte :: ParseRegister(token) == Some(r) <==> r < 8 && token == "r" + ["01234567"[r]]
  {
    if |token| == 2 {
      assert token == [token[0], token[1]];
    }
  }

  // ----- instructions in letters -----

  /** The mnemonics by opcode number. */
  function Mnemonic(opcode: byte): string
    requires 1 <= opcode <= 41
  {
    match opcode
    case 1 | 2 => "mov"
    case 3 | 4 => "add"
    case 5 | 6 => "sub"
    case 7 | 8 => "mul"
    case 9 | 10 => "div"
    case 11 => "jmp"
    case 12 => "jz"
    case 13 => "jnz"
    case 14 => "print"
    case 15 => "halt"
    case 16 | 17 => "load"
    case 18 | 19 => "store"
    case 20 => "push"
    case 21 => "pop"
    case 22 => "call"
    case 23 => "ret"
    case 24 | 25 => "cmp"
    case 26 => "je"
    case 27 => "jne"
    case 28 => "nop"
    case 29 | 30 => "mod"
    case 31 | 32 => "and"
    case 33 | 34 => "or"
    case 35 | 36 => "xor"
    case 37 => "not"
    case 38 | 39 => "shl"
    case 40 | 41 => "shr"
  }

  /** What an instruction is printed as. */
  function Printout(ins: Instr): string {
    if ins.opcode == 0 || ins.opcode > 41 then
      ".byte 0x" + ["0123456789abcdef"[ins.opcode / 16], "0123456789abcdef"[ins.opcode % 16]] + " ; invalid opcode"
    else
      var name, a, b, imm := Mnemonic(ins.opcode), "r" + Digits(ins.a), "r" + Digits(ins.b), Decimal(ins.imm);
      if ins.opcode in {1, 3, 5, 7, 9, 12, 13, 24, 29, 31, 33, 35, 38, 40} then name + " " + a + ", " + imm
      else if ins.opcode in {2, 4, 6, 8, 10, 25, 30, 32, 34, 36, 39, 41} then name + " " + a + ", " + b
      else if ins.opcode in {14, 20, 21, 37} then name + " " + a
      else if ins.opcode in {11, 22, 26, 27} then name + " " + imm
      else if ins.opcode == 16 then name + " " + a + ", " + ("[" + imm + "]")
      else if ins.opcode == 17 then name + " " + a + ", " + ("[" + b + "]")
      else if ins.opcode == 18 then name + " " + ("[" + imm + "]") + ", " + a
      else if ins.opcode == 19 then name + " " + ("[" + b + "]") + ", " + a
      else name
  }

  lemma NumberForms(ins: Instr)
    requires ins.opcode in {1, 3, 5, 7, 9, 12, 13, 24, 29, 31, 33, 35, 38, 40}
    ensures InstructionText(ins) == RegImm(Mnemonic(ins.opcode), ins)
  {
    hide RegImm;
  }

  lemma RegisterForms(ins: Instr)
    requires ins.opcode in {2, 4, 6, 8, 10, 25, 30, 32, 34, 36, 39, 41}
    ensures InstructionText(ins) == TwoRegs(Mnemonic(ins.opcode), ins)
  {
    hide TwoRegs;
  }

  lemma OtherForms(ins: Instr)
    requires 1 <= ins.opcode <= 41
    ensures ins.opcode in {14, 20, 21, 37} ==> InstructionText(ins) == OneReg(Mnemonic(ins.opcode), ins)
    ensures ins.opcode in {11, 22, 26, 27} ==> InstructionText(ins) == OneImm(Mnemonic(ins.opcode), ins)
    ensures ins.opcode in {15, 23, 28} ==> InstructionText(ins) == Mnemonic(ins.opcode)
    ensures ins.opcode == 16 ==> InstructionText(ins) == LoadText(Mnemonic(ins.opcode), ins, Decimal(ins.imm))
    ensures ins.opcode == 17 ==> InstructionText(ins) == LoadText(Mnemonic(ins.opcode), ins, RegText(ins.b))
    ensures ins.opcode == 18 ==> InstructionText(ins) == StoreText(Mnemonic(ins.opcode), ins, Decimal(ins.imm))
    ensures ins.opcode == 19 ==> InstructionText(ins) == StoreText(Mnemonic(ins.opcode), ins, RegText(ins.b))
  {
    hide OneReg, OneImm, LoadText, StoreText, RegText, Decimal;
  }

  lemma WrittenInvalid(ins: Instr)
    requires ins.opcode == 0 || ins.opcode > 41
    ensures InstructionText(ins) == Printout(ins)
  {
    HexDigit(ins.opcode / 16);
    HexDigit(ins.opcode % 16);
    hide DigitChar;
  }

  lemma HexDigit(d: nat)
    requires d < 16
    ensures DigitChar(d) == "0123456789abcdef"[d]
  {
  }

  /** The text of every record, known opcode or not. */
  lemma TextIsWritten(ins: Instr)
    ensures InstructionText(ins) == Printout(ins)
  {
    hide InstructionText, Mnemonic, Digits, Decimal;
    if ins.opcode == 0 || ins.opcode > 41 {
      WrittenInvalid(ins);
    } else if ins.opcode in {1, 3, 5, 7, 9, 12, 13, 24, 29, 31, 33, 35, 38, 40} {
      NumberForms(ins);
    } else if ins.opcode in {2, 4, 6, 8, 10, 25, 30, 32, 34, 36, 39, 41} {
      RegisterForms(ins);
    } else {
      OtherForms(ins);
    }
  }

  // ----- listings -----

  /** The index column: four decimal digits, or more, and two spaces. */
  function Column(ip: nat): string {
    if ip < 10_000 then
      ["0123456789"[ip / 1000], "0123456789"[ip / 100 % 10], "0123456789"[ip / 10 % 10], "0123456789"[ip % 10]] + "  "
    else Decimal(ip) + "  "
  }

  lemma DigitsByPlace(n: nat)
    ensures if n < 10 then Digits(n) == ["0123456789"[n]] else Digits(n) == Digits(n / 10) + ["0123456789"[n % 10]]
  {
    var d := n % 10;
    assert DigitChar(d) == "0123456789"[d];
    hide DigitChar;
  }

  lemma {:induction false} LongNumber(n: nat, k: nat)
    requires n >= Pow10(k)
    ensures |Digits(n)| > k
    decreases k
  {
    DigitsByPlace(n);
    hide Digits;
    if k > 0 {
      LongNumber(n / 10, k - 1);
    }
  }

  lemma SmallIndex(ip: nat)
    requires ip < 10_000
    ensures var t := ["0123456789"[ip / 1000], "0123456789"[ip / 100 % 10], "0123456789"[ip / 10 % 10], "0123456789"[ip % 10]];
      |Digits(ip)| <= 4 && seq(4 - |Digits(ip)|, _ => '0') + Digits(ip) == t
  {
    hide Digits;
    DigitsByPlace(ip);
    DigitsByPlace(ip / 10);
    DigitsByPlace(ip / 10 / 10);
    DigitsByPlace(ip / 10 / 10 / 10);
    assert ip / 10 / 10 == ip / 100 && ip / 10 / 10 / 10 == ip / 1000;
  }

  lemma ColumnIs(ip: nat)
    ensures IndexText(ip) == Column(ip)
  {
    if ip < 10_000 {
      SmallIndex(ip);
    } else {
      assert Pow10(4) == 10_000;
      LongNumber(ip, 4);
    }
    hide Digits;
  }

  /** A listing has one line for each instruction: its index, its text. */
  lemma ListingGrows(code: seq<Instr>, ins: Instr)
    ensures Listing([]) == ""
    ensures Listing(code + [ins]) == Listing(code) + Column(|code|) + Printout(ins) + "\n"
  {
    hide InstructionText, Printout, IndexText, Column;
    assert (code + [ins])[..|code|] == code;
    TextIsWritten(ins);
    ColumnIs(|code|);
  }

  // ----- instructions as a source spells them -----

  lemma MnemonicOfFirst(opcode: byte)
    requires 1 <= opcode <= 14
    ensures Decode(opcode).Some? && TextOf(NameFor(Decode(opcode).value)) == Mnemonic(opcode)
  {
  }

  lemma MnemonicOfMiddle(opcode: byte)
    requires 15 <= opcode <= 28
    ensures Decode(opcode).Some? && TextOf(NameFor(Decode(opcode).value)) == Mnemonic(opcode)
  {
  }

  lemma MnemonicOfLast(opcode: byte)
    requires 29 <= opcode <= 41
    ensures Decode(opcode).Some? && TextOf(NameFor(Decode(opcode).value)) == Mnemonic(opcode)
  {
  }

  lemma MnemonicOf(opcode: byte)
    requires 1 <= opcode <= 41
    ensures Decode(opcode).Some? && TextOf(NameFor(Decode(opcode).value)) == Mnemonic(opcode)
    ensures NameOf(Mnemonic(opcode)) == Some(NameFor(Decode(opcode).value))
  {
    hide Decode, NameFor, TextOf, Mnemonic, NameOf;
    if opcode <= 14 {
      MnemonicOfFirst(opcode);
    } else if opcode <= 28 {
      MnemonicOfMiddle(opcode);
    } else {
      MnemonicOfLast(opcode);
    }
    NameRoundTrip(NameFor(Decode(opcode).value));
  }

  lemma NamedAlu(s: string)
    requires NameOf(s).Some? && NameOf(s).value in {NMov, NAdd, NSub, NMul, NDiv, NMod, NAnd, NOr, NXor}
    ensures TextOf(NameOf(s).value) == s
  {
  }

  lemma NamedShift(s: string)
    requires NameOf(s).Some? && NameOf(s).value in {NShl, NShr, NCmp, NLoad, NStore}
    ensures TextOf(NameOf(s).value) == s
  {
  }

  lemma NamedStack(s: string)
    requires NameOf(s).Some? && NameOf(s).value in {NPush, NPop, NPrint, NNot}
    ensures TextOf(NameOf(s).value) == s
  {
  }

  lemma NamedJump(s: string)
    requires NameOf(s).Some? && NameOf(s).value in {NJmp, NCall, NJe, NJne}
    ensures TextOf(NameOf(s).value) == s
  {
  }

  lemma NamedTest(s: string)
    requires NameOf(s).Some? && NameOf(s).value in {NJz, NJnz}
    ensures TextOf(NameOf(s).value) == s
  {
  }

  lemma NamedControl(s: string)
    requires NameOf(s).Some? && NameOf(s).value in {NRet, NNop, NHalt}
    ensures TextOf(NameOf(s).value) == s
  {
  }

  lemma NamedIsText(s: string)
    requires NameOf(s).Some?
    ensures TextOf(NameOf(s).value) == s
  {
    hide NameOf, TextOf;
    match NameOf(s).value
    case NMov | NAdd | NSub | NMul | NDiv | NMod | NAnd | NOr | NXor => NamedAlu(s);
    case NShl | NShr | NCmp | NLoad | NStore => NamedShift(s);
    case NPush | NPop | NPrint | NNot => NamedStack(s);
    case NJmp | NCall | NJe | NJne => NamedJump(s);
    case NJz | NJnz => NamedTest(s);
    case NRet | NNop | NHalt => NamedControl(s);
  }

  lemma FamilyNamed(n: Name)
    ensures NameFor(OpOf(n, Imm)) == n
  {
  }

  lemma NamedByNumber(n: Name) returns (opcode: byte)
    ensures 1 <= opcode <= 41 && Mnemonic(opcode) == TextOf(n)
  {
    hide Encode, Decode, Mnemonic, TextOf, NameFor, OpOf, NameOf;
    opcode := Encode(OpOf(n, Imm));
    DecodeEncode(OpOf(n, Imm));
    MnemonicOf(opcode);
    FamilyNamed(n);
  }

  /** No other word is a mnemonic. */
  lemma MnemonicsOnly(s: string)
    ensures NameOf(s).Some? <==> exists opcode: byte :: 1 <= opcode <= 41 && Mnemonic(opcode) == s
  {
    hide NameOf, TextOf, Mnemonic, NameFor, Decode;
    if NameOf(s).Some? {
      NamedIsText(s);
      var opcode := NamedByNumber(NameOf(s).value);
    }
    if opcode: byte :| 1 <= opcode <= 41 && Mnemonic(opcode) == s {
      MnemonicOf(opcode);
    }
  }

  // ----- which records a source can spell -----

  /** Reserved field 0, a known opcode, registers 0 to 7, unused fields 0. */
  predicate Spellable(ins: Instr) {
    && 1 <= ins.opcode <= 41 && ins.c == 0
    && (if ins.opcode in {11, 15, 22, 23, 26, 27, 28} then ins.a == 0 else ins.a < 8)
    && (if ins.opcode in {2, 4, 6, 8, 10, 17, 19, 25, 30, 32, 34, 36, 39, 41} then ins.b < 8 else ins.b == 0)
    && (ins.opcode in {2, 4, 6, 8, 10, 14, 15, 17, 19, 20, 21, 23, 25, 28, 30, 32, 34, 36, 37, 39, 41} ==> ins.imm == 0)
  }

  predicate Branches(opcode: byte) {
    opcode in {11, 12, 13, 22, 26, 27}
  }

  lemma SpellableIsCanonical(ins: Instr)
    ensures Canonical(ins) <==> Spellable(ins)
    ensures Canonical(ins) ==> (IsBranch(Decode(ins.opcode).value) <==> Branches(ins.opcode))
  {
  }

  /** The records a program from the assembler is made of. */
  lemma StructuralInNumbers(ins: Instr, count: nat)
    ensures Structural(ins, count) <==> Spellable(ins) && (Branches(ins.opcode) ==> 0 <= ins.imm <= count)
  {
    SpellableIsCanonical(ins);
    hide Canonical, Decode, Spellable, Branches;
  }

  /** A record without a label reads back from its text; a branch needs one. */
  lemma WrittenLine(ins: Instr)
    requires Spellable(ins)
    ensures LineOf(Printout(ins)) == if Branches(ins.opcode) then Bad else Code(ins, None)
  {
    hide LineOf, Printout, Canonical, Spellable, Branches, Decode, InstructionText;
    SpellableIsCanonical(ins);
    TextIsWritten(ins);
    InstructionRoundTrip(ins);
  }

  /** A letter or an underscore, then letters, digits and underscores. */
  lemma IdentifierMeaning(s: string)
    ensures IsIdentifier(s) <==>
      && s != [] && s[0] !in "0123456789"
      && forall i :: 0 <= i < |s| ==>
           s[i] in "_0123456789" || 65 <= s[i] as int <= 90 || 97 <= s[i] as int <= 122
  {
  }

  /** A word and a colon define a label, if the word is an identifier. */
  lemma LabelWritten(name: string)
    requires PlainWord(name)
    ensures LineOf(name + ":") == if IsIdentifier(name) then Label(name) else Bad
  {
    var s := name + ":";
    UncommentedPlain(s);
    TrimNothing(s);
    TrimNothing(name);
    assert s[..|s| - 1] == name;
    hide Uncommented, Trim, Tokens, ParseTokens, IsIdentifier;
  }

  predicate BranchForm(opcode: byte, n: Name) {
    && Encode(OpOf(n, Imm)) == opcode
    && (opcode in {12, 13} ==> n in {NJz, NJnz}) && (opcode in {11, 22, 26, 27} ==> n in {NJmp, NCall, NJe, NJne})
  }

  lemma BranchEncodes(opcode: byte)
    requires Branches(opcode)
    ensures Decode(opcode).Some? && BranchForm(opcode, NameFor(Decode(opcode).value))
  {
  }

  /** A branch to a label: the record with the target open, if the label is an
      identifier. */
  lemma BranchWritten(opcode: byte, a: byte, name: string)
    requires Branches(opcode) && PlainWord(name)
    ensures opcode in {11, 22, 26, 27} ==>
      LineOf(Mnemonic(opcode) + " " + name) ==
        if IsIdentifier(name) then Code(Instr(opcode, 0, 0, 0, 0), Some(name)) else Bad
    ensures opcode in {12, 13} && a < 8 ==>
      LineOf(Mnemonic(opcode) + " " + RegisterName(a) + ", " + name) ==
        if IsIdentifier(name) then Code(Instr(opcode, a, 0, 0, 0), Some(name)) else Bad
  {
    hide LineOf, Decode, Encode, Mnemonic, IsIdentifier, TextOf, NameFor, NameOf, OpOf, PlainWord, ParseTokens, ParseRegister, RegisterName;
    MnemonicOf(opcode);
    BranchEncodes(opcode);
    var n := NameFor(Decode(opcode).value);
    NamePlain(n);
    if opcode in {11, 22, 26, 27} {
      var words := [Mnemonic(opcode), name];
      JoinedLine(words);
      ShapeParses(n, words);
    } else if a < 8 {
      RegisterDigit(a);
      var words := [Mnemonic(opcode), RegisterName(a), name];
      JoinedLine(words);
      ShapeParses(n, words);
    }
  }

  /** How many words an instruction has. */
  function WordCount(opcode: byte): nat {
    if opcode in {15, 23, 28} then 1
    else if opcode in {11, 14, 20, 21, 22, 26, 27, 37} then 2
    else 3
  }

  lemma CountedByName(opcode: byte)
    requires 1 <= opcode <= 41
    ensures Decode(opcode).Some?
    ensures var n := NameFor(Decode(opcode).value);
      WordCount(opcode) ==
        if n in {NRet, NNop, NHalt} then 1
        else if n in {NPush, NPop, NPrint, NNot, NJmp, NCall, NJe, NJne} then 2
        else 3
  {
  }

  lemma MiscountedParse(n: Name, words: seq<string>)
    requires words != [] && NameOf(words[0]) == Some(n)
    requires |words| !=
      if n in {NRet, NNop, NHalt} then 1 else if n in {NPush, NPop, NPrint, NNot, NJmp, NCall, NJe, NJne} then 2 else 3
    ensures ParseTokens(words) == Bad
  {
    hide NameOf, ParseRegister, IsIdentifier, ParseOperand, ParseMemoryOperand, ParseTwoOperand, MakeInstr, OpOf;
  }

  /** A line of words is an error if the first is no mnemonic, or if they are not
      as many as its instruction has. */
  lemma WrongWords(words: seq<string>)
    requires PlainWords(words)
    ensures (forall opcode: byte :: 1 <= opcode <= 41 ==> Mnemonic(opcode) != words[0]) ==> LineOf(Joined(words)) == Bad
    ensures forall opcode: byte :: 1 <= opcode <= 41 && Mnemonic(opcode) == words[0] && WordCount(opcode) != |words| ==>
      LineOf(Joined(words)) == Bad
  {
    hide LineOf, Joined, Mnemonic, NameOf, WordCount, NameFor, Decode, TextOf;
    JoinedLine(words);
    MnemonicsOnly(words[0]);
    NoMnemonic(words);
    forall opcode: byte | 1 <= opcode <= 41 && Mnemonic(opcode) == words[0] && WordCount(opcode) != |words|
      ensures ParseTokens(words) == Bad
    {
      MnemonicOf(opcode);
      CountedByName(opcode);
      MiscountedParse(NameFor(Decode(opcode).value), words);
    }
  }

  lemma NoMnemonic(words: seq<string>)
    requires words != []
    ensures NameOf(words[0]) == None ==> ParseTokens(words) == Bad
  {
    hide NameOf, ParseRegister, IsIdentifier, ParseOperand, ParseMemoryOperand, ParseTwoOperand, MakeInstr, OpOf;
  }

  // ----- operands -----

  /** w is a number, in any of the notations of C. */
  ghost predicate NumberIn(w: string, x: i64) {
    exists i: nat, j: nat, k: nat, n: nat, base: nat :: NumeralFor(w, i, j, k, n, base, x)
  }

  function RegisterName(r: byte): string
    requires r < 8
  {
    "r" + ["01234567"[r]]
  }

  lemma RegisterIsNoNumber(w: string)
    requires |w| == 2 && w[0] == 'r'
    ensures ParseI64(w) == None
  {
    assert DigitValue('r') == 27;
    hide DigitValue, NumberValue;
    assert w[0..] == w;
  }

  /** An operand is a register, a number, or an error. */
  lemma OperandMeaning(w: string)
    ensures forall r: byte :: r < 8 && w == RegisterName(r) ==> ParseOperand(w) == Some(Register(r))
    ensures forall x: i64 :: NumberIn(w, x) ==> ParseOperand(w) == Some(Immediate(x))
    ensures ParseOperand(w) == None <==>
      (forall r: byte :: r < 8 ==> w != RegisterName(r)) && (forall x: i64 :: !NumberIn(w, x))
  {
    hide NumeralFor, ParseI64;
    RegisterNames(w);
    forall x: i64
      ensures ParseI64(w) == Some(x) <==> NumberIn(w, x)
    {
      NumeralMeaning(w, x);
    }
    if ParseRegister(w).Some? {
      RegisterIsNoNumber(w);
      assert w == RegisterName(ParseRegister(w).value);
    }
    hide NumberIn;
    if ParseI64(w).Some? {
      assert NumberIn(w, ParseI64(w).value);
    }
  }

  /** Between brackets there is room for 63 characters. */
  lemma MemoryMeaning(w: string)
    requires PlainWord(w)
    ensures ParseMemoryOperand("[" + w + "]") == if |w| <= 63 then ParseOperand(w) else None
  {
    var t := "[" + w + "]";
    assert t[1..|t| - 1] == w;
    TrimNothing(w);
    hide ParseOperand, Trim;
  }

  /** The record that a register and an operand complete. */
  function OperandLine(opcode: byte, a: Option<byte>, y: Option<Operand>): Line
    requires opcode < 255
  {
    match (a, y)
    case (Some(a), Some(Immediate(x))) => Code(Instr(opcode, a, 0, 0, x), None)
    case (Some(a), Some(Register(b))) => Code(Instr(opcode + 1, a, b, 0, 0), None)
    case _ => Bad
  }

  predicate TwoForms(opcode: byte) {
    opcode in {1, 3, 5, 7, 9, 16, 18, 24, 29, 31, 33, 35, 38, 40}
  }

  lemma TwoFormsEncode(opcode: byte)
    requires TwoForms(opcode)
    ensures Decode(opcode).Some?
    ensures var n := NameFor(Decode(opcode).value);
      TakesOperand(n) && Encode(OpOf(n, Imm)) == opcode && Encode(OpOf(n, Reg)) == opcode + 1
    ensures NameFor(Decode(opcode).value) == NLoad <==> opcode == 16
    ensures NameFor(Decode(opcode).value) == NStore <==> opcode == 18
  {
  }

  lemma RegisterDigit(a: byte)
    requires a < 8
    ensures PlainWord(RegisterName(a)) && ParseRegister(RegisterName(a)) == Some(a)
  {
    RegisterNames(RegisterName(a));
  }

  /** A mnemonic, a register t and an operand w. */
  lemma OperandRead(opcode: byte, t: string, w: string)
    requires TwoForms(opcode) && PlainWord(t) && PlainWord(w)
    ensures opcode !in {16, 18} ==>
      LineOf(Mnemonic(opcode) + " " + t + ", " + w) == OperandLine(opcode, ParseRegister(t), ParseOperand(w))
    ensures opcode == 16 ==>
      LineOf(Mnemonic(opcode) + " " + t + ", " + ("[" + w + "]")) ==
        OperandLine(opcode, ParseRegister(t), if |w| <= 63 then ParseOperand(w) else None)
    ensures opcode == 18 ==>
      LineOf(Mnemonic(opcode) + " " + ("[" + w + "]") + ", " + t) ==
        OperandLine(opcode, ParseRegister(t), if |w| <= 63 then ParseOperand(w) else None)
  {
    hide LineOf, Mnemonic, ParseOperand, ParseMemoryOperand, ParseRegister, PlainWord, NameOf, TextOf, NameFor, Decode, Encode, OpOf, ParseTokens;
    MnemonicOf(opcode);
    TwoFormsEncode(opcode);
    MemoryMeaning(w);
    BracketsPlain(w);
    var n := NameFor(Decode(opcode).value);
    NamePlain(n);
    var m := "[" + w + "]";
    var words := if opcode == 16 then [Mnemonic(opcode), t, m] else if opcode == 18 then [Mnemonic(opcode), m, t] else [Mnemonic(opcode), t, w];
    JoinedLine(words);
    ShapeParses(n, words);
  }

  lemma OneRegisterParse(n: Name, words: seq<string>)
    requires |words| == 2 && NameOf(words[0]) == Some(n) && n in {NPush, NPop, NPrint, NNot}
    ensures ParseTokens(words) ==
      match ParseRegister(words[1])
      case Some(a) => Code(Instr(Encode(OpOf(n, Imm)), a, 0, 0, 0), None)
      case None => Bad
  {
    hide NameOf, ParseRegister, Encode, OpOf;
  }

  lemma OneRegisterEncodes(opcode: byte)
    requires opcode in {14, 20, 21, 37}
    ensures Decode(opcode).Some?
    ensures var n := NameFor(Decode(opcode).value); n in {NPush, NPop, NPrint, NNot} && Encode(OpOf(n, Imm)) == opcode
  {
  }

  /** A mnemonic and a register. */
  lemma RegisterRead(opcode: byte, t: string)
    requires opcode in {14, 20, 21, 37} && PlainWord(t)
    ensures LineOf(Mnemonic(opcode) + " " + t) ==
      match ParseRegister(t)
      case Some(a) => Code(Instr(opcode, a, 0, 0, 0), None)
      case None => Bad
  {
    hide LineOf, Mnemonic, ParseRegister, PlainWord, NameOf, TextOf, NameFor, Decode, Encode, OpOf, ParseTokens;
    MnemonicOf(opcode);
    OneRegisterEncodes(opcode);
    var n := NameFor(Decode(opcode).value);
    NamePlain(n);
    var words := [Mnemonic(opcode), t];
    JoinedLine(words);
    OneRegisterParse(n, words);
  }

  // ----- what the label table keeps -----

  /** Two names are one to the table exactly if they agree in 63 characters. */
  lemma NamesKept(x: string, y: string)
    ensures Key(x) == Key(y) <==> x == y || (|x| >= 63 && |y| >= 63 && x[..63] == y[..63])
    ensures |x| <= 63 ==> Key(x) == x
    ensures |x| > 63 ==> Key(x) == x[..63]
  {
  }
}
