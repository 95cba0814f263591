/** Every structurally sound program is the assembly of some source: the one
    that names each instruction with a label and each target by its label. */
module Symbolic {
  import opened Words
  import opened Isa
  import opened Text
  import opened Syntax
  import opened Assembler
  import opened Labels
  import opened Disassembler

  // ----- branches written with a label -----

  lemma IdentifierPlain(name: string)
    requires IsIdentifier(name)
    ensures PlainWord(name)
  {
  }

  /** The words of a branch with a label where the number was. */
  function BranchTo(ins: Instr, name: string): seq<string>
    requires Canonical(ins) && IsBranch(Decode(ins.opcode).value)
  {
    var words := WordsOf(Decode(ins.opcode).value, ins);
    words[|words| - 1 := name]
  }

  /** A branch to a label parses as the branch with its target still open. */
  lemma BranchLine(ins: Instr, name: string)
    requires Canonical(ins) && IsBranch(Decode(ins.opcode).value) && IsIdentifier(name)
    ensures PlainWords(BranchTo(ins, name))
    ensures LineOf(Joined(BranchTo(ins, name))) == Code(ins.(imm := 0), Some(name))
  {
    var op := Decode(ins.opcode).value;
    var n, words := NameFor(op), BranchTo(ins, name);
    IdentifierPlain(name);
    WordsPlain(op, ins);
    WordShape(op, ins);
    NameRoundTrip(n);
    NamesFamily(op);
    EncodeDecode(ins.opcode);
    if UsesA(op) {
      ParseRegText(ins.a);
    }
    hide Decode, TextOf, NameOf, RegText, Decimal, ParseRegister, IsIdentifier, OperandText, WordsOf, NameFor, LineOf, Joined, PlainWord;
    JoinedLine(words);
    ShapeParses(n, words);
    hide ParseTokens, Encode;
  }

  // ----- label names -----

  function LabelName(i: nat): string {
    "L" + Digits(i)
  }

  lemma LabelNames(i: nat)
    requires i < TWO_63
    ensures IsIdentifier(LabelName(i)) && |LabelName(i)| <= NAME_MAX
  {
    DigitsShape(i);
    DecimalLength(i);
  }

  lemma LabelNamesDiffer(i: nat, j: nat)
    requires LabelName(i) == LabelName(j)
    ensures i == j
  {
    assert LabelName(i)[1..] == Digits(i) && LabelName(j)[1..] == Digits(j);
    DigitsInValue(i, 10);
    DigitsInValue(j, 10);
  }

  /** A name and a colon define that label. */
  lemma NamedLabel(name: string)
    requires IsIdentifier(name)
    ensures LineOf(name + ":") == Label(name)
  {
    var s := name + ":";
    IdentifierPlain(name);
    UncommentedPlain(s);
    TrimNothing(s);
    TrimNothing(name);
    assert s[..|s| - 1] == name;
    hide Uncommented, Trim, Tokens, ParseTokens, IsIdentifier;
  }

  lemma LabelLine(i: nat)
    requires i < TWO_63
    ensures LineOf(LabelName(i) + ":") == Label(LabelName(i))
    ensures IsWord(Newline, LabelName(i) + ":")
  {
    LabelNames(i);
    NamedLabel(LabelName(i));
    IdentifierPlain(LabelName(i));
    hide LineOf, IsIdentifier;
  }

  // ----- the source -----

  predicate AllStructural(code: seq<Instr>) {
    forall i :: 0 <= i < |code| ==> Structural(code[i], |code|)
  }

  function InstructionLine(ins: Instr, count: nat): string
    requires Structural(ins, count)
  {
    if IsBranch(Decode(ins.opcode).value) then Joined(BranchTo(ins, LabelName(ins.imm))) else InstructionText(ins)
  }

  function InstructionItem(ins: Instr, count: nat): Line
    requires Structural(ins, count)
  {
    if IsBranch(Decode(ins.opcode).value) then Code(ins.(imm := 0), Some(LabelName(ins.imm))) else Code(ins, None)
  }

  lemma InstructionLineReads(ins: Instr, count: nat)
    requires Structural(ins, count)
    ensures LineOf(InstructionLine(ins, count)) == InstructionItem(ins, count)
    ensures IsWord(Newline, InstructionLine(ins, count))
  {
    if IsBranch(Decode(ins.opcode).value) {
      LabelNames(ins.imm);
      BranchLine(ins, LabelName(ins.imm));
      JoinedPlain(BranchTo(ins, LabelName(ins.imm)));
      hide Joined, BranchTo, LineOf;
    } else {
      InstructionRoundTrip(ins);
      TextIsLine(ins);
    }
  }

  /** A label before every instruction and one after the last. */
  function SymbolicLine(code: seq<Instr>, k: nat): string
    requires AllStructural(code) && k <= 2 * |code|
  {
    if k % 2 == 0 then LabelName(k / 2) + ":" else InstructionLine(code[k / 2], |code|)
  }

  function SymbolicItem(code: seq<Instr>, k: nat): Line
    requires AllStructural(code) && k <= 2 * |code|
  {
    if k % 2 == 0 then Label(LabelName(k / 2)) else InstructionItem(code[k / 2], |code|)
  }

  function SymbolicLines(code: seq<Instr>): seq<string>
    requires AllStructural(code)
  {
    seq(2 * |code| + 1, k requires 0 <= k <= 2 * |code| => SymbolicLine(code, k))
  }

  function SymbolicSource(code: seq<Instr>): string
    requires AllStructural(code)
  {
    Unlines(SymbolicLines(code))
  }

  lemma SymbolicItems(code: seq<Instr>)
    requires AllStructural(code) && |code| < TWO_63
    ensures var items := ItemsOf(SymbolicLines(code));
      |items| == 2 * |code| + 1 && forall k :: 0 <= k < |items| ==> items[k] == SymbolicItem(code, k)
    ensures Tokens(Newline, SymbolicSource(code)) == SymbolicLines(code)
  {
    hide LineOf, Tokens, LabelName, InstructionLine, InstructionItem, Structural;
    var lines := SymbolicLines(code);
    forall k | 0 <= k < |lines|
      ensures ItemsOf(lines)[k] == SymbolicItem(code, k) && IsWord(Newline, lines[k])
    {
      ItemAt(lines, k);
      if k % 2 == 0 {
        LabelLine(k / 2);
      } else {
        InstructionLineReads(code[k / 2], |code|);
      }
    }
    LinesOfUnlines(lines);
  }

  lemma {:induction false} CountAlternate(code: seq<Instr>, items: seq<Line>, k: nat)
    requires AllStructural(code) && |items| == 2 * |code| + 1
    requires forall j :: 0 <= j < |items| ==> items[j] == SymbolicItem(code, j)
    requires k <= |items|
    ensures CountCode(items[..k]) == k / 2
    decreases k
  {
    hide Structural, LabelName;
    if k > 0 {
      assert items[..k][..k - 1] == items[..k - 1];
      CountAlternate(code, items, k - 1);
    }
  }

  lemma SymbolicWellFormed(code: seq<Instr>, items: seq<Line>)
    requires AllStructural(code) && 12 * |code| <= TWO_64 && |items| == 2 * |code| + 1
    requires forall j :: 0 <= j < |items| ==> items[j] == SymbolicItem(code, j)
    ensures ShortNames(items) && NoErrors(items) && DistinctLabels(items) && AllBound(items)
  {
    hide LabelName;
    forall k | 0 <= k < |items| && items[k].Code? && items[k].target.Some?
      ensures Bound(items, items[k])
    {
      var t := code[k / 2].imm;
      assert Defines(items, 2 * t, LabelName(t));
    }
    forall k: nat | k < TWO_63
      ensures |LabelName(k)| <= NAME_MAX
    {
      LabelNames(k);
    }
    forall i, j | 0 <= i < j < |items| && items[i].Label? && items[j].Label?
      ensures items[i].name != items[j].name
    {
      if items[i].name == items[j].name {
        LabelNamesDiffer(i / 2, j / 2);
      }
    }
  }

  lemma ItemOfInstruction(ins: Instr, count: nat)
    requires Structural(ins, count)
    ensures var item := InstructionItem(ins, count);
      && item.Code?
      && (item.target == None ==> item.ins == ins)
      && (item.target.Some? ==>
            0 <= ins.imm <= count && item.target.value == LabelName(ins.imm) && item.ins == ins.(imm := 0))
  {
    hide Decode, LabelName;
  }

  /** Line 2i + 1 of the symbolic source emits instruction i. */
  lemma SymbolicEmits(code: seq<Instr>, items: seq<Line>, i: nat)
    requires AllStructural(code) && 12 * |code| <= TWO_64 && |items| == 2 * |code| + 1 && i < |code|
    requires forall j :: 0 <= j < |items| ==> items[j] == SymbolicItem(code, j)
    requires ShortNames(items) && DistinctLabels(items)
    ensures items[2 * i + 1].Code?
    ensures Resolvable(items[2 * i + 1], LabelsOf(items)) ==> Resolved(items[2 * i + 1], LabelsOf(items)) == code[i]
  {
    hide LabelName, LabelsOf, CountCode, Find, ShortNames, DistinctLabels, Key, Structural, InstructionItem;
    var k := 2 * i + 1;
    ItemOfInstruction(code[i], |code|);
    assert items[k] == InstructionItem(code[i], |code|);
    if items[k].target.Some? {
      var t := code[i].imm;
      assert Defines(items, 2 * t, LabelName(t));
      UniqueLabel(items, LabelName(t), 2 * t);
      CountAlternate(code, items, 2 * t);
    }
  }

  /** Assembling the symbolic source gives the program. */
  lemma SymbolicAssembles(code: seq<Instr>)
    requires AllStructural(code) && 12 * |code| <= TWO_64
    ensures TwoPass(SymbolicSource(code)) == Some(code)
  {
    hide Tokens, LabelName, Accepted, Emit, LabelsOf, CountCode, Find, SymbolicLines, ShortNames, NoErrors, DistinctLabels;
    var items := ItemsOf(SymbolicLines(code));
    SymbolicItems(code);
    SymbolicWellFormed(code, items);
    SourceMeaning(items);
    var labels := LabelsOf(items);
    var out := Emit(items, labels).value;
    EmitLength(items, labels);
    CountAlternate(code, items, |items|);
    assert items[..|items|] == items;
    EmitMeaning(items, labels);
    hide SymbolicItem, Resolved, Resolvable, AllStructural;
    forall i | 0 <= i < |code|
      ensures out[i] == code[i]
    {
      CountAlternate(code, items, 2 * i + 1);
      SymbolicEmits(code, items, i);
      assert out[CountCode(items[..2 * i + 1])] == Resolved(items[2 * i + 1], labels);
    }
    assert out == code;
  }

  /** The programs the assembler can produce are exactly the structurally sound
      ones: canonical records whose branch targets lie in 0..count. */
  lemma AssemblerImage(code: seq<Instr>)
    requires 12 * |code| <= TWO_64
    ensures (exists source :: TwoPass(source) == Some(code)) <==> AllStructural(code)
  {
    hide TwoPass, Structural;
    if source :| TwoPass(source) == Some(code) {
      AssembledIsStructural(source);
    }
    if AllStructural(code) {
      SymbolicAssembles(code);
    }
  }
}
