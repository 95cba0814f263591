/** examples/fib.wai from its text to its output: assembled, loaded and run by
    the NASM engine. */
module EndToEnd {
  import opened Words
  import opened Isa
  import opened Machine
  import opened CVm
  import opened Nasm
  import opened Text
  import opened Syntax
  import opened Assembler
  import opened Labels
  import opened Disassembler
  import opened Symbolic
  import opened Fibonacci

  // ----- indentation and comments -----

  /** What may follow an instruction on its line. */
  predicate Tail(s: string, pad: string) {
    Spaces(pad) && pad <= s && (|pad| < |s| ==> s[|pad|] == ';')
  }

  lemma {:induction false} UncommentedCut(s: string, rest: string)
    requires forall i :: 0 <= i < |s| ==> s[i] != ';'
    requires rest != [] ==> rest[0] == ';'
    ensures Uncommented(s + rest) == s
  {
    if s == [] {
      assert s + rest == rest;
    } else {
      assert (s + rest)[1..] == s[1..] + rest;
      UncommentedCut(s[1..], rest);
    }
  }

  /** Indentation, trailing spaces and a comment do not change what a line
      means. */
  lemma PaddedLine(indent: string, text: string, tail: string, pad: string)
    requires Spaces(indent) && PlainText(text) && Tail(tail, pad)
    ensures LineOf(indent + text + tail) == LineOf(text)
  {
    var line, rest := indent + text + pad, tail[|pad|..];
    assert indent + text + tail == line + rest;
    assert forall c :: IsSpace(c) ==> c != ';';
    UncommentedCut(line, rest);
    assert line == indent + (text + pad);
    LeftPadding(indent, text + pad);
    RightPadding(text, pad);
    UncommentedPlain(text);
    TrimNothing(text);
    hide Tokens, ParseTokens, Uncommented, TrimLeft, TrimRight;
  }

  // ----- the example's text -----

  function Opening(n: i64): (lines: seq<string>)
    ensures |lines| == 3
  {
    [ "mov r0, " + Decimal(n) + "     ; n",
      "mov r1, 0      ; a",
      "mov r2, 1      ; b" ]
  }

  function Body(): (lines: seq<string>)
    ensures |lines| == 8
  {
    [ "loop:",
      "  jz r0, done",
      "  mov r3, r1",
      "  add r3, r2",
      "  mov r1, r2",
      "  mov r2, r3",
      "  sub r0, 1",
      "  jmp loop" ]
  }

  function Closing(): (lines: seq<string>)
    ensures |lines| == 3
  {
    [ "done:",
      "  print r1",
      "  halt" ]
  }

  /** The file, with `n` as the initial count. */
  function Source(n: i64): string {
    "; fibonacci: compute F(10) = 55\n\n" + (Unlines(Opening(n)) + ("\n" + (Unlines(Body()) + ("\n" + Unlines(Closing())))))
  }

  function SourceLines(n: i64): seq<string> {
    ["; fibonacci: compute F(10) = 55"] + Opening(n) + Body() + Closing()
  }

  predicate AllWords(lines: seq<string>) {
    forall i :: 0 <= i < |lines| ==> IsWord(Newline, lines[i])
  }

  lemma {:induction false} ParagraphTokens(lines: seq<string>, rest: string)
    requires AllWords(lines)
    ensures Tokens(Newline, Unlines(lines) + rest) == lines + Tokens(Newline, rest)
  {
    hide Tokens;
    if lines == [] {
      assert Unlines(lines) + rest == rest;
    } else {
      var t, more := lines[0], Unlines(lines[1..]) + rest;
      FirstToken(Newline, t, "\n" + more);
      assert ("\n" + more)[1..] == more;
      SkipOne(Newline, "\n" + more);
      assert Unlines(lines) + rest == t + ("\n" + more);
      ParagraphTokens(lines[1..], rest);
    }
  }

  lemma BlankTokens(rest: string)
    ensures Tokens(Newline, "\n" + rest) == Tokens(Newline, rest)
  {
    SkipOne(Newline, "\n" + rest);
    assert ("\n" + rest)[1..] == rest;
    hide Tokens;
  }

  lemma OpeningWords(n: i64)
    ensures AllWords(Opening(n))
  {
    DecimalPlain(n);
  }

  lemma BodyWords()
    ensures AllWords(Body())
  {
  }

  lemma ClosingWords()
    ensures AllWords(Closing())
  {
  }

  lemma SourceTokens(n: i64)
    ensures Tokens(Newline, Source(n)) == SourceLines(n)
  {
    hide Tokens, Unlines, AllWords, Opening, Body, Closing;
    OpeningWords(n);
    BodyWords();
    ClosingWords();
    var last := Unlines(Closing());
    var middle := Unlines(Body()) + ("\n" + last);
    var rest := Unlines(Opening(n)) + ("\n" + middle);
    ParagraphTokens(Closing(), []);
    assert last + [] == last;
    NoTokens(Newline, []);
    BlankTokens(last);
    ParagraphTokens(Body(), "\n" + last);
    BlankTokens(middle);
    ParagraphTokens(Opening(n), "\n" + middle);
    BlankTokens(rest);
    BlankTokens("\n" + rest);
    CommentToken("\n" + ("\n" + rest));
    assert Source(n) == "; fibonacci: compute F(10) = 55" + ("\n" + ("\n" + rest));
  }

  lemma CommentToken(rest: string)
    requires rest != [] && rest[0] == '\n'
    ensures Tokens(Newline, "; fibonacci: compute F(10) = 55" + rest) ==
      ["; fibonacci: compute F(10) = 55"] + Tokens(Newline, rest)
  {
    FirstToken(Newline, "; fibonacci: compute F(10) = 55", rest);
  }

  // ----- what its lines mean -----

  function Items(n: i64): seq<Line> {
    var p := Program(n);
    [ Empty, Code(p[0], None), Code(p[1], None), Code(p[2], None),
      Label("loop"), Code(p[3].(imm := 0), Some("done")), Code(p[4], None), Code(p[5], None),
      Code(p[6], None), Code(p[7], None), Code(p[8], None), Code(p[9].(imm := 0), Some("loop")),
      Label("done"), Code(p[10], None), Code(p[11], None) ]
  }

  lemma NoTail()
    ensures Tail("", "") && Spaces("  ")
  {
  }

  lemma PaddedInstruction(ins: Instr, indent: string, tail: string, pad: string)
    requires Canonical(ins) && !IsBranch(Decode(ins.opcode).value) && Spaces(indent) && Tail(tail, pad)
    ensures LineOf(indent + InstructionText(ins) + tail) == Code(ins, None)
  {
    hide InstructionText, LineOf, WordsOf, Joined, Decode, PlainWords, PlainText, Spaces, Tail;
    var op := Decode(ins.opcode).value;
    InstructionRoundTrip(ins);
    TextIsJoined(ins);
    WordsPlain(op, ins);
    JoinedPlain(WordsOf(op, ins));
    PaddedLine(indent, InstructionText(ins), tail, pad);
  }

  lemma PaddedBranch(ins: Instr, name: string, indent: string)
    requires Canonical(ins) && IsBranch(Decode(ins.opcode).value) && IsIdentifier(name) && Spaces(indent)
    ensures LineOf(indent + Joined(BranchTo(ins, name))) == Code(ins.(imm := 0), Some(name))
  {
    hide LineOf, BranchTo, Decode, PlainText, Spaces, IsIdentifier, Canonical, Tail;
    BranchLine(ins, name);
    JoinedPlain(BranchTo(ins, name));
    hide PlainWords, Joined;
    NoTail();
    PaddedLine(indent, Joined(BranchTo(ins, name)), "", "");
    assert indent + Joined(BranchTo(ins, name)) + "" == indent + Joined(BranchTo(ins, name));
  }

  lemma SmallNumbers()
    ensures RegText(0) == "r0" && RegText(1) == "r1" && RegText(2) == "r2" && RegText(3) == "r3"
    ensures Decimal(0) == "0" && Decimal(1) == "1"
  {
  }

  lemma ProgramCanonical(n: i64)
    ensures forall i :: 0 <= i < 12 ==> Canonical(Program(n)[i])
    ensures forall i :: 0 <= i < 12 ==> (IsBranch(Decode(Program(n)[i].opcode).value) <==> i == 3 || i == 9)
  {
  }

  lemma OpeningReads(n: i64)
    ensures forall i :: 0 <= i < 3 ==> LineOf(Opening(n)[i]) == Code(Program(n)[i], None)
  {
    hide LineOf, Decode, Canonical, IsBranch, RegText, Decimal;
    ProgramCanonical(n);
    SmallNumbers();
    var p, d := Program(n), Decimal(n);
    PaddedInstruction(p[0], "", "     ; n", "     ");
    assert "" + InstructionText(p[0]) + "     ; n" == "mov r0, " + d + "     ; n";
    PaddedInstruction(p[1], "", "      ; a", "      ");
    assert "" + InstructionText(p[1]) + "      ; a" == "mov r1, 0      ; a";
    PaddedInstruction(p[2], "", "      ; b", "      ");
    assert "" + InstructionText(p[2]) + "      ; b" == "mov r2, 1      ; b";
  }

  lemma IndentedInstruction(n: i64, i: nat, line: string)
    requires 4 <= i < 12 && i != 9 && line == "  " + InstructionText(Program(n)[i])
    ensures LineOf(line) == Code(Program(n)[i], None)
  {
    hide LineOf, Decode, Canonical, IsBranch, InstructionText, Program, Spaces, Tail;
    ProgramCanonical(n);
    NoTail();
    PaddedInstruction(Program(n)[i], "  ", "", "");
    assert line + "" == line;
  }

  lemma BodyText(n: i64, i: nat)
    requires 4 <= i < 9
    ensures Body()[i - 2] == "  " + InstructionText(Program(n)[i])
  {
    hide RegText, Decimal;
    SmallNumbers();
  }

  lemma ClosingText(n: i64)
    ensures Closing()[1] == "  " + InstructionText(Program(n)[10])
    ensures Closing()[2] == "  " + InstructionText(Program(n)[11])
  {
    hide RegText, Decimal;
    SmallNumbers();
  }

  lemma BranchText(n: i64)
    ensures Canonical(Program(n)[3]) && IsBranch(Decode(Program(n)[3].opcode).value)
    ensures Canonical(Program(n)[9]) && IsBranch(Decode(Program(n)[9].opcode).value)
    ensures Body()[1] == "  " + Joined(BranchTo(Program(n)[3], "done"))
    ensures Body()[7] == "  " + Joined(BranchTo(Program(n)[9], "loop"))
  {
    hide RegText, Decimal;
    SmallNumbers();
    assert BranchTo(Program(n)[3], "done") == ["jz", "r0", "done"];
    assert BranchTo(Program(n)[9], "loop") == ["jmp", "loop"];
  }

  lemma LabelsRead()
    ensures IsIdentifier("loop") && IsIdentifier("done")
    ensures LineOf("loop:") == Label("loop") && LineOf("done:") == Label("done")
  {
    NamedLabel("loop");
    NamedLabel("done");
    hide LineOf;
    assert "loop" + ":" == "loop:" && "done" + ":" == "done:";
  }

  lemma BodyReads(n: i64)
    ensures LineOf(Body()[0]) == Label("loop")
    ensures LineOf(Body()[1]) == Code(Program(n)[3].(imm := 0), Some("done"))
    ensures forall i :: 2 <= i < 7 ==> LineOf(Body()[i]) == Code(Program(n)[i + 2], None)
    ensures LineOf(Body()[7]) == Code(Program(n)[9].(imm := 0), Some("loop"))
  {
    LabelsRead();
    hide LineOf, Decode, Canonical, IsBranch, InstructionText, BranchTo, Joined, Spaces, IsIdentifier, Program;
    NoTail();
    BranchText(n);
    PaddedBranch(Program(n)[3], "done", "  ");
    PaddedBranch(Program(n)[9], "loop", "  ");
    forall i | 2 <= i < 7
      ensures LineOf(Body()[i]) == Code(Program(n)[i + 2], None)
    {
      BodyText(n, i + 2);
      IndentedInstruction(n, i + 2, Body()[i]);
    }
  }

  lemma ClosingReads(n: i64)
    ensures LineOf(Closing()[0]) == Label("done")
    ensures LineOf(Closing()[1]) == Code(Program(n)[10], None)
    ensures LineOf(Closing()[2]) == Code(Program(n)[11], None)
  {
    LabelsRead();
    hide LineOf, InstructionText, Program;
    ClosingText(n);
    IndentedInstruction(n, 10, Closing()[1]);
    IndentedInstruction(n, 11, Closing()[2]);
  }

  lemma CommentReads()
    ensures LineOf("; fibonacci: compute F(10) = 55") == Empty
  {
    UncommentedCut("", "; fibonacci: compute F(10) = 55");
    assert "" + "; fibonacci: compute F(10) = 55" == "; fibonacci: compute F(10) = 55";
  }

  lemma SourceItems(n: i64)
    ensures ItemsOf(SourceLines(n)) == Items(n)
  {
    hide LineOf, Program, Opening, Body, Closing;
    CommentReads();
    OpeningReads(n);
    BodyReads(n);
    ClosingReads(n);
    var lines := SourceLines(n);
    forall k | 0 <= k < 15
      ensures ItemsOf(lines)[k] == Items(n)[k]
    {
      ItemAt(lines, k);
      if k == 0 {
      } else if k < 4 {
        assert lines[k] == Opening(n)[k - 1];
      } else if k < 12 {
        assert lines[k] == Body()[k - 4];
      } else {
        assert lines[k] == Closing()[k - 12];
      }
    }
  }

  // ----- the program they assemble to -----

  lemma CountNext(items: seq<Line>, k: nat)
    requires k < |items|
    ensures CountCode(items[..k + 1]) == CountCode(items[..k]) + (if items[k].Code? then 1 else 0)
  {
    assert items[..k + 1][..k] == items[..k];
  }

  lemma NothingCounted(items: seq<Line>)
    ensures CountCode(items[..0]) == 0
  {
  }

  lemma {:induction false} ItemCounts(n: i64, k: nat)
    requires k <= 15
    ensures CountCode(Items(n)[..k]) == if k == 0 then 0 else if k <= 4 then k - 1 else if k <= 12 then k - 2 else k - 3
    decreases k
  {
    hide Program, CountCode;
    NothingCounted(Items(n));
    if k > 0 {
      ItemCounts(n, k - 1);
      CountNext(Items(n), k - 1);
    }
  }

  lemma ItemsWellFormed(n: i64)
    ensures var items := Items(n);
      ShortNames(items) && NoErrors(items) && DistinctLabels(items) && AllBound(items)
  {
    hide Program;
    var items := Items(n);
    assert Defines(items, 4, "loop") && Defines(items, 12, "done");
    assert "loop"[0] != "done"[0];
  }

  lemma LabelTargets(n: i64)
    ensures Find(LabelsOf(Items(n)), Key("loop")) == Some(3)
    ensures Find(LabelsOf(Items(n)), Key("done")) == Some(10)
  {
    hide Key, Find, LabelsOf, CountCode, ShortNames, DistinctLabels, Program;
    ItemsWellFormed(n);
    UniqueLabel(Items(n), "loop", 4);
    UniqueLabel(Items(n), "done", 12);
    ItemCounts(n, 4);
    ItemCounts(n, 12);
  }

  /** The example assembles to the twelve instructions of Program. */
  lemma SourceAssembles(n: i64)
    ensures TwoPass(Source(n)) == Some(Program(n))
  {
    hide Tokens, Source, SourceLines, Accepted, Emit, LabelsOf, CountCode, Find, Key, ShortNames, NoErrors, DistinctLabels;
    SourceTokens(n);
    SourceItems(n);
    var items := Items(n);
    ItemsWellFormed(n);
    SourceMeaning(items);
    LabelTargets(n);
    EmitMeaning(items, LabelsOf(items));
    EmitLength(items, LabelsOf(items));
    ItemCounts(n, 15);
    assert items[..15] == items;
    var out := Emit(items, LabelsOf(items)).value;
    forall i | 0 <= i < 12
      ensures out[i] == Program(n)[i]
    {
      var k := if i < 3 then i + 1 else if i < 10 then i + 2 else i + 3;
      ItemCounts(n, k);
      assert out[CountCode(items[..k])] == Resolved(items[k], LabelsOf(items));
    }
    assert out == Program(n);
  }

  /** Text in, number out: the example with any 64-bit count, assembled and run
      by the NASM engine, prints the Fibonacci number of that count read
      unsigned, reduced to 64 bits, and ends without error. */
  method AssembleAndRun(n: i64, vmAddress: u64, codeAddress: u64, rsp: u64) returns (vm: Vm, r: Error)
    requires codeAddress + 12 * 12 <= TWO_64
    requires rsp % 16 == 8 && 256 <= rsp < TWO_64 - 64
    ensures vm.Valid() && r == Ok && vm.error == Ok && vm.halted != 0
    ensures TwoPass(Source(n)) == Some(vm.code)
    ensures Run(vm.code, Init(), 7 * ToU64(n) + 6) == Next(vm.Model())
    ensures vm.stream == [Wrap(Fib(ToU64(n)))]
  {
    hide Step, Source, TwoPass, Init, Fib, Wrap, Run, Program;
    var code := AssembleSource(Source(n));
    SourceAssembles(n);
    FibonacciProgram(n);
    vm := new Vm.Init(code.value, false);
    r := Execute(vm, vmAddress, codeAddress, rsp, 7 * ToU64(n) + 6);
  }
}
