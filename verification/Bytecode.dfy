/** The `.waibc` codec over byte sequences, and the validator it runs on both
    sides, written independently of the verifier. */
module Bytecode {
  import opened Words
  import opened Isa
  import opened Verifier

  // ----- the loader's own validator -----

  function InstructionRegistersValid(ins: Instr): bool {
    match ins.opcode
    case 1 | 3 | 5 | 7 | 9 | 29 | 31 | 33 | 35 | 38 | 40 | 12 | 13 | 14 | 16 | 18 | 20 | 21 | 24 | 37 =>
      RegisterIsValid(ins.a)
    case 2 | 4 | 6 | 8 | 10 | 30 | 32 | 34 | 36 | 39 | 41 | 17 | 19 | 25 =>
      RegisterIsValid(ins.a) && RegisterIsValid(ins.b)
    case 11 | 22 | 26 | 27 | 15 | 23 | 28 => true
    case _ => false
  }

  function ValidateInstruction(ins: Instr, count: nat): Error {
    if ins.c != 0 then Parse
    else if !(1 <= ins.opcode <= 41) then BadOpcode
    else if !InstructionRegistersValid(ins) then BadRegister
    else if ins.opcode in {11, 12, 13, 22, 26, 27} && (ins.imm < 0 || ToU64(ins.imm) >= count) then BadJump
    else if ins.opcode in {9, 29} && ins.imm == 0 then DivZero
    else if ins.opcode in {16, 18} && (ins.imm < 0 || ToU64(ins.imm) > 65536 - 8) then MemoryOob
    else if ins.opcode in {38, 40} && (ins.imm < 0 || ins.imm > 63) then BadShift
    else Ok
  }

  /** The checker that groups its tests by check and the one that groups them
      by opcode give every instruction the same verdict. */
  lemma ValidatorsAgree(ins: Instr, count: nat)
    ensures ValidateInstruction(ins, count) == VerifyInstruction(ins, count) == StaticError(ins, count)
  {
    VerifyInstructionIsStatic(ins, count);
    hide StaticError;
  }

  method ValidateProgram(code: seq<Instr>) returns (r: Error)
    ensures r == FirstError(code)
    ensures r == Ok <==> Verified(code)
  {
    hide StaticError, ValidateInstruction, VerifyInstruction;
    for i := 0 to |code|
      invariant forall j :: 0 <= j < i ==> StaticError(code[j], |code|) == Ok
      invariant FirstErrorFrom(code, i) == FirstError(code)
    {
      var e := ValidateInstruction(code[i], |code|);
      ValidatorsAgree(code[i], |code|);
      if e != Ok {
        return e;
      }
    }
    return Ok;
  }

  /** Both checkers, run on one program, return one error code; the report's ip
      is the least index whose instruction is wrong. */
  method BothCheckers(code: seq<Instr>) returns (v: Error, w: Error, ip: nat)
    ensures v == w == FirstError(code)
    ensures v == Ok <==> Verified(code)
    ensures v != Ok ==> FirstBad(code, ip, v)
  {
    v := ValidateProgram(code);
    w, ip := VerifyProgram(code);
  }

  // ----- the file format -----

  const HEADER_SIZE: nat := 32
  const MAX_CODE: nat := 0x1555_5555_5555_5555
  const MAGIC: seq<byte> := [0x57, 0x41, 0x49, 0x30]

  datatype Info = Info(
    version: nat, headerSize: nat, instructionSize: nat, registerCount: nat,
    flags: nat, codeCount: nat, dataSize: nat)

  datatype Result<+T> = Success(value: T) | Failure(error: Error)

  function Fields(count: nat): Info {
    Info(5, 32, 12, 8, 0, count, 0)
  }

  function HeaderBytes(info: Info): (b: seq<byte>)
    ensures |b| == HEADER_SIZE
  {
    MAGIC + Bytes(info.version, 2) + Bytes(info.headerSize, 2) + Bytes(info.instructionSize, 2)
    + Bytes(info.registerCount, 2) + Bytes(info.flags, 4) + Bytes(info.codeCount, 8) + Bytes(info.dataSize, 8)
  }

  function RecordBytes(ins: Instr): (b: seq<byte>)
    ensures |b| == RECORD_SIZE
  {
    [ins.opcode, ins.a, ins.b, ins.c] + WordBytes(ins.imm)
  }

  function RecordOf(b: seq<byte>): Instr
    requires |b| == RECORD_SIZE
  {
    Instr(b[0], b[1], b[2], b[3], WordValue(b[4..]))
  }

  function CodeBytes(code: seq<Instr>): (b: seq<byte>)
    ensures |b| == RECORD_SIZE * |code|
  {
    if code == [] then [] else CodeBytes(code[..|code| - 1]) + RecordBytes(code[|code| - 1])
  }

  /** The records of a byte string, as many as fit. */
  function CodeOf(b: seq<byte>): (code: seq<Instr>)
    ensures |code| == |b| / RECORD_SIZE
  {
    if |b| < RECORD_SIZE then [] else [RecordOf(b[..RECORD_SIZE])] + CodeOf(b[RECORD_SIZE..])
  }

  function Image(code: seq<Instr>): seq<byte> {
    HeaderBytes(Fields(|code|)) + CodeBytes(code)
  }

  /** The fields of a header, whatever they say. */
  function HeaderFields(b: seq<byte>): Info
    requires |b| >= HEADER_SIZE
  {
    Info(Value(b[4..6]), Value(b[6..8]), Value(b[8..10]), Value(b[10..12]),
         Value(b[12..16]), Value(b[16..24]), Value(b[24..32]))
  }

  /** The header says what this version of the format requires; the flags are
      not looked at. */
  predicate HeaderMatches(b: seq<byte>) {
    && |b| >= HEADER_SIZE
    && b[..4] == MAGIC
    && HeaderFields(b) == Fields(HeaderFields(b).codeCount).(flags := HeaderFields(b).flags)
  }

  /** What reading `b` gives; `memory` says whether calloc succeeds. */
  function Reading(b: seq<byte>, memory: bool): Result<(seq<Instr>, Info)> {
    if !HeaderMatches(b) then Failure(Parse)
    else
      var count := HeaderFields(b).codeCount;
      if count > MAX_CODE then Failure(Oom)
      else if count > 0 && !memory then Failure(Oom)
      else if |b| != HEADER_SIZE + RECORD_SIZE * count then Failure(Parse)
      else
        var code := CodeOf(b[HEADER_SIZE..]);
        if FirstError(code) != Ok then Failure(FirstError(code)) else Success((code, HeaderFields(b)))
  }

  // ----- writing -----

  method WriteLe(dst: array<byte>, at: nat, value: nat, n: nat)
    requires at + n <= dst.Length && n <= 8 && value < Pow256(n) && value < TWO_64
    modifies dst
    ensures dst[..] == old(dst[..at]) + Bytes(value, n) + old(dst[at + n..])
  {
    hide ByteOf, Bytes, Written;
    ghost var before, b := dst[..], Bytes(value, n);
    WrittenEnds(before, at, b);
    for i := 0 to n
      invariant dst[..] == Written(before, at, b, i)
    {
      dst[at + i] := ExtractByte(value, i);
      ByteAt(value, n, i);
      WrittenNext(before, at, b, i);
    }
  }

  /** The next header field, after those written so far. */
  method WriteField(header: array<byte>, at: nat, value: nat, n: nat, ghost fields: seq<byte>)
    requires at + n <= header.Length && n <= 8 && value < Pow256(n) && value < TWO_64
    requires header[..at] == fields
    modifies header
    ensures header[..at + n] == fields + Bytes(value, n)
  {
    hide Bytes;
    WriteLe(header, at, value, n);
    assert header[..at + n] == header[..][..at + n];
  }

  method EncodeHeader(header: array<byte>, count: nat)
    requires header.Length == HEADER_SIZE && count < TWO_64
    modifies header
    ensures header[..] == HeaderBytes(Fields(count))
  {
    hide Bytes;
    Pow256Values();
    forall i | 0 <= i < HEADER_SIZE { header[i] := 0; }
    forall i | 0 <= i < 4 { header[i] := MAGIC[i]; }
    assert header[..4] == MAGIC;
    WriteField(header, 4, 5, 2, header[..4]);
    WriteField(header, 6, 32, 2, header[..6]);
    WriteField(header, 8, 12, 2, header[..8]);
    WriteField(header, 10, 8, 2, header[..10]);
    WriteField(header, 12, 0, 4, header[..12]);
    WriteField(header, 16, count, 8, header[..16]);
    WriteField(header, 24, 0, 8, header[..24]);
    assert header[..] == header[..32];
  }

  method EncodeInstruction(ins: Instr, dst: array<byte>)
    requires dst.Length == RECORD_SIZE
    modifies dst
    ensures dst[..] == RecordBytes(ins)
  {
    Pow256Values();
    dst[0], dst[1], dst[2], dst[3] := ins.opcode, ins.a, ins.b, ins.c;
    WriteLe(dst, 4, ToU64(ins.imm), 8);
  }

  method WriteFile(code: seq<Instr>) returns (r: Result<seq<byte>>)
    requires |code| < TWO_64
    ensures r == if FirstError(code) == Ok then Success(Image(code)) else Failure(FirstError(code))
  {
    hide FirstError, HeaderBytes, RecordBytes, Verified, Fields;
    var validation := ValidateProgram(code);
    if validation != Ok {
      return Failure(validation);
    }
    var header := new byte[32];
    EncodeHeader(header, |code|);
    var file := header[..];
    var encoded := new byte[12];
    for i := 0 to |code|
      invariant fresh(encoded) && file == HeaderBytes(Fields(|code|)) + CodeBytes(code[..i])
    {
      EncodeInstruction(code[i], encoded);
      assert code[..i + 1][..i] == code[..i];
      file := file + encoded[..];
    }
    assert code[..|code|] == code;
    return Success(file);
  }

  // ----- reading -----

  method ReadLe(src: seq<byte>, at: nat, n: nat) returns (value: nat)
    requires at + n <= |src| && n <= 8
    ensures value == Value(src[at..at + n])
  {
    value := 0;
    for i := 0 to n
      invariant value == Value(src[at..at + i])
    {
      assert src[at..at + i] + [src[at + i]] == src[at..at + i + 1];
      ValueSnoc(src[at..at + i], src[at + i]);
      value := AppendByte(value, src[at + i], i);
    }
  }

  method DecodeHeader(header: seq<byte>) returns (r: Result<Info>)
    requires |header| == HEADER_SIZE
    ensures r == if !HeaderMatches(header) then Failure(Parse)
                 else if HeaderFields(header).codeCount > MAX_CODE then Failure(Oom)
                 else Success(HeaderFields(header))
  {
    if header[..4] != MAGIC {
      return Failure(Parse);
    }
    var version := ReadLe(header, 4, 2);
    var headerSize := ReadLe(header, 6, 2);
    var instructionSize := ReadLe(header, 8, 2);
    var registerCount := ReadLe(header, 10, 2);
    var flags := ReadLe(header, 12, 4);
    var codeCount := ReadLe(header, 16, 8);
    var dataSize := ReadLe(header, 24, 8);
    if version != 5 || headerSize != 32 || instructionSize != 12 || registerCount != 8 || dataSize != 0 {
      return Failure(Parse);
    }
    if codeCount > MAX_CODE {
      return Failure(Oom);
    }
    return Success(Info(version, headerSize, instructionSize, registerCount, flags, codeCount, dataSize));
  }

  method DecodeInstruction(src: seq<byte>) returns (ins: Instr)
    requires |src| == RECORD_SIZE
    ensures ins == RecordOf(src)
  {
    var imm := ReadLe(src, 4, 8);
    assert src[4..12] == src[4..];
    Pow256Values();
    ins := Instr(src[0], src[1], src[2], src[3], ToI64(imm));
  }

  /** Reading, step by step, once the header is known to match. */
  lemma ReadingSteps(file: seq<byte>, memory: bool)
    requires HeaderMatches(file)
    ensures var count := HeaderFields(file).codeCount;
      var code := CodeOf(file[HEADER_SIZE..]);
      Reading(file, memory) ==
        if count > MAX_CODE || (count > 0 && !memory) then Failure(Oom)
        else if |file| != HEADER_SIZE + RECORD_SIZE * count then Failure(Parse)
        else if FirstError(code) != Ok then Failure(FirstError(code))
        else Success((code, HeaderFields(file)))
  {
    hide HeaderFields, CodeOf, FirstError;
  }

  /** The loop over records: fails if the file is too short for them. */
  method ReadRecords(file: seq<byte>, count: nat) returns (ok: bool, code: seq<Instr>)
    requires |file| >= HEADER_SIZE
    ensures ok == (|file| >= HEADER_SIZE + RECORD_SIZE * count)
    ensures ok ==> |code| == count
    ensures ok ==> CodeOf(file[HEADER_SIZE..]) == code + CodeOf(file[HEADER_SIZE + RECORD_SIZE * count..])
  {
    hide RecordOf, CodeOf;
    code := [];
    var cursor := HEADER_SIZE;
    for i := 0 to count
      invariant cursor == HEADER_SIZE + RECORD_SIZE * i <= |file|
      invariant |code| == i && CodeOf(file[HEADER_SIZE..]) == code + CodeOf(file[cursor..])
    {
      if |file| - cursor < RECORD_SIZE {
        return false, code;
      }
      var ins := DecodeInstruction(file[cursor..cursor + RECORD_SIZE]);
      NextRecord(file, cursor);
      code := code + [ins];
      cursor := cursor + RECORD_SIZE;
    }
    return true, code;
  }

  lemma NextRecord(file: seq<byte>, cursor: nat)
    requires cursor + RECORD_SIZE <= |file|
    ensures CodeOf(file[cursor..]) ==
      [RecordOf(file[cursor..cursor + RECORD_SIZE])] + CodeOf(file[cursor + RECORD_SIZE..])
  {
    hide RecordOf;
    assert file[cursor..][..RECORD_SIZE] == file[cursor..cursor + RECORD_SIZE];
    assert file[cursor..][RECORD_SIZE..] == file[cursor + RECORD_SIZE..];
  }

  lemma NoRecords(b: seq<byte>)
    requires b == []
    ensures CodeOf(b) == []
  {
  }

  method ReadFile(file: seq<byte>, memory: bool) returns (r: Result<(seq<Instr>, Info)>)
    ensures r == Reading(file, memory)
  {
    hide FirstError, HeaderFields, CodeOf;
    if |file| < HEADER_SIZE {
      return Failure(Parse);
    }
    var header := file[..HEADER_SIZE];
    HeaderOfPrefix(file);
    var decoded := DecodeHeader(header);
    if decoded.Failure? {
      return Failure(decoded.error);
    }
    var info := decoded.value;
    assert HeaderMatches(file);
    ReadingSteps(file, memory);
    hide HeaderMatches, Reading, Verified;
    if info.codeCount > 0 && !memory {
      return Failure(Oom);
    }
    var ok, code := ReadRecords(file, info.codeCount);
    if !ok || |file| != HEADER_SIZE + RECORD_SIZE * info.codeCount {
      return Failure(Parse);
    }
    NoRecords(file[HEADER_SIZE + RECORD_SIZE * info.codeCount..]);
    assert CodeOf(file[HEADER_SIZE..]) == code;
    var status := ValidateProgram(code);
    if status != Ok {
      return Failure(status);
    }
    return Success((code, info));
  }

  lemma HeaderOfPrefix(file: seq<byte>)
    requires |file| >= HEADER_SIZE
    ensures HeaderFields(file[..HEADER_SIZE]) == HeaderFields(file)
    ensures file[..HEADER_SIZE][..4] == file[..4]
  {
    var h := file[..HEADER_SIZE];
    assert h[4..6] == file[4..6] && h[6..8] == file[6..8] && h[8..10] == file[8..10] && h[10..12] == file[10..12];
    assert h[12..16] == file[12..16] && h[16..24] == file[16..24] && h[24..32] == file[24..32];
  }

  // ----- round trips -----

  lemma RecordRoundTrip(ins: Instr)
    ensures RecordOf(RecordBytes(ins)) == ins
  {
    assert RecordBytes(ins)[4..] == WordBytes(ins.imm);
    WordRoundTrip(ins.imm);
    hide WordBytes, WordValue;
  }

  lemma RecordBytesRoundTrip(b: seq<byte>)
    requires |b| == RECORD_SIZE
    ensures RecordBytes(RecordOf(b)) == b
  {
    WordBytesRoundTrip(b[4..]);
    hide WordBytes, WordValue;
    assert b == [b[0], b[1], b[2], b[3]] + b[4..];
  }

  lemma {:induction false} CodeOfAppend(b: seq<byte>, last: seq<byte>)
    requires |b| % RECORD_SIZE == 0 && |last| == RECORD_SIZE
    ensures CodeOf(b + last) == CodeOf(b) + [RecordOf(last)]
  {
    hide RecordOf;
    if b == [] {
      assert b + last == last && last[..RECORD_SIZE] == last && CodeOf(last[RECORD_SIZE..]) == [];
    } else {
      assert (b + last)[..RECORD_SIZE] == b[..RECORD_SIZE];
      assert (b + last)[RECORD_SIZE..] == b[RECORD_SIZE..] + last;
      CodeOfAppend(b[RECORD_SIZE..], last);
    }
  }

  lemma {:induction false} CodeRoundTrip(code: seq<Instr>)
    ensures CodeOf(CodeBytes(code)) == code
  {
    if code != [] {
      var n := |code| - 1;
      CodeRoundTrip(code[..n]);
      CodeOfAppend(CodeBytes(code[..n]), RecordBytes(code[n]));
      RecordRoundTrip(code[n]);
    }
  }

  lemma {:induction false} CodeBytesRoundTrip(b: seq<byte>)
    requires |b| % RECORD_SIZE == 0
    ensures CodeBytes(CodeOf(b)) == b
  {
    hide RecordOf, RecordBytes;
    if b != [] {
      var n := |b| - RECORD_SIZE;
      CodeBytesRoundTrip(b[..n]);
      assert b == b[..n] + b[n..];
      CodeOfAppend(b[..n], b[n..]);
      RecordBytesRoundTrip(b[n..]);
    }
  }

  /** The fields a header is written from are the fields read back. */
  lemma HeaderRoundTrip(info: Info, rest: seq<byte>)
    requires info.version < 0x1_0000 && info.headerSize < 0x1_0000 && info.instructionSize < 0x1_0000
    requires info.registerCount < 0x1_0000 && info.flags < 0x1_0000_0000
    requires info.codeCount < TWO_64 && info.dataSize < TWO_64
    ensures HeaderFields(HeaderBytes(info) + rest) == info
  {
    var b := HeaderBytes(info) + rest;
    Pow256Values();
    ValueOfBytes(info.version, 2);
    ValueOfBytes(info.headerSize, 2);
    ValueOfBytes(info.instructionSize, 2);
    ValueOfBytes(info.registerCount, 2);
    ValueOfBytes(info.flags, 4);
    ValueOfBytes(info.codeCount, 8);
    ValueOfBytes(info.dataSize, 8);
    hide Bytes, Value;
    FrontFields(info, rest);
    BackFields(info, rest);
    hide HeaderBytes;
  }

  lemma FrontFields(info: Info, rest: seq<byte>)
    ensures var b := HeaderBytes(info) + rest;
      && b[4..6] == Bytes(info.version, 2) && b[6..8] == Bytes(info.headerSize, 2)
      && b[8..10] == Bytes(info.instructionSize, 2) && b[10..12] == Bytes(info.registerCount, 2)
  {
    hide Bytes;
  }

  lemma BackFields(info: Info, rest: seq<byte>)
    ensures var b := HeaderBytes(info) + rest;
      && b[12..16] == Bytes(info.flags, 4) && b[16..24] == Bytes(info.codeCount, 8)
      && b[24..32] == Bytes(info.dataSize, 8)
  {
    hide Bytes;
  }

  /** Any 32 bytes that start with the magic are the header of their fields. */
  lemma HeaderBytesRoundTrip(b: seq<byte>)
    requires |b| == HEADER_SIZE && b[..4] == MAGIC
    ensures HeaderBytes(HeaderFields(b)) == b
  {
    BytesOfValue(b[4..6]);
    BytesOfValue(b[6..8]);
    BytesOfValue(b[8..10]);
    BytesOfValue(b[10..12]);
    BytesOfValue(b[12..16]);
    BytesOfValue(b[16..24]);
    BytesOfValue(b[24..32]);
    hide Bytes, Value;
    assert b == b[..4] + b[4..6] + b[6..8] + b[8..10] + b[10..12] + b[12..16] + b[16..24] + b[24..32];
  }

  /** Reading what was written for a valid program gives the program back. */
  lemma ReadWritten(code: seq<Instr>)
    requires Verified(code) && |code| <= MAX_CODE
    ensures Reading(Image(code), true) == Success((code, Fields(|code|)))
  {
    HeaderRoundTrip(Fields(|code|), CodeBytes(code));
    FirstErrorMeaning(code, 0);
    CodeRoundTrip(code);
    assert Image(code)[HEADER_SIZE..] == CodeBytes(code);
    assert Image(code)[..4] == MAGIC;
    hide HeaderFields, HeaderBytes, CodeBytes, CodeOf;
  }

  /** With memory to spare, a file is accepted exactly when its header matches,
      its length is 32 + 12 * code_count, and every record is valid. */
  lemma Acceptance(b: seq<byte>)
    ensures Reading(b, true).Success? <==>
      && HeaderMatches(b)
      && HeaderFields(b).codeCount <= MAX_CODE
      && |b| == HEADER_SIZE + RECORD_SIZE * HeaderFields(b).codeCount
      && Verified(CodeOf(b[HEADER_SIZE..]))
  {
    if HeaderMatches(b) {
      FirstErrorMeaning(CodeOf(b[HEADER_SIZE..]), 0);
    }
    hide HeaderFields, CodeOf, FirstError;
  }

  /** Writing back what was read restores the file, except that the four flag
      bytes the reader ignores become zero. */
  lemma RewriteAccepted(b: seq<byte>)
    requires Reading(b, true).Success?
    ensures Image(Reading(b, true).value.0) == b[..12] + [0, 0, 0, 0] + b[16..]
  {
    hide HeaderFields, HeaderBytes, CodeBytes, CodeOf, FirstError;
    var h := b[..HEADER_SIZE];
    assert HeaderMatches(b);
    ReadingSteps(b, true);
    hide Reading;
    var code := CodeOf(b[HEADER_SIZE..]);
    HeaderOfPrefix(b);
    HeaderBytesRoundTrip(h);
    CodeBytesRoundTrip(b[HEADER_SIZE..]);
    FlagBytes(HeaderFields(h));
    assert b == h + b[HEADER_SIZE..];
    assert HeaderFields(h).(flags := 0) == Fields(|code|);
  }

  /** Clearing the flags of a header clears bytes 12..15 and no other. */
  lemma FlagBytes(info: Info)
    ensures HeaderBytes(info.(flags := 0)) == HeaderBytes(info)[..12] + [0, 0, 0, 0] + HeaderBytes(info)[16..]
  {
    assert Bytes(0, 4) == [0, 0, 0, 0];
    hide Bytes;
  }

  /** The round trip is the identity exactly on files whose flags are zero. */
  lemma RewriteIdentity(b: seq<byte>)
    requires Reading(b, true).Success?
    ensures Image(Reading(b, true).value.0) == b <==> b[12..16] == [0, 0, 0, 0]
  {
    RewriteAccepted(b);
    hide Image, Reading;
    var w := b[..12] + [0, 0, 0, 0] + b[16..];
    assert w[12..16] == [0, 0, 0, 0];
    if b[12..16] == [0, 0, 0, 0] {
      assert b == b[..12] + b[12..16] + b[16..];
    }
  }

  lemma FlaggedHeader() returns (b: seq<byte>)
    ensures b == HeaderBytes(Fields(0).(flags := 1))
    ensures HeaderMatches(b) && HeaderFields(b) == Fields(0).(flags := 1)
    ensures b[12..16] == Bytes(1, 4) != [0, 0, 0, 0]
  {
    hide HeaderFields;
    var info := Fields(0).(flags := 1);
    b := HeaderBytes(info);
    HeaderRoundTrip(info, []);
    assert b + [] == b && b[..4] == MAGIC;
    assert Bytes(1, 4)[0] == 1;
    hide Bytes;
    BackFields(info, []);
    hide HeaderBytes;
  }

  /** The documentation fixes the flags field at zero, yet an empty program
      whose flags are 1 is accepted. */
  lemma NonzeroFlagsAccepted()
    ensures var b := HeaderBytes(Fields(0).(flags := 1));
      Reading(b, true) == Success(([], Fields(0).(flags := 1))) && Image([]) != b
  {
    hide HeaderFields, HeaderMatches, Bytes;
    var b := FlaggedHeader();
    assert b[HEADER_SIZE..] == [];
    hide HeaderBytes;
    ReadingSteps(b, true);
    hide Reading;
    RewriteIdentity(b);
  }
}
