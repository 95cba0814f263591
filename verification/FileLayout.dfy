/** The `.waibc` format byte by byte, in numbers: what each offset of a file
    holds, and that this is what is written and read. */
module FileLayout {
  import opened Words
  import opened Isa
  import opened Verifier
  import opened Bytecode

  /** The n bytes of b from `at` on are those of x, the lowest first. */
  predicate Holds(b: seq<byte>, at: nat, x: nat, n: nat) {
    at + n <= |b| && forall k :: 0 <= k < n ==> b[at + k] as int == x / Pow256(k) % 256
  }

  /** "WAI0", version 5, header size 32, instruction size 12, 8 registers; and no
      data. */
  predicate Opening(b: seq<byte>) {
    && |b| >= 32
    && b[..12] == [0x57, 0x41, 0x49, 0x30, 5, 0, 32, 0, 12, 0, 8, 0]
    && b[24..32] == [0, 0, 0, 0, 0, 0, 0, 0]
  }

  function Pair(low: nat, high: nat): nat {
    low + 256 * high
  }

  /** The number in bytes 12 to 15. */
  function Flags(b: seq<byte>): nat
    requires |b| >= 32
  {
    Pair(b[12], b[13]) + 65536 * Pair(b[14], b[15])
  }

  /** Opcode, registers and reserved field, then the immediate. */
  predicate RecordAt(b: seq<byte>, at: nat, ins: Instr) {
    && at + 12 <= |b|
    && b[at] == ins.opcode && b[at + 1] == ins.a && b[at + 2] == ins.b && b[at + 3] == ins.c
    && Holds(b, at + 4, ins.imm % 0x1_0000_0000_0000_0000, 8)
  }

  /** From `at` on come the records of `code`, twelve bytes each. */
  predicate RecordsAt(b: seq<byte>, at: nat, code: seq<Instr>) {
    forall i :: 0 <= i < |code| ==> RecordAt(b, at + 12 * i, code[i])
  }

  /** b is laid out as a file for `code`, whatever its flags. */
  predicate Laid(b: seq<byte>, code: seq<Instr>) {
    && Opening(b) && |b| == 32 + 12 * |code|
    && Holds(b, 16, |code|, 8)
    && RecordsAt(b, 32, code)
  }

  // ----- numbers -----

  lemma HoldsIsBytes(b: seq<byte>, at: nat, x: nat, n: nat)
    requires at + n <= |b|
    ensures Holds(b, at, x, n) <==> b[at..at + n] == Bytes(x, n)
  {
    forall k | 0 <= k < n
      ensures Bytes(x, n)[k] as int == x / Pow256(k) % 256
    {
      ByteAt(x, n, k);
    }
    hide Bytes;
    var part := b[at..at + n];
    assert forall k :: 0 <= k < n ==> part[k] == b[at + k];
  }

  lemma HoldsValue(b: seq<byte>, at: nat, x: nat, n: nat)
    requires at + n <= |b| && x < Pow256(n)
    ensures Holds(b, at, x, n) <==> Value(b[at..at + n]) == x
  {
    HoldsIsBytes(b, at, x, n);
    BytesOfValue(b[at..at + n]);
    ValueOfBytes(x, n);
    hide Bytes, Value, Holds, Pow256;
  }

  lemma TwoBytes(b: seq<byte>)
    requires |b| == 2
    ensures Value(b) == Pair(b[0], b[1])
  {
    assert Value(b[1..][1..]) == 0;
  }

  lemma FourBytes(b: seq<byte>)
    requires |b| == 4
    ensures Value(b) == Pair(b[0], b[1]) + 65536 * Pair(b[2], b[3])
  {
    TwoBytes(b[2..]);
    assert b[1..][1..] == b[2..];
  }

  lemma NoBytesSet(b: seq<byte>)
    requires |b| == 8
    ensures Value(b) == 0 <==> b == [0, 0, 0, 0, 0, 0, 0, 0]
  {
    BytesOfValue(b);
    BytesOfValue([0, 0, 0, 0, 0, 0, 0, 0]);
    assert Bytes(0, 8) == [0, 0, 0, 0, 0, 0, 0, 0];
    hide Bytes;
  }

  // ----- records -----

  lemma RawOf(x: i64)
    ensures ToU64(x) == x % 0x1_0000_0000_0000_0000
  {
  }

  lemma RecordInBytes(b: seq<byte>, at: nat, ins: Instr)
    requires at + 12 <= |b|
    ensures RecordAt(b, at, ins) <==> b[at..at + 12] == RecordBytes(ins)
  {
    RawOf(ins.imm);
    HoldsIsBytes(b, at + 4, ToU64(ins.imm), 8);
    var r, w := b[at..at + 12], RecordBytes(ins);
    assert r == [r[0], r[1], r[2], r[3]] + r[4..];
    assert r[4..] == b[at + 4..at + 4 + 8] && w[4..] == WordBytes(ins.imm);
    hide Bytes, Holds;
  }

  /** A string of records is the one these instructions are written as. */
  lemma {:induction false} RecordsInBytes(b: seq<byte>, code: seq<Instr>)
    requires |b| == 12 * |code|
    ensures RecordsAt(b, 0, code) <==> b == CodeBytes(code)
    decreases |code|
  {
    hide RecordAt, RecordBytes;
    if code != [] {
      var n := |code| - 1;
      var front := b[..12 * n];
      RecordsInBytes(front, code[..n]);
      RecordInBytes(b, 12 * n, code[n]);
      RecordsMoved(b, 0, front, code[..n]);
      assert RecordsAt(b, 0, code) <==> RecordsAt(b, 0, code[..n]) && RecordAt(b, 12 * n, code[n]);
      assert b[12 * n..12 * n + 12] == b[12 * n..];
      assert b == front + b[12 * n..];
      hide RecordsAt;
    }
  }

  lemma RecordsMoved(b: seq<byte>, from: nat, part: seq<byte>, code: seq<Instr>)
    requires from + |part| <= |b| && part == b[from..from + |part|] && 12 * |code| <= |part|
    ensures RecordsAt(b, from, code) <==> RecordsAt(part, 0, code)
  {
    hide RecordAt;
    forall i | 0 <= i < |code|
      ensures RecordAt(b, from + 12 * i, code[i]) <==> RecordAt(part, 12 * i, code[i])
    {
      RecordMoved(b, from, part, 12 * i, code[i]);
    }
  }

  /** A record is the same in a part of the string. */
  lemma RecordMoved(b: seq<byte>, from: nat, part: seq<byte>, at: nat, ins: Instr)
    requires from + |part| <= |b| && part == b[from..from + |part|] && at + 12 <= |part|
    ensures RecordAt(b, from + at, ins) <==> RecordAt(part, at, ins)
  {
    RecordInBytes(b, from + at, ins);
    RecordInBytes(part, at, ins);
    hide RecordAt, RecordBytes;
    assert part[at..at + 12] == b[from..from + |part|][at..at + 12];
  }

  lemma CodeInBytes(b: seq<byte>, code: seq<Instr>)
    requires |b| == 32 + 12 * |code|
    ensures RecordsAt(b, 32, code) <==> b[32..] == CodeBytes(code)
  {
    hide RecordsAt, CodeBytes;
    RecordsInBytes(b[32..], code);
    RecordsMoved(b, 32, b[32..], code);
  }

  // ----- headers -----

  lemma Sizes(b: seq<byte>)
    requires |b| >= 32
    ensures Value(b[4..6]) == Pair(b[4], b[5]) && Value(b[6..8]) == Pair(b[6], b[7])
    ensures Value(b[8..10]) == Pair(b[8], b[9]) && Value(b[10..12]) == Pair(b[10], b[11])
  {
    TwoBytes(b[4..6]);
    TwoBytes(b[6..8]);
    TwoBytes(b[8..10]);
    TwoBytes(b[10..12]);
    hide Value;
  }

  lemma OpeningBytes(b: seq<byte>)
    requires |b| >= 32
    ensures b[..12] == [0x57, 0x41, 0x49, 0x30, 5, 0, 32, 0, 12, 0, 8, 0] <==>
      && b[..4] == [0x57, 0x41, 0x49, 0x30]
      && Pair(b[4], b[5]) == 5 && Pair(b[6], b[7]) == 32 && Pair(b[8], b[9]) == 12 && Pair(b[10], b[11]) == 8
  {
    var c := b[..12];
    assert c == b[..4] + [b[4], b[5], b[6], b[7], b[8], b[9], b[10], b[11]];
    assert b[..4] == [b[0], b[1], b[2], b[3]];
  }

  /** The header check looks at bytes 0 to 11 and 24 to 31. */
  lemma HeaderInBytes(b: seq<byte>)
    ensures HeaderMatches(b) <==> Opening(b)
  {
    if |b| >= 32 {
      Sizes(b);
      OpeningBytes(b);
      NoBytesSet(b[24..32]);
      hide Value;
    }
  }

  /** What a header that matches says: bytes 12 to 15 and 16 to 23. */
  lemma FieldsInBytes(b: seq<byte>, n: nat)
    requires Opening(b) && n < TWO_64
    ensures HeaderFields(b) ==
      Info(5, 32, 12, 8, Flags(b), HeaderFields(b).codeCount, 0)
    ensures Holds(b, 16, n, 8) <==> HeaderFields(b).codeCount == n
  {
    HeaderInBytes(b);
    FourBytes(b[12..16]);
    Pow256Values();
    HoldsValue(b, 16, n, 8);
    hide Value, Holds;
  }

  // ----- writing -----

  lemma NoFlags(b: seq<byte>)
    requires |b| >= 32
    ensures Value(b[12..16]) == 0 <==> b[12..16] == [0, 0, 0, 0]
  {
    FourBytes(b[12..16]);
    assert b[12..16] == [b[12], b[13], b[14], b[15]];
    hide Value;
  }

  lemma HeaderLaid(h: seq<byte>, n: nat)
    requires |h| == 32 && n < TWO_64
    ensures h == HeaderBytes(Fields(n)) <==> Opening(h) && h[12..16] == [0, 0, 0, 0] && Holds(h, 16, n, 8)
  {
    Pow256Values();
    hide Value, Bytes, Holds, HeaderBytes;
    HeaderRoundTrip(Fields(n), []);
    assert HeaderBytes(Fields(n)) + [] == HeaderBytes(Fields(n));
    MagicFirst(Fields(n));
    HeaderInBytes(h);
    NoFlags(h);
    if HeaderMatches(h) {
      FieldsInBytes(h, n);
      HeaderBytesRoundTrip(h);
    }
    hide Opening;
  }

  lemma MagicFirst(info: Info)
    ensures HeaderBytes(info)[..4] == MAGIC
  {
    hide Bytes;
  }

  /** The file written for a program is the one so laid out, flags zero. */
  lemma ImageInBytes(b: seq<byte>, code: seq<Instr>)
    requires |code| < TWO_64
    ensures b == Image(code) <==> Laid(b, code) && b[12..16] == [0, 0, 0, 0]
  {
    hide HeaderBytes, CodeBytes, RecordsAt, Fields;
    if |b| == 32 + 12 * |code| {
      var h := b[..32];
      HeaderLaid(h, |code|);
      CodeInBytes(b, code);
      assert b == h + b[32..];
      assert h[..12] == b[..12] && h[24..32] == b[24..32] && h[12..16] == b[12..16];
    }
  }

  // ----- reading -----

  lemma LaidIsRead(b: seq<byte>, code: seq<Instr>)
    requires Laid(b, code)
    ensures |b| == 32 + 12 * |code| && CodeOf(b[32..]) == code
  {
    CodeInBytes(b, code);
    CodeRoundTrip(code);
  }

  lemma ReadIsLaid(b: seq<byte>)
    requires Opening(b) && |b| == 32 + 12 * HeaderFields(b).codeCount
    ensures Laid(b, CodeOf(b[32..]))
  {
    hide HeaderFields, CodeOf, CodeBytes, RecordsAt, Holds;
    var code := CodeOf(b[32..]);
    CodeBytesRoundTrip(b[32..]);
    CodeInBytes(b, code);
    CountBelow(b);
    FieldsInBytes(b, |code|);
  }

  lemma CountBelow(b: seq<byte>)
    requires |b| >= 32
    ensures HeaderFields(b).codeCount < TWO_64
  {
    Pow256Values();
  }

  /** A file is read as a program exactly if it is laid out for that program,
      which fits the memory of a process and is valid; the flags are handed on
      as they are. */
  lemma ReadingInBytes(b: seq<byte>, code: seq<Instr>, info: Info)
    ensures Reading(b, true) == Success((code, info)) <==>
      && Laid(b, code) && |code| <= 0xFFFF_FFFF_FFFF_FFFF / 12 && Verified(code)
      && info == Info(5, 32, 12, 8, Flags(b), |code|, 0)
  {
    hide CodeOf, HeaderFields, HeaderMatches, Laid, Reading, FirstErrorFrom, Verified;
    HeaderInBytes(b);
    FirstErrorMeaning(code, 0);
    if Laid(b, code) && |code| <= MAX_CODE {
      LaidFields(b, code);
      LaidIsRead(b, code);
      ReadingSteps(b, true);
    }
    if Reading(b, true) == Success((code, info)) {
      Acceptance(b);
      ReadingSteps(b, true);
      ReadIsLaid(b);
      LaidFields(b, code);
    }
  }

  lemma LaidFields(b: seq<byte>, code: seq<Instr>)
    requires Laid(b, code) && |code| < TWO_64
    ensures HeaderMatches(b) && HeaderFields(b).codeCount == |code|
    ensures HeaderFields(b) == Info(5, 32, 12, 8, Flags(b), |code|, 0)
  {
    HeaderInBytes(b);
    FieldsInBytes(b, |code|);
  }

  /** Otherwise the first of these refuses it: a header that does not open so, a
      count beyond memory, a length that is not the count's, an instruction. */
  lemma RefusalsInBytes(b: seq<byte>, n: nat, memory: bool) returns (code: seq<Instr>)
    requires Opening(b) ==> Holds(b, 16, n, 8) && n < 0x1_0000_0000_0000_0000
    ensures if !Opening(b) then Reading(b, memory) == Failure(Parse)
      else if n > 0xFFFF_FFFF_FFFF_FFFF / 12 || (n > 0 && !memory) then Reading(b, memory) == Failure(Oom)
      else if |b| != 32 + 12 * n then Reading(b, memory) == Failure(Parse)
      else Laid(b, code) && (FirstError(code) != Ok ==> Reading(b, memory) == Failure(FirstError(code)))
  {
    hide CodeOf, HeaderFields, HeaderMatches, Laid, FirstError, Opening, Holds;
    HeaderInBytes(b);
    code := [];
    if Opening(b) {
      FieldsInBytes(b, n);
      ReadingSteps(b, memory);
      hide Reading;
      if |b| == 32 + 12 * n {
        ReadIsLaid(b);
        code := CodeOf(b[HEADER_SIZE..]);
      }
    }
  }
}
