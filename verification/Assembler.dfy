/** `wai_assemble_source`: one pass over the lines with backpatching, proved to
    give what a two-pass reference gives. */
module Assembler {
  import opened Words
  import opened Isa
  import opened Text
  import opened Syntax

  // ----- names -----

  const NAME_MAX: nat := 63

  /** A name as the 64-byte fields of the label table keep it. */
  function Key(name: string): string {
    if |name| > NAME_MAX then name[..NAME_MAX] else name
  }

  datatype LabelDef = LabelDef(name: string, target: nat)
  datatype PendingRef = PendingRef(index: nat, name: string)

  /** The target of the first label of that name. */
  function Find(labels: seq<LabelDef>, name: string): Option<nat> {
    if labels == [] then None
    else if labels[0].name == name then Some(labels[0].target)
    else Find(labels[1..], name)
  }

  // ----- the two-pass reference -----

  function ItemsOf(lines: seq<string>): (items: seq<Line>)
    ensures |items| == |lines|
  {
    if lines == [] then [] else ItemsOf(lines[..|lines| - 1]) + [LineOf(lines[|lines| - 1])]
  }

  /** How many instructions the items hold. */
  function CountCode(items: seq<Line>): nat {
    if items == [] then 0
    else CountCode(items[..|items| - 1]) + (if items[|items| - 1].Code? then 1 else 0)
  }

  /** First pass: each label with the number of instructions before it. */
  function LabelsOf(items: seq<Line>): seq<LabelDef> {
    if items == [] then []
    else
      var before := items[..|items| - 1];
      match items[|items| - 1]
      case Label(name) => LabelsOf(before) + [LabelDef(Key(name), CountCode(before))]
      case _ => LabelsOf(before)
  }

  /** No line is an error and no label repeats an earlier one. */
  predicate Accepted(items: seq<Line>) {
    items != [] ==>
      && Accepted(items[..|items| - 1])
      && match items[|items| - 1]
         case Bad => false
         case Label(name) => Find(LabelsOf(items[..|items| - 1]), name) == None
         case _ => true
  }

  /** Second pass: emit with every target known. */
  function Emit(items: seq<Line>, labels: seq<LabelDef>): Option<seq<Instr>> {
    if items == [] then Some([])
    else match Emit(items[..|items| - 1], labels)
      case None => None
      case Some(code) =>
        match items[|items| - 1]
        case Code(ins, None) => Some(code + [ins])
        case Code(ins, Some(name)) =>
          (match Find(labels, Key(name))
           case None => None
           case Some(t) => if t < TWO_63 then Some(code + [ins.(imm := t)]) else None)
        case _ => Some(code)
  }

  function TwoPass(source: string): Option<seq<Instr>> {
    var items := ItemsOf(Tokens(Newline, source));
    if Accepted(items) then Emit(items, LabelsOf(items)) else None
  }

  // ----- what the one pass holds after a prefix of the lines -----

  /** The instructions, branch targets still zero. */
  function Unpatched(items: seq<Line>): (code: seq<Instr>)
    ensures |code| == CountCode(items)
  {
    if items == [] then []
    else
      var code := Unpatched(items[..|items| - 1]);
      match items[|items| - 1]
      case Code(ins, _) => code + [ins]
      case _ => code
  }

  function PendingOf(items: seq<Line>): seq<PendingRef> {
    if items == [] then []
    else
      var before := items[..|items| - 1];
      match items[|items| - 1]
      case Code(ins, Some(name)) => PendingOf(before) + [PendingRef(CountCode(before), Key(name))]
      case _ => PendingOf(before)
  }

  /** How many of the items are branches to a label. */
  function CountBranches(items: seq<Line>): nat {
    if items == [] then 0
    else
      var last := items[|items| - 1];
      CountBranches(items[..|items| - 1]) + (if last.Code? && last.target.Some? then 1 else 0)
  }

  /** There is one pending reference a branch, and their indices are strictly
      increasing instruction indices. */
  lemma {:induction false} PendingIncreasing(items: seq<Line>)
    ensures |PendingOf(items)| == CountBranches(items)
    ensures var p := PendingOf(items);
      && (forall i :: 0 <= i < |p| ==> p[i].index < CountCode(items))
      && (forall i, j :: 0 <= i < j < |p| ==> p[i].index < p[j].index)
    decreases |items|
  {
    if items != [] {
      var before := items[..|items| - 1];
      PendingIncreasing(before);
      match items[|items| - 1]
      case Code(ins, Some(name)) =>
        assert PendingOf(items) == PendingOf(before) + [PendingRef(CountCode(before), Key(name))];
      case _ =>
        assert PendingOf(items) == PendingOf(before);
    }
  }

  /** Writing the targets of the pending references into the code. */
  function Patch(code: seq<Instr>, pending: seq<PendingRef>, labels: seq<LabelDef>): (r: Option<seq<Instr>>)
    requires forall i :: 0 <= i < |pending| ==> pending[i].index < |code|
    ensures r.Some? ==> |r.value| == |code|
  {
    if pending == [] then Some(code)
    else
      var last := pending[|pending| - 1];
      match (Patch(code, pending[..|pending| - 1], labels), Find(labels, last.name))
      case (Some(c), Some(t)) => if t < TWO_63 then Some(c[last.index := c[last.index].(imm := t)]) else None
      case _ => None
  }

  lemma {:induction false} PatchAppend(code: seq<Instr>, ins: Instr, pending: seq<PendingRef>, labels: seq<LabelDef>)
    requires forall i :: 0 <= i < |pending| ==> pending[i].index < |code|
    ensures Patch(code + [ins], pending, labels) ==
      match Patch(code, pending, labels)
      case None => None
      case Some(c) => Some(c + [ins])
    decreases |pending|
  {
    if pending != [] {
      PatchAppend(code, ins, pending[..|pending| - 1], labels);
      var before := Patch(code, pending[..|pending| - 1], labels);
      var last := pending[|pending| - 1];
      if before.Some? && Find(labels, last.name).Some? && Find(labels, last.name).value < TWO_63 {
        var c, t := before.value, Find(labels, last.name).value;
        assert (c + [ins])[last.index := c[last.index].(imm := t)] == c[last.index := c[last.index].(imm := t)] + [ins];
      }
    }
  }

  /** One more instruction, its reference if it has one, and its patch. */
  lemma PatchItem(code: seq<Instr>, pending: seq<PendingRef>, labels: seq<LabelDef>, ins: Instr, target: Option<string>)
    requires forall i :: 0 <= i < |pending| ==> pending[i].index < |code|
    ensures var after := if target.Some? then pending + [PendingRef(|code|, Key(target.value))] else pending;
      && (forall i :: 0 <= i < |after| ==> after[i].index < |code + [ins]|)
      && Patch(code + [ins], after, labels) ==
        match Patch(code, pending, labels)
        case None => None
        case Some(c) =>
          if target == None then Some(c + [ins])
          else
            match Find(labels, Key(target.value))
            case None => None
            case Some(t) => if t < TWO_63 then Some(c + [ins.(imm := t)]) else None
  {
    hide Key, Find, Patch;
    PatchAppend(code, ins, pending, labels);
    if target.Some? {
      PatchLast(code + [ins], pending, PendingRef(|code|, Key(target.value)), labels);
      var p := Patch(code, pending, labels);
      if p.Some? {
        assert (p.value + [ins])[..|p.value|] == p.value;
      }
    }
  }

  /** Backpatching the code of any items against any label table is emitting
      them with that table at hand: one pass equals two. */
  lemma {:induction false} PatchIsEmit(items: seq<Line>, labels: seq<LabelDef>)
    ensures forall i :: 0 <= i < |PendingOf(items)| ==> PendingOf(items)[i].index < CountCode(items)
    ensures Patch(Unpatched(items), PendingOf(items), labels) == Emit(items, labels)
    decreases |items|
  {
    hide Key, Find;
    PendingIncreasing(items);
    if items != [] {
      var before := items[..|items| - 1];
      PatchIsEmit(before, labels);
      if items[|items| - 1].Code? {
        PatchItem(Unpatched(before), PendingOf(before), labels, items[|items| - 1].ins, items[|items| - 1].target);
      }
      hide Patch;
    }
  }

  /** The last instruction of some code aimed at t. */
  function AimLast(code: seq<Instr>, t: i64): seq<Instr>
    requires code != []
  {
    code[..|code| - 1] + [code[|code| - 1].(imm := t)]
  }

  lemma AimLastIsUpdate(code: seq<Instr>, t: i64)
    requires code != []
    ensures code[|code| - 1 := code[|code| - 1].(imm := t)] == AimLast(code, t)
  {
  }

  lemma Snoc(pending: seq<PendingRef>, last: PendingRef)
    ensures var all := pending + [last]; all[..|all| - 1] == pending && all[|all| - 1] == last
  {
  }

  lemma PatchLast(code: seq<Instr>, pending: seq<PendingRef>, last: PendingRef, labels: seq<LabelDef>)
    requires last.index == |code| - 1
    requires forall i :: 0 <= i < |pending| ==> pending[i].index < |code|
    ensures Patch(code, pending + [last], labels) ==
      match (Patch(code, pending, labels), Find(labels, last.name))
      case (Some(c), Some(t)) => if t < TWO_63 then Some(AimLast(c, t)) else None
      case _ => None
  {
    hide Find, Patch, AimLast;
    Snoc(pending, last);
    PatchNext(code, pending + [last], labels);
    match (Patch(code, pending, labels), Find(labels, last.name))
    case (Some(c), Some(t)) =>
      if t < TWO_63 {
        AimLastIsUpdate(c, t);
      }
    case _ =>
  }

  lemma NothingPending(code: seq<Instr>, labels: seq<LabelDef>)
    ensures Patch(code, [], labels) == Some(code)
  {
  }

  /** Patching ends with the last reference. */
  lemma PatchNext(code: seq<Instr>, pending: seq<PendingRef>, labels: seq<LabelDef>)
    requires pending != [] && forall i :: 0 <= i < |pending| ==> pending[i].index < |code|
    ensures var last := pending[|pending| - 1];
      Patch(code, pending, labels) ==
        match (Patch(code, pending[..|pending| - 1], labels), Find(labels, last.name))
        case (Some(c), Some(t)) => if t < TWO_63 then Some(c[last.index := c[last.index].(imm := t)]) else None
        case _ => None
  {
    hide Find;
  }

  // ----- the label table -----

  class LabelTable {
    var labels: seq<LabelDef>
    var pending: seq<PendingRef>

    constructor ()
      ensures labels == [] && pending == []
    {
      labels, pending := [], [];
    }

    method LabelFind(name: string) returns (target: Option<nat>)
      ensures target == Find(labels, name)
    {
      for i := 0 to |labels|
        invariant Find(labels, name) == Find(labels[i..], name)
      {
        assert labels[i..][1..] == labels[i + 1..];
        if labels[i].name == name {
          return Some(labels[i].target);
        }
      }
      return None;
    }

    /** Fails on a duplicate; the name is cut to fit its field. */
    method LabelAdd(name: string, target: nat) returns (ok: bool)
      modifies `labels
      ensures ok == (Find(old(labels), name) == None)
      ensures labels == if ok then old(labels) + [LabelDef(Key(name), target)] else old(labels)
    {
      var existing := LabelFind(name);
      if existing.Some? {
        return false;
      }
      labels := labels + [LabelDef(Key(name), target)];
      return true;
    }

    method PendingAdd(index: nat, name: string)
      modifies `pending
      ensures pending == old(pending) + [PendingRef(index, Key(name))]
    {
      pending := pending + [PendingRef(index, Key(name))];
    }

    /** `resolve_pending`: writes each target into the code, in order. */
    method ResolvePending(code: seq<Instr>) returns (r: Option<seq<Instr>>)
      requires forall i :: 0 <= i < |pending| ==> pending[i].index < |code|
      ensures r == Patch(code, pending, labels)
    {
      hide Find, Patch;
      NothingPending(code, labels);
      assert pending[..0] == [];
      var patched := code;
      for i := 0 to |pending|
        invariant |patched| == |code|
        invariant Patch(code, pending[..i], labels) == Some(patched)
      {
        assert pending[..i + 1][..i] == pending[..i];
        PatchNext(code, pending[..i + 1], labels);
        var target := LabelFind(pending[i].name);
        if target == None || target.value >= TWO_63 {
          PatchFails(code, pending, labels, i + 1);
          return None;
        }
        var at := pending[i].index;
        patched := patched[at := patched[at].(imm := target.value)];
      }
      assert pending[..|pending|] == pending;
      return Some(patched);
    }
  }

  lemma {:induction false} PatchFails(code: seq<Instr>, pending: seq<PendingRef>, labels: seq<LabelDef>, i: nat)
    requires forall i :: 0 <= i < |pending| ==> pending[i].index < |code|
    requires i <= |pending| && Patch(code, pending[..i], labels) == None
    ensures Patch(code, pending, labels) == None
    decreases |pending|
  {
    if i < |pending| {
      var before := pending[..|pending| - 1];
      assert before[..i] == pending[..i];
      PatchFails(code, before, labels, i);
    } else {
      assert pending[..i] == pending;
    }
  }

  // ----- the one pass -----

  /** One line of the source, after comment and spaces are cut. */
  method ClassifyLine(raw: string) returns (item: Line)
    ensures item == LineOf(raw)
  {
    hide Tokens, ParseTokens, Uncommented;
    var line := TrimText(Uncommented(raw));
    if line == "" {
      return Empty;
    }
    if line[|line| - 1] == ':' {
      var name := TrimText(line[..|line| - 1]);
      var valid := CheckIdentifier(name);
      if !valid {
        return Bad;
      }
      return Label(name);
    }
    var ok, tokens := Tokenize(Blanks, line, MAX_TOKENS);
    if !ok {
      return Bad;
    }
    if |tokens| == 0 {
      return Empty;
    }
    return ParseTokens(tokens);
  }

  /** The table and the code are those of the lines read so far. */
  ghost predicate Holds(table: LabelTable, code: seq<Instr>, items: seq<Line>)
    reads table
  {
    && Accepted(items)
    && code == Unpatched(items) && table.labels == LabelsOf(items) && table.pending == PendingOf(items)
  }

  /** One turn of the line loop. */
  method ReadLine(table: LabelTable, code: seq<Instr>, raw: string, ghost items: seq<Line>)
    returns (ok: bool, code': seq<Instr>)
    requires Holds(table, code, items)
    modifies table
    ensures ok == Accepted(items + [LineOf(raw)])
    ensures ok ==> Holds(table, code', items + [LineOf(raw)])
  {
    hide LineOf, Key;
    var item := ClassifyLine(raw);
    assert (items + [item])[..|items|] == items;
    code' := code;
    match item {
      case Bad => return false, code;
      case Empty => return true, code;
      case Label(name) =>
        ok := table.LabelAdd(name, |code|);
      case Code(ins, target) =>
        if target.Some? {
          table.PendingAdd(|code|, target.value);
        }
        return true, code + [ins];
    }
  }

  /** The source, or None for the parse error that ends every rejected one. */
  method AssembleSource(source: string) returns (r: Option<seq<Instr>>)
    ensures r == TwoPass(source)
  {
    hide Tokens, LineOf, Accepted;
    var table := new LabelTable();
    var code: seq<Instr> := [];
    ghost var lines: seq<string> := [];
    var cursor := 0;
    assert source[0..] == source;
    assert Accepted([]) by { AcceptedEmpty(); }
    while cursor < |source|
      invariant cursor <= |source| && fresh(table)
      invariant Tokens(Newline, source) == lines + Tokens(Newline, source[cursor..])
      invariant Holds(table, code, ItemsOf(lines))
    {
      cursor := SkipFrom(Newline, source, cursor);
      if cursor == |source| { break; }
      var start := cursor;
      cursor := WordFrom(Newline, source, start);
      var raw := source[start..cursor];
      ghost var items := ItemsOf(lines);
      lines := lines + [raw];
      assert lines[..|lines| - 1] + [raw] == lines && ItemsOf(lines) == items + [LineOf(raw)];
      assert Tokens(Newline, source) == lines + Tokens(Newline, source[cursor..]);
      var ok;
      ok, code := ReadLine(table, code, raw, items);
      if !ok {
        RejectedPrefix(lines, Tokens(Newline, source[cursor..]));
        return None;
      }
    }
    NoTokens(Newline, source[cursor..]);
    assert lines + [] == lines;
    PatchIsEmit(ItemsOf(lines), table.labels);
    r := table.ResolvePending(code);
  }

  lemma AcceptedEmpty()
    ensures Accepted([])
  {
  }

  lemma {:induction false} RejectedPrefix(lines: seq<string>, rest: seq<string>)
    requires !Accepted(ItemsOf(lines))
    ensures !Accepted(ItemsOf(lines + rest))
    decreases |rest|
  {
    if rest == [] {
      assert lines + rest == lines;
    } else {
      var all := lines + rest;
      assert all[..|all| - 1] == lines + rest[..|rest| - 1];
      RejectedPrefix(lines, rest[..|rest| - 1]);
      assert ItemsOf(all)[..|all| - 1] == ItemsOf(all[..|all| - 1]);
    }
  }
}
