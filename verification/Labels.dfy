/** What accepted sources mean: labels by name and position, the limits of the
    63-character names, and the shape of every emitted program. */
module Labels {
  import opened Words
  import opened Isa
  import opened Verifier
  import opened Text
  import opened Syntax
  import opened Assembler

  // ----- labels as the table keeps them -----

  /** Line i is a label the table keeps under `key`. */
  predicate Keeps(items: seq<Line>, i: int, key: string) {
    0 <= i < |items| && items[i].Label? && Key(items[i].name) == key
  }

  predicate FirstKept(items: seq<Line>, i: int, key: string) {
    Keeps(items, i, key) && forall j :: 0 <= j < i ==> !Keeps(items, j, key)
  }

  predicate NoErrors(items: seq<Line>) {
    forall i :: 0 <= i < |items| ==> !items[i].Bad?
  }

  /** No label reads, in full, like an earlier one cut to its field. */
  predicate NoClash(items: seq<Line>) {
    forall i, j :: 0 <= i < j < |items| && items[i].Label? && items[j].Label? ==> Key(items[i].name) != items[j].name
  }

  /** A branch refers to a label that is kept somewhere. */
  ghost predicate Kept(items: seq<Line>, line: Line) {
    line.Code? && line.target.Some? ==> exists i :: Keeps(items, i, Key(line.target.value))
  }

  ghost predicate AllKept(items: seq<Line>) {
    forall i :: 0 <= i < |items| ==> Kept(items, items[i])
  }

  // ----- looking labels up -----

  lemma {:induction false} FindSnoc(labels: seq<LabelDef>, d: LabelDef, name: string)
    ensures Find(labels + [d], name) ==
      if Find(labels, name).Some? then Find(labels, name)
      else if d.name == name then Some(d.target) else None
  {
    if labels == [] {
      assert labels + [d] == [d] && Find([d][1..], name) == None;
    } else {
      assert (labels + [d])[1..] == labels[1..] + [d];
      FindSnoc(labels[1..], d, name);
    }
  }

  lemma {:induction false} CountBound(items: seq<Line>, i: nat)
    requires i <= |items|
    ensures CountCode(items[..i]) <= CountCode(items) <= |items|
    decreases |items|
  {
    if i == |items| {
      assert items[..i] == items;
      if items != [] {
        CountBound(items[..|items| - 1], 0);
      }
    } else {
      var before := items[..|items| - 1];
      assert before[..i] == items[..i];
      CountBound(before, i);
    }
  }

  /** The table answers with the first label kept under the name it is asked
      for, as the number of instructions before it. */
  lemma {:induction false} FindMeaning(items: seq<Line>, key: string)
    ensures match Find(LabelsOf(items), key)
      case None => forall i :: !Keeps(items, i, key)
      case Some(t) => exists i :: FirstKept(items, i, key) && t == CountCode(items[..i])
    decreases |items|
  {
    hide Key;
    if items != [] {
      var n := |items| - 1;
      var before := items[..n];
      FindMeaning(before, key);
      if items[n].Label? {
        FindSnoc(LabelsOf(before), LabelDef(Key(items[n].name), CountCode(before)), key);
      }
      assert forall i :: Keeps(before, i, key) <==> i < n && Keeps(items, i, key);
      if Find(LabelsOf(before), key).Some? {
        var i :| FirstKept(before, i, key) && Find(LabelsOf(before), key).value == CountCode(before[..i]);
        assert before[..i] == items[..i] && FirstKept(items, i, key);
      } else if Keeps(items, n, key) {
        assert items[..n] == before && FirstKept(items, n, key);
      }
    }
  }

  /** The first pass rejects errors and clashes, exactly. */
  lemma {:induction false} AcceptedMeaning(items: seq<Line>)
    ensures Accepted(items) <==> NoErrors(items) && NoClash(items)
    decreases |items|
  {
    hide Key;
    if items != [] {
      var n := |items| - 1;
      var before := items[..n];
      AcceptedMeaning(before);
      if items[n].Label? {
        FindMeaning(before, items[n].name);
        if Find(LabelsOf(before), items[n].name).Some? {
          var i :| FirstKept(before, i, items[n].name);
          assert !NoClash(items);
        } else {
          assert forall i :: 0 <= i < n && items[i].Label? ==> !Keeps(before, i, items[n].name);
        }
      }
      assert NoErrors(items) ==> NoErrors(before);
      assert NoClash(items) ==> NoClash(before);
    }
  }

  // ----- what is emitted -----

  lemma {:induction false} EmitLength(items: seq<Line>, labels: seq<LabelDef>)
    requires Emit(items, labels).Some?
    ensures |Emit(items, labels).value| == CountCode(items)
    decreases |items|
  {
    if items != [] {
      EmitLength(items[..|items| - 1], labels);
    }
  }

  /** The instruction an item becomes once its label's target is known. */
  function Resolved(line: Line, labels: seq<LabelDef>): Instr
    requires line.Code? && (line.target.Some? ==> Find(labels, Key(line.target.value)).Some?)
    requires line.target.Some? ==> Find(labels, Key(line.target.value)).value < TWO_63
  {
    if line.target.Some? then line.ins.(imm := Find(labels, Key(line.target.value)).value) else line.ins
  }

  predicate Resolvable(line: Line, labels: seq<LabelDef>) {
    line.Code? && line.target.Some? ==>
      Find(labels, Key(line.target.value)).Some? && Find(labels, Key(line.target.value)).value < TWO_63
  }

  /** The second pass succeeds exactly when every reference resolves, and puts
      item i at the number of instructions before it. */
  lemma {:induction false} EmitMeaning(items: seq<Line>, labels: seq<LabelDef>)
    ensures Emit(items, labels).Some? <==> forall i :: 0 <= i < |items| ==> Resolvable(items[i], labels)
    ensures Emit(items, labels).Some? ==>
      forall i :: 0 <= i < |items| && items[i].Code? ==>
        CountCode(items[..i]) < |Emit(items, labels).value| &&
        Emit(items, labels).value[CountCode(items[..i])] == Resolved(items[i], labels)
    decreases |items|
  {
    if items != [] {
      var n := |items| - 1;
      var before := items[..n];
      EmitMeaning(before, labels);
      if Emit(items, labels).Some? {
        EmitLength(before, labels);
        forall i | 0 <= i < |items|
          ensures Resolvable(items[i], labels)
          ensures items[i].Code? ==>
            CountCode(items[..i]) < |Emit(items, labels).value| &&
            Emit(items, labels).value[CountCode(items[..i])] == Resolved(items[i], labels)
        {
          if i < n {
            assert before[..i] == items[..i] && before[i] == items[i];
          } else {
            assert items[..i] == before;
          }
        }
      }
    }
  }

  /** Line i is a branch to a label. */
  predicate Refers(items: seq<Line>, i: int) {
    0 <= i < |items| && items[i].Code? && items[i].target.Some?
  }

  /** In the program `code` of the items, the branch at line i goes to the
      number of instructions before line l. */
  predicate Targets(items: seq<Line>, code: seq<Instr>, i: int, l: int)
    requires 0 <= i < |items| && 0 <= l < |items|
  {
    CountCode(items[..i]) < |code| && code[CountCode(items[..i])].imm == CountCode(items[..l])
  }

  /** One-pass assembly of any source: it is accepted exactly when no line is
      an error, no label clashes with an earlier one and every branch has a
      label; and then each branch's immediate is the number of instructions
      before the first label kept under its name. */
  lemma KeyedMeaning(items: seq<Line>)
    requires |items| < TWO_63
    ensures Accepted(items) && Emit(items, LabelsOf(items)).Some? <==>
      NoErrors(items) && NoClash(items) && AllKept(items)
    ensures Accepted(items) && Emit(items, LabelsOf(items)).Some? ==>
      forall i, l :: Refers(items, i) && FirstKept(items, l, Key(items[i].target.value)) ==>
        Targets(items, Emit(items, LabelsOf(items)).value, i, l)
  {
    hide Key, Accepted, LabelsOf, Emit, CountCode;
    var labels := LabelsOf(items);
    AcceptedMeaning(items);
    EmitMeaning(items, labels);
    forall i | 0 <= i < |items|
      ensures Resolvable(items[i], labels) <==> Kept(items, items[i])
    {
      if items[i].Code? && items[i].target.Some? {
        ResolvableMeaning(items, Key(items[i].target.value));
      }
    }
    if Accepted(items) && Emit(items, labels).Some? {
      forall i, l | Refers(items, i) && FirstKept(items, l, Key(items[i].target.value))
        ensures Targets(items, Emit(items, labels).value, i, l)
      {
        FirstFound(items, Key(items[i].target.value), l);
      }
    }
  }

  lemma ResolvableMeaning(items: seq<Line>, key: string)
    requires |items| < TWO_63
    ensures Find(LabelsOf(items), key).Some? <==> exists i :: Keeps(items, i, key)
    ensures Find(LabelsOf(items), key).Some? ==> Find(LabelsOf(items), key).value < TWO_63
  {
    FindMeaning(items, key);
    if Find(LabelsOf(items), key).Some? {
      var i :| FirstKept(items, i, key) && Find(LabelsOf(items), key).value == CountCode(items[..i]);
      CountBound(items, i);
    }
  }

  lemma FirstFound(items: seq<Line>, key: string, l: int)
    requires FirstKept(items, l, key)
    ensures Find(LabelsOf(items), key) == Some(CountCode(items[..l]))
  {
    FindMeaning(items, key);
    var i :| FirstKept(items, i, key) && Find(LabelsOf(items), key) == Some(CountCode(items[..i]));
    assert i == l;
  }

  // ----- the textbook reading, by whole names -----

  predicate Defines(items: seq<Line>, i: int, name: string) {
    0 <= i < |items| && items[i] == Label(name)
  }

  predicate ShortNames(items: seq<Line>) {
    forall i :: 0 <= i < |items| ==>
      match items[i]
      case Label(name) => |name| <= NAME_MAX
      case Code(_, Some(name)) => |name| <= NAME_MAX
      case _ => true
  }

  predicate DistinctLabels(items: seq<Line>) {
    forall i, j :: 0 <= i < j < |items| && items[i].Label? && items[j].Label? ==> items[i].name != items[j].name
  }

  /** The label a branch refers to is defined somewhere. */
  ghost predicate Bound(items: seq<Line>, line: Line) {
    line.Code? && line.target.Some? ==> exists i :: Defines(items, i, line.target.value)
  }

  ghost predicate AllBound(items: seq<Line>) {
    forall i :: 0 <= i < |items| ==> Bound(items, items[i])
  }

  /** A later label is reported as a repetition of an earlier one exactly when
      it is one, unless the earlier name is longer than 63 characters and the
      later repeats all of it (missed) or just its first 63 (reported). */
  predicate RepeatTold(name: string, later: string) {
    !(|name| > NAME_MAX && (later == name || later == name[..NAME_MAX]))
  }

  lemma ClashIsRepetition(name: string, later: string)
    ensures (Key(name) == later) == (name == later) <==> RepeatTold(name, later)
  {
  }

  predicate FirstDefined(items: seq<Line>, l: int, name: string) {
    Defines(items, l, name) && forall j :: 0 <= j < l ==> !Defines(items, j, name)
  }

  /** The label a branch reaches, the first one sharing the first 63 characters
      of its reference, is the first one of its name exactly when it bears that
      name. */
  lemma LookupIsByName(items: seq<Line>, name: string, l: int)
    requires FirstKept(items, l, Key(name))
    ensures FirstDefined(items, l, name) <==> items[l].name == name
  {
    assert forall j :: Defines(items, j, name) ==> Keeps(items, j, Key(name));
  }

  /** The names of a source are told apart by what the table keeps of them. */
  ghost predicate NamesTold(items: seq<Line>) {
    && (forall i, j :: 0 <= i < j < |items| && items[i].Label? && items[j].Label? ==>
          RepeatTold(items[i].name, items[j].name))
    && (forall i, l :: Refers(items, i) && FirstKept(items, l, Key(items[i].target.value)) ==>
          items[l].name == items[i].target.value)
  }

  lemma ToldKept(items: seq<Line>, i: int)
    requires NamesTold(items) && Refers(items, i)
    ensures Kept(items, items[i]) <==> Bound(items, items[i])
  {
    var name := items[i].target.value;
    if Kept(items, items[i]) {
      var k :| Keeps(items, k, Key(name));
      FindMeaning(items, Key(name));
      var l :| FirstKept(items, l, Key(name));
      assert Defines(items, l, name);
    }
    if k :| Defines(items, k, name) {
      assert Keeps(items, k, Key(name));
    }
  }

  lemma ToldFirst(items: seq<Line>, i: int, l: int)
    requires NamesTold(items) && DistinctLabels(items)
    requires Refers(items, i) && Defines(items, l, items[i].target.value)
    ensures FirstKept(items, l, Key(items[i].target.value))
  {
    var key := Key(items[i].target.value);
    assert Keeps(items, l, key);
    FindMeaning(items, key);
    var first :| FirstKept(items, first, key);
    assert first == l;
  }

  /** A source whose names are told apart is accepted exactly when no line is an
      error, no label is defined twice and every branch has its label; and then
      each branch's immediate is the number of instructions before its label. */
  lemma WholeNameMeaning(items: seq<Line>)
    requires NamesTold(items) && |items| < TWO_63
    ensures Accepted(items) && Emit(items, LabelsOf(items)).Some? <==>
      NoErrors(items) && DistinctLabels(items) && AllBound(items)
    ensures Accepted(items) && Emit(items, LabelsOf(items)).Some? ==>
      forall i, l :: Refers(items, i) && Defines(items, l, items[i].target.value) ==>
        Targets(items, Emit(items, LabelsOf(items)).value, i, l)
  {
    hide Key;
    KeyedMeaning(items);
    forall i, j | 0 <= i < j < |items| && items[i].Label? && items[j].Label?
      ensures Key(items[i].name) != items[j].name <==> items[i].name != items[j].name
    {
      ClashIsRepetition(items[i].name, items[j].name);
    }
    assert NoClash(items) <==> DistinctLabels(items);
    hide NamesTold, Defines;
    forall i | 0 <= i < |items|
      ensures Kept(items, items[i]) <==> Bound(items, items[i])
    {
      if Refers(items, i) {
        ToldKept(items, i);
      }
    }
    if NoClash(items) {
      forall i, l | Refers(items, i) && Defines(items, l, items[i].target.value)
        ensures FirstKept(items, l, Key(items[i].target.value))
      {
        ToldFirst(items, i, l);
      }
    }
  }

  lemma ShortAreTold(items: seq<Line>)
    requires ShortNames(items)
    ensures NamesTold(items)
  {
    forall i, l | Refers(items, i) && FirstKept(items, l, Key(items[i].target.value))
      ensures items[l].name == items[i].target.value
    {
      ShortKept(items, items[i].target.value);
    }
  }

  /** So in particular for labels and references of at most 63 characters. */
  lemma SourceMeaning(items: seq<Line>)
    requires ShortNames(items) && |items| < TWO_63
    ensures Accepted(items) && Emit(items, LabelsOf(items)).Some? <==>
      NoErrors(items) && DistinctLabels(items) && AllBound(items)
    ensures Accepted(items) && Emit(items, LabelsOf(items)).Some? ==>
      forall i, l :: Refers(items, i) && Defines(items, l, items[i].target.value) ==>
        Targets(items, Emit(items, LabelsOf(items)).value, i, l)
  {
    ShortAreTold(items);
    WholeNameMeaning(items);
  }

  lemma ShortKept(items: seq<Line>, name: string)
    requires ShortNames(items) && |name| <= NAME_MAX
    ensures forall i :: Keeps(items, i, Key(name)) <==> Defines(items, i, name)
  {
  }

  lemma UniqueLabel(items: seq<Line>, name: string, l: int)
    requires ShortNames(items) && DistinctLabels(items) && Defines(items, l, name)
    ensures Find(LabelsOf(items), Key(name)) == Some(CountCode(items[..l]))
  {
    ShortKept(items, name);
    assert forall j :: 0 <= j < l ==> !Defines(items, j, name);
    FirstFound(items, Key(name), l);
  }

  // ----- longer names -----

  /** A label defined twice is reported exactly when its name fits. */
  lemma DuplicateReported(name: string)
    ensures Accepted([Label(name), Label(name)]) <==> |name| > 63
  {
    var items := [Label(name), Label(name)];
    AcceptedMeaning(items);
    if |name| <= NAME_MAX {
      assert items[0].Label? && items[1].Label? && Key(items[0].name) == items[1].name;
    }
  }

  /** A branch to a label that nobody defines is assembled all the same, as a
      branch to one that shares its first 63 characters; it is reported exactly
      when the two differ there. */
  lemma UndefinedReported(defined: string, name: string, ins: Instr)
    requires defined != name
    ensures var items := [Label(defined), Code(ins, Some(name))];
      && !AllBound(items)
      && Accepted(items)
      && (Emit(items, LabelsOf(items)) == None <==> Key(defined) != Key(name))
      && (Key(defined) == Key(name) ==> Emit(items, LabelsOf(items)) == Some([ins.(imm := 0)]))
  {
    hide Key, LabelsOf, Emit, Accepted;
    var items := [Label(defined), Code(ins, Some(name))];
    AcceptedMeaning(items);
    assert !Bound(items, items[1]) by {
      assert forall i :: !Defines(items, i, name);
    }
    TwoLines(items, LabelsOf(items));
    OneFound(Key(defined), Key(name));
  }

  lemma OneFound(key: string, sought: string)
    ensures Find([LabelDef(key, 0)], sought) == if key == sought then Some(0) else None
  {
    assert Find([LabelDef(key, 0)][1..], sought) == None;
  }

  lemma TwoLines(items: seq<Line>, labels: seq<LabelDef>)
    requires |items| == 2 && items[0].Label? && items[1].Code? && items[1].target.Some?
    ensures LabelsOf(items) == [LabelDef(Key(items[0].name), 0)]
    ensures Emit(items, labels) ==
      match Find(labels, Key(items[1].target.value))
      case None => None
      case Some(t) => if t < TWO_63 then Some([items[1].ins.(imm := t)]) else None
  {
    hide Key, Find;
    assert items[..1][..0] == [] && items[..1] == [items[0]];
    assert CountCode([]) == 0 && LabelsOf([]) == [];
    assert LabelsOf(items[..1]) == [LabelDef(Key(items[0].name), 0)];
    assert Emit([], labels) == Some([]);
    assert Emit(items[..1], labels) == Some([]);
    var found := Find(labels, Key(items[1].target.value));
    if found.Some? && found.value < TWO_63 {
      assert [] + [items[1].ins.(imm := found.value)] == [items[1].ins.(imm := found.value)];
    }
  }

  // ----- the shape of emitted programs -----

  lemma {:induction false} TargetsInside(items: seq<Line>, name: string)
    ensures Find(LabelsOf(items), name).Some? ==> Find(LabelsOf(items), name).value <= CountCode(items)
    decreases |items|
  {
    if items != [] {
      var before := items[..|items| - 1];
      TargetsInside(before, name);
      if items[|items| - 1].Label? {
        FindSnoc(LabelsOf(before), LabelDef(Key(items[|items| - 1].name), CountCode(before)), name);
      }
    }
  }

  predicate Structural(ins: Instr, count: nat) {
    Canonical(ins) && (IsBranch(Decode(ins.opcode).value) ==> 0 <= ins.imm <= count)
  }

  lemma ResolvedStructural(ins: Instr, target: Option<string>, t: nat, count: nat)
    requires Denotes(ins, target) && t <= count && t < TWO_63
    ensures Structural(if target.Some? then ins.(imm := t) else ins, count)
  {
    hide Decode;
  }

  lemma {:induction false} EmitStructural(items: seq<Line>, labels: seq<LabelDef>, count: nat)
    requires forall i :: 0 <= i < |items| && items[i].Code? ==> Denotes(items[i].ins, items[i].target)
    requires forall name :: Find(labels, name).Some? ==> Find(labels, name).value <= count
    ensures Emit(items, labels).Some? ==> forall k :: 0 <= k < |Emit(items, labels).value| ==> Structural(Emit(items, labels).value[k], count)
    decreases |items|
  {
    hide Denotes, Structural;
    if items != [] {
      var n := |items| - 1;
      EmitStructural(items[..n], labels, count);
      if Emit(items, labels).Some? && items[n].Code? {
        var target := items[n].target;
        var t := if target.Some? then Find(labels, Key(target.value)).value else 0;
        ResolvedStructural(items[n].ins, target, t, count);
      }
    }
  }

  lemma {:induction false} ItemsDenote(lines: seq<string>)
    ensures forall i :: 0 <= i < |lines| && ItemsOf(lines)[i].Code? ==> Denotes(ItemsOf(lines)[i].ins, ItemsOf(lines)[i].target)
    decreases |lines|
  {
    hide LineOf, Denotes;
    if lines != [] {
      ItemsDenote(lines[..|lines| - 1]);
      if LineOf(lines[|lines| - 1]).Code? {
        LineIsCanonical(lines[|lines| - 1]);
      }
    }
  }

  predicate Pends(pending: seq<PendingRef>, k: int) {
    exists i :: 0 <= i < |pending| && pending[i].index == k
  }

  predicate BranchAt(code: seq<Instr>, k: nat)
    requires k < |code|
  {
    Decode(code[k].opcode).Some? && IsBranch(Decode(code[k].opcode).value)
  }

  lemma PendsAfter(pending: seq<PendingRef>, r: PendingRef)
    ensures forall k :: Pends(pending + [r], k) <==> Pends(pending, k) || k == r.index
  {
    forall k | Pends(pending, k)
      ensures Pends(pending + [r], k)
    {
      var i :| 0 <= i < |pending| && pending[i].index == k;
      assert (pending + [r])[i].index == k;
    }
    assert (pending + [r])[|pending|] == r;
  }

  /** The instructions with a pending reference are exactly the branches; with
      strictly increasing indices, each has exactly one. */
  lemma {:induction false} PendingAreBranches(items: seq<Line>)
    requires forall i :: 0 <= i < |items| && items[i].Code? ==> Denotes(items[i].ins, items[i].target)
    ensures forall k :: 0 <= k < |Unpatched(items)| ==> (Pends(PendingOf(items), k) <==> BranchAt(Unpatched(items), k))
    decreases |items|
  {
    hide Pends, Decode, Key;
    if items != [] {
      var n := |items| - 1;
      var before := items[..n];
      PendingAreBranches(before);
      PendingIncreasing(before);
      NotPending(PendingOf(before), |Unpatched(before)|);
      if items[n].Code? && items[n].target.Some? {
        PendsAfter(PendingOf(before), PendingRef(CountCode(before), Key(items[n].target.value)));
      }
    }
  }

  lemma NotPending(pending: seq<PendingRef>, k: nat)
    requires forall i :: 0 <= i < |pending| ==> pending[i].index < k
    ensures !Pends(pending, k)
  {
  }

  /** So the one pass over any source records one reference for each branch it
      has emitted, and none for anything else. */
  lemma PendingOfSource(lines: seq<string>, k: nat)
    requires k < CountCode(ItemsOf(lines))
    ensures Pends(PendingOf(ItemsOf(lines)), k) <==> BranchAt(Unpatched(ItemsOf(lines)), k)
  {
    hide Denotes, Pends, BranchAt;
    ItemsDenote(lines);
    PendingAreBranches(ItemsOf(lines));
  }

  /** Every program the assembler accepts is structurally sound: reserved field
      zero, known opcodes, registers 0..7, branch targets 0..count. */
  lemma AssembledIsStructural(source: string)
    ensures TwoPass(source).Some? ==>
      forall k :: 0 <= k < |TwoPass(source).value| ==> Structural(TwoPass(source).value[k], |TwoPass(source).value|)
  {
    var items := ItemsOf(Tokens(Newline, source));
    hide Tokens, Structural, Denotes;
    if TwoPass(source).Some? {
      ItemsDenote(Tokens(Newline, source));
      EmitLength(items, LabelsOf(items));
      forall name | Find(LabelsOf(items), name).Some?
        ensures Find(LabelsOf(items), name).value <= CountCode(items)
      {
        TargetsInside(items, name);
      }
      EmitStructural(items, LabelsOf(items), CountCode(items));
    }
  }

  /** So the verifier can fault an assembled instruction only for a branch to a
      label after the last instruction or for its immediate. */
  lemma AssembledFaults(ins: Instr, count: nat)
    requires Structural(ins, count)
    ensures StaticError(ins, count) in {Ok, BadJump, DivZero, MemoryOob, BadShift}
    ensures StaticError(ins, count) == BadJump <==> IsBranch(Decode(ins.opcode).value) && ins.imm == count
  {
    hide Decode;
  }
}
