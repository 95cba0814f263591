/** `wai_debugger_run`: the command loop over the C engine, and the one run it
    walks along. */
module Debugger {
  import opened Words
  import opened Isa
  import opened Machine
  import opened CVm
  import opened Text
  import opened Safety

  // ----- command lines -----

  datatype Command =
    | Blank
    | Inspect
    | StepOne
    | Continue
    | Break(index: Option<nat>)
    | Clear(index: Option<nat>)
    | Quit
    | Unknown

  /** `parse_index`: the whole text is one number below `limit`. */
  function ParseIndex(text: Option<string>, limit: nat): Option<nat> {
    if text == None || text.value == "" then None
    else
      var scan := ScanInteger(text.value);
      if scan.end == 0 || scan.end != |text.value| || UnsignedValue(scan) >= limit then None
      else Some(UnsignedValue(scan))
  }

  function NameLength(s: string): (n: nat)
    ensures n <= |s|
  {
    if s != [] && !IsSpace(s[0]) then 1 + NameLength(s[1..]) else 0
  }

  function CommandNamed(name: string, arg: Option<string>, limit: nat): Command {
    if name == "help" || name == "regs" || name == "ip" || name == "dis" || name == "mem" || name == "stack" then Inspect
    else if name == "step" || name == "s" then StepOne
    else if name == "continue" || name == "c" then Continue
    else if name == "break" || name == "b" then Break(ParseIndex(arg, limit))
    else if name == "clear" then Clear(ParseIndex(arg, limit))
    else if name == "quit" || name == "q" then Quit
    else Unknown
  }

  function CommandOf(line: string, limit: nat): Command {
    var t := Trim(line);
    var n := NameLength(t);
    if t == "" then Blank
    else CommandNamed(t[..n], if n < |t| then Some(Trim(t[n + 1..])) else None, limit)
  }

  /** The command line: trimmed, cut at the first space, the rest trimmed. */
  method ReadCommand(line: string, limit: nat) returns (c: Command)
    ensures c == CommandOf(line, limit)
  {
    var cmd := TrimText(line);
    if cmd == "" {
      return Blank;
    }
    var end := 0;
    while end < |cmd| && !IsSpace(cmd[end])
      invariant end <= |cmd| && NameLength(cmd) == end + NameLength(cmd[end..])
    {
      assert cmd[end..][1..] == cmd[end + 1..];
      end := end + 1;
    }
    var arg := None;
    if end < |cmd| {
      var rest := TrimText(cmd[end + 1..]);
      arg := Some(rest);
    }
    hide CommandNamed, Trim;
    return CommandNamed(cmd[..end], arg, limit);
  }

  /** A breakpoint index is accepted exactly when it is an instruction index,
      except that strtoull reads a negative number modulo 2^64. */
  lemma IndexAccepted(x: int, limit: nat)
    requires -TWO_64 < x < TWO_64
    ensures ParseIndex(Some(Decimal(x)), limit) ==
      var u := if x < 0 then x + TWO_64 else x;
      if u < limit then Some(u) else None
  {
    ScanDecimal(x);
    DigitsShape(Abs(x));
    if x < 0 {
      assert (TWO_64 - Abs(x)) % TWO_64 == x + TWO_64;
    }
  }

  lemma {:induction false} NameLengthOf(name: string, rest: string)
    requires forall i :: 0 <= i < |name| ==> !IsSpace(name[i])
    requires rest != [] ==> IsSpace(rest[0])
    ensures NameLength(name + rest) == |name|
  {
    if name == [] {
      assert name + rest == rest;
    } else {
      assert (name + rest)[1..] == name[1..] + rest;
      NameLengthOf(name[1..], rest);
    }
  }

  /** A name, a space and an argument are read as just that. */
  lemma CommandSplits(name: string, arg: string, limit: nat)
    requires name != [] && forall i :: 0 <= i < |name| ==> !IsSpace(name[i])
    requires arg != [] && !IsSpace(arg[0]) && !IsSpace(arg[|arg| - 1])
    ensures CommandOf(name + " " + arg, limit) == CommandNamed(name, Some(arg), limit)
  {
    var t := name + " " + arg;
    NameLengthOf(name, " " + arg);
    assert t == name + (" " + arg);
    TrimNothing(t);
    TrimNothing(arg);
    assert t[..|name|] == name && t[|name| + 1..] == arg;
    hide CommandNamed, Trim, NameLength;
  }

  // ----- sessions -----

  /** The machine and the breakpoints between two commands, or how the session
      ended: at the end of input or `quit` (Ok), on an error, by a divide fault,
      or waiting for a `continue` that needs more than `fuel` steps. `steps`
      counts the instructions executed so far, a failing one included. */
  datatype Session =
    | Prompt(s: State, breakpoints: set<nat>, steps: nat)
    | Ended(r: Error, s: State, steps: nat)
    | Faulted(steps: nat)
    | Waiting

  /** One `wai_vm_step`; without code it fails and leaves `error` alone. */
  function DoStep(code: seq<Instr>, s: State, breakpoints: set<nat>, steps: nat): Session {
    if s.halted then Prompt(s, breakpoints, steps)
    else match Step(code, s)
      case Next(t) => Prompt(t, breakpoints, steps + 1)
      case Stop(e, t) => Ended(e, t, steps + 1)
      case Trap => Faulted(steps + 1)
  }

  /** `continue` stops before this state's instruction. */
  predicate Pauses(code: seq<Instr>, s: State, breakpoints: set<nat>) {
    s.halted || s.ip in breakpoints || !Step(code, s).Next?
  }

  /** The state `continue` pauses at, if it does within `fuel` steps, and the
      number of steps it takes to get there. */
  function Resume(code: seq<Instr>, s: State, breakpoints: set<nat>, fuel: nat): Option<(State, nat)>
    decreases fuel
  {
    if Pauses(code, s, breakpoints) then Some((s, 0))
    else if fuel == 0 then None
    else
      match Resume(code, Step(code, s).s, breakpoints, fuel - 1)
      case None => None
      case Some((t, k)) => Some((t, k + 1))
  }

  function DoContinue(code: seq<Instr>, s: State, breakpoints: set<nat>, steps: nat, fuel: nat): Session {
    match Resume(code, s, breakpoints, fuel)
    case None => Waiting
    case Some((t, k)) =>
      if t.halted || t.ip in breakpoints then Prompt(t, breakpoints, steps + k)
      else DoStep(code, t, breakpoints, steps + k)
  }

  function Do(code: seq<Instr>, s: State, breakpoints: set<nat>, steps: nat, c: Command, fuel: nat): Session {
    match c
    case StepOne => DoStep(code, s, breakpoints, steps)
    case Continue => DoContinue(code, s, breakpoints, steps, fuel)
    case Break(Some(i)) => Prompt(s, breakpoints + {i}, steps)
    case Clear(Some(i)) => Prompt(s, breakpoints - {i}, steps)
    case Quit => Ended(Ok, s, steps)
    case _ => Prompt(s, breakpoints, steps)
  }

  /** The session after the input lines, from its last prompt backwards. */
  function After(code: seq<Instr>, lines: seq<string>, fuel: nat): Session {
    if lines == [] then Prompt(Init(), {}, 0)
    else match After(code, lines[..|lines| - 1], fuel)
      case Prompt(s, b, n) => Do(code, s, b, n, CommandOf(lines[|lines| - 1], |code|), fuel)
      case o => o
  }

  // ----- what a session can do to the machine -----

  /** The session is as many steps along the run from power-on as it counts. */
  predicate OnRun(code: seq<Instr>, d: Session) {
    match d
    case Prompt(s, _, n) => Run(code, Init(), n) == Next(s)
    case Ended(r, s, n) => Run(code, Init(), n) == (if r == Ok then Next(s) else Stop(r, s))
    case Faulted(n) => Run(code, Init(), n) == Trap
    case Waiting => true
  }

  /** k is the first step count, if any, at which the run from s pauses. */
  predicate FirstPause(code: seq<Instr>, s: State, breakpoints: set<nat>, k: nat) {
    && Run(code, s, k).Next? && Pauses(code, Run(code, s, k).s, breakpoints)
    && forall j :: 0 <= j < k ==> Run(code, s, j).Next? && !Pauses(code, Run(code, s, j).s, breakpoints)
  }

  lemma FirstPauseLater(code: seq<Instr>, s: State, breakpoints: set<nat>, k: nat)
    requires !Pauses(code, s, breakpoints) && FirstPause(code, Step(code, s).s, breakpoints, k)
    ensures FirstPause(code, s, breakpoints, k + 1)
    ensures Run(code, s, k + 1) == Run(code, Step(code, s).s, k)
  {
    hide Step;
    RunFirst(code, s, k + 1);
    forall j | 0 <= j < k + 1
      ensures Run(code, s, j).Next? && !Pauses(code, Run(code, s, j).s, breakpoints)
    {
      if j > 0 {
        RunFirst(code, s, j);
      }
    }
  }

  /** The pause `continue` finds is on the run, and is the first. */
  lemma {:induction false} ResumeOnRun(code: seq<Instr>, s: State, breakpoints: set<nat>, fuel: nat)
    requires Resume(code, s, breakpoints, fuel).Some?
    ensures var (t, k) := Resume(code, s, breakpoints, fuel).value;
      k <= fuel && FirstPause(code, s, breakpoints, k) && Run(code, s, k) == Next(t)
    decreases fuel
  {
    hide Step;
    if !Pauses(code, s, breakpoints) {
      ResumeOnRun(code, Step(code, s).s, breakpoints, fuel - 1);
      FirstPauseLater(code, s, breakpoints, Resume(code, s, breakpoints, fuel).value.1 - 1);
    }
  }

  /** Enough fuel finds the pause, so `Waiting` means a `continue` that is still
      running after `fuel` steps. */
  lemma {:induction false} ResumeFinds(code: seq<Instr>, s: State, breakpoints: set<nat>, k: nat, fuel: nat)
    requires FirstPause(code, s, breakpoints, k) && k <= fuel
    ensures Resume(code, s, breakpoints, fuel) == Some((Run(code, s, k).s, k))
    decreases k
  {
    hide Step;
    if k > 0 {
      assert !Pauses(code, Run(code, s, 0).s, breakpoints);
      forall j | 0 <= j < k
        ensures Run(code, s, j + 1) == Run(code, Step(code, s).s, j)
      {
        RunFirst(code, s, j + 1);
      }
      var t := Step(code, s).s;
      forall j | 0 <= j < k - 1
        ensures Run(code, t, j).Next? && !Pauses(code, Run(code, t, j).s, breakpoints)
      {
        assert Run(code, s, j + 1) == Run(code, t, j);
      }
      ResumeFinds(code, t, breakpoints, k - 1, fuel - 1);
    }
  }

  /** `continue` stops at the first state, the current one included, that is
      halted, carries a breakpoint or fails its next step, and nowhere else. */
  lemma ContinueStopsFirst(code: seq<Instr>, s: State, breakpoints: set<nat>, fuel: nat, t: State, k: nat)
    ensures Resume(code, s, breakpoints, fuel) == Some((t, k)) <==>
      k <= fuel && FirstPause(code, s, breakpoints, k) && Run(code, s, k) == Next(t)
  {
    hide FirstPause, Resume;
    if Resume(code, s, breakpoints, fuel).Some? {
      ResumeOnRun(code, s, breakpoints, fuel);
    }
    if k <= fuel && FirstPause(code, s, breakpoints, k) {
      ResumeFinds(code, s, breakpoints, k, fuel);
    }
  }

  /** So `continue` repeated on a breakpoint stays there. */
  lemma NoProgressOnBreakpoint(code: seq<Instr>, s: State, breakpoints: set<nat>, steps: nat, fuel: nat)
    requires s.ip in breakpoints
    ensures Do(code, s, breakpoints, steps, Continue, fuel) == Prompt(s, breakpoints, steps)
  {
  }

  lemma StepKinds(code: seq<Instr>, s: State, codeIsNull: bool)
    requires codeIsNull ==> code == []
    ensures Step(code, s).Stop? ==> Step(code, s).e != Ok
    ensures codeIsNull && !s.halted ==> Step(code, s) == Stop(IpOutOfBounds, s)
    ensures s.halted ==> Step(code, s) == Next(s)
  {
    if Step(code, s).Stop? { FailedStep(code, s); }
  }

  lemma StepOnRun(code: seq<Instr>, s: State, breakpoints: set<nat>, n: nat)
    requires Run(code, Init(), n) == Next(s)
    ensures OnRun(code, DoStep(code, s, breakpoints, n))
  {
    hide Step, Init;
    StepKinds(code, s, false);
    assert Run(code, Init(), n + 1) == Step(code, s);
  }

  lemma DoOnRun(code: seq<Instr>, s: State, breakpoints: set<nat>, n: nat, c: Command, fuel: nat)
    requires Run(code, Init(), n) == Next(s)
    ensures OnRun(code, Do(code, s, breakpoints, n, c, fuel))
  {
    hide Step, FirstPause, Resume;
    StepOnRun(code, s, breakpoints, n);
    if c == Continue && Resume(code, s, breakpoints, fuel).Some? {
      ResumeOnRun(code, s, breakpoints, fuel);
      var (t, k) := Resume(code, s, breakpoints, fuel).value;
      RunSplit(code, Init(), n, k);
      StepOnRun(code, t, breakpoints, n + k);
    }
    hide DoStep;
  }

  /** After any command sequence the machine is the state of the one run that
      the session's own count of steps names, and an error or fault it ends on
      is the run's. */
  lemma {:induction false} DebuggerFollowsRun(code: seq<Instr>, lines: seq<string>, fuel: nat)
    ensures OnRun(code, After(code, lines, fuel))
    decreases |lines|
  {
    hide Do, CommandOf, Step;
    if lines == [] {
      assert Run(code, Init(), 0) == Next(Init());
    } else {
      var before := lines[..|lines| - 1];
      DebuggerFollowsRun(code, before, fuel);
      match After(code, before, fuel)
      case Prompt(s, b, n) => DoOnRun(code, s, b, n, CommandOf(lines[|lines| - 1], |code|), fuel);
      case _ =>
    }
  }

  // ----- the command loop -----

  /** The breakpoint bytes that are set are those in `b`. */
  ghost predicate Marks(bytes: seq<byte>, b: set<nat>, count: nat) {
    && count <= |bytes|
    && (forall i :: i in b ==> i < count)
    && (forall i :: 0 <= i < count ==> (bytes[i] != 0 <==> i in b))
  }

  /** The C engine has taken n steps from power-on, and C defines the steps that
      session `d` has taken in all. */
  ghost predicate Defined(vm: Vm, n: nat, d: Session)
    requires vm.Valid()
    reads vm, vm.regs, vm.memory
  {
    && Run(vm.code, Init(), n) == Next(vm.Model())
    && !d.Waiting? && DefinedFor(vm.code, Init(), d.steps)
  }

  /** `continue`: the inner loop over do_step. */
  method ContinueRun(vm: Vm, bytes: array<byte>, ghost b: set<nat>, ghost fuel: nat, ghost n: nat)
    returns (failed: bool)
    requires vm.Valid() && vm.error == Ok && vm.memory != bytes
    requires Marks(bytes[..], b, |vm.code|)
    requires Defined(vm, n, DoContinue(vm.code, vm.Model(), b, n, fuel))
    modifies vm, vm.regs, vm.memory
    ensures vm.Valid() && bytes[..] == old(bytes[..])
    ensures match DoContinue(vm.code, old(vm.Model()), b, n, fuel)
      case Prompt(s, _, _) => !failed && vm.Model() == s && vm.error == Ok
      case Ended(e, s, _) => failed && vm.Model() == s && vm.error == (if vm.codeIsNull then Ok else e)
      case _ => false
  {
    hide Step, Init, StepDefined;
    ghost var left, at, d := fuel, n, DoContinue(vm.code, vm.Model(), b, n, fuel);
    while vm.halted == 0
      invariant vm.Valid() && vm.error == Ok && bytes[..] == old(bytes[..])
      invariant Defined(vm, at, d) && DoContinue(vm.code, vm.Model(), b, at, left) == d
      decreases left
    {
      ghost var s := vm.Model();
      if vm.ip < |vm.code| && bytes[vm.ip] != 0 {
        return false;
      }
      ContinueOnce(vm.code, s, b, at, left);
      StepKinds(vm.code, s, vm.codeIsNull);
      assert StepDefined(vm.code, s);
      DefinedNeverTraps(vm.code, s);
      var status := vm.Step();
      if status != Ok {
        return true;
      }
      left, at := left - 1, at + 1;
    }
    return false;
  }

  /** A `continue` that does not stop here executes one more step: if that
      fails, it is the end, else the `continue` goes on behind it. */
  lemma ContinueOnce(code: seq<Instr>, s: State, b: set<nat>, at: nat, left: nat)
    requires !s.halted && s.ip !in b && !DoContinue(code, s, b, at, left).Waiting?
    ensures DoContinue(code, s, b, at, left).steps > at
    ensures match Step(code, s)
      case Next(t) => left > 0 && DoContinue(code, t, b, at + 1, left - 1) == DoContinue(code, s, b, at, left)
      case Stop(e, t) => DoContinue(code, s, b, at, left) == Ended(e, t, at + 1)
      case Trap => true
  {
    hide Step;
  }

  predicate IndexInRange(c: Command, count: nat) {
    match c
    case Break(Some(i)) => i < count
    case Clear(Some(i)) => i < count
    case _ => true
  }

  /** One turn of the command loop, after the line has been parsed. */
  method DoCommand(vm: Vm, bytes: array<byte>, ghost b: set<nat>, c: Command, ghost fuel: nat, ghost n: nat)
    returns (ended: bool, r: Error, ghost b': set<nat>)
    requires vm.Valid() && vm.error == Ok && vm.memory != bytes
    requires Marks(bytes[..], b, |vm.code|) && IndexInRange(c, |vm.code|)
    requires Defined(vm, n, Do(vm.code, vm.Model(), b, n, c, fuel))
    modifies vm, vm.regs, vm.memory, bytes
    ensures vm.Valid() && Marks(bytes[..], b', |vm.code|)
    ensures match Do(vm.code, old(vm.Model()), b, n, c, fuel)
      case Prompt(s, b'', _) => !ended && vm.Model() == s && b' == b'' && vm.error == Ok
      case Ended(e, s, _) => ended && vm.Model() == s && r == (if vm.codeIsNull then Ok else e)
      case _ => false
  {
    hide Step, Init, Decode, StepDefined;
    ended, r, b' := false, Ok, b;
    ghost var s := vm.Model();
    match c {
      case StepOne =>
        if vm.halted == 0 {
          StepKinds(vm.code, s, vm.codeIsNull);
          assert StepDefined(vm.code, s);
          DefinedNeverTraps(vm.code, s);
          var status := vm.Step();
          if status != Ok {
            return true, vm.error, b;
          }
        }
      case Continue =>
        ContinueKeepsBreakpoints(vm.code, s, b, n, fuel);
        ended := ContinueRun(vm, bytes, b, fuel, n);
        if ended {
          return true, vm.error, b;
        }
      case Break(Some(ip)) =>
        bytes[ip] := 1;
        b' := b + {ip};
      case Clear(Some(ip)) =>
        bytes[ip] := 0;
        b' := b - {ip};
      case Quit =>
        return true, Ok, b;
      case _ =>
    }
  }

  lemma ContinueKeepsBreakpoints(code: seq<Instr>, s: State, b: set<nat>, n: nat, fuel: nat)
    ensures DoContinue(code, s, b, n, fuel).Prompt? ==> DoContinue(code, s, b, n, fuel).breakpoints == b
  {
    hide Step, Resume;
  }

  /** The debugger, from power-on to the end of its input, provided C defines
      the steps that this session takes. */
  method RunDebugger(code: seq<Instr>, codeIsNull: bool, lines: seq<string>, ghost fuel: nat)
    returns (r: Error, vm: Vm)
    requires (codeIsNull ==> code == []) && |code| <= TWO_63
    requires !After(code, lines, fuel).Waiting? && DefinedFor(code, Init(), After(code, lines, fuel).steps)
    ensures vm.Valid()
    ensures match After(code, lines, fuel)
      case Prompt(s, _, _) => r == Ok && vm.Model() == s
      case Ended(e, s, _) => r == (if codeIsNull then Ok else e) && vm.Model() == s
      case _ => false
  {
    hide Step, Init, Do, CommandOf, DefinedFor;
    vm := new Vm.Init(code, codeIsNull);
    var bytes := new byte[if |code| == 0 then 1 else |code|](_ => 0);
    ghost var b: set<nat> := {};
    ghost var n := 0;
    for i := 0 to |lines|
      invariant vm.Valid() && fresh(vm) && fresh(vm.regs) && fresh(vm.memory) && fresh(bytes)
      invariant vm.memory != bytes && vm.code == code && vm.codeIsNull == codeIsNull && vm.error == Ok
      invariant Marks(bytes[..], b, |code|)
      invariant After(code, lines[..i], fuel) == Prompt(vm.Model(), b, n)
      invariant Run(code, Init(), n) == Next(vm.Model())
    {
      assert lines[..i + 1][..i] == lines[..i];
      AfterPrefix(code, lines, fuel, i + 1);
      var c := ReadCommand(lines[i], |code|);
      CommandInRange(lines[i], |code|);
      ghost var d := Do(code, vm.Model(), b, n, c, fuel);
      assert After(code, lines[..i + 1], fuel) == d;
      DefinedForLess(code, Init(), d.steps, After(code, lines, fuel).steps);
      DoOnRun(code, vm.Model(), b, n, c, fuel);
      var ended;
      ended, r, b := DoCommand(vm, bytes, b, c, fuel, n);
      if ended {
        return r, vm;
      }
      n := d.steps;
    }
    assert lines[..|lines|] == lines;
    return Ok, vm;
  }

  lemma CommandInRange(line: string, limit: nat)
    ensures IndexInRange(CommandOf(line, limit), limit)
  {
  }

  /** A command never takes steps back. */
  lemma StepsGrow(code: seq<Instr>, s: State, b: set<nat>, n: nat, c: Command, fuel: nat)
    ensures !Do(code, s, b, n, c, fuel).Waiting? ==> n <= Do(code, s, b, n, c, fuel).steps
  {
    hide Step, Resume;
  }

  /** A session that ends, or waits, stays so whatever is typed after; and the
      steps of a session include those of its beginnings. */
  lemma {:induction false} AfterPrefix(code: seq<Instr>, lines: seq<string>, fuel: nat, i: nat)
    requires i <= |lines|
    ensures !After(code, lines[..i], fuel).Prompt? ==> After(code, lines, fuel) == After(code, lines[..i], fuel)
    ensures !After(code, lines, fuel).Waiting? ==>
      !After(code, lines[..i], fuel).Waiting? && After(code, lines[..i], fuel).steps <= After(code, lines, fuel).steps
    decreases |lines|
  {
    hide Do;
    if i < |lines| {
      var before := lines[..|lines| - 1];
      assert before[..i] == lines[..i];
      AfterPrefix(code, before, fuel, i);
      match After(code, before, fuel)
      case Prompt(s, b, n) => StepsGrow(code, s, b, n, CommandOf(lines[|lines| - 1], |code|), fuel);
      case _ =>
    } else {
      assert lines[..i] == lines;
    }
  }
}
