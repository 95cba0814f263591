/** What the words typed at the debugger's prompt do to a session. */
module Commands {
  import opened Words
  import opened Isa
  import opened Machine
  import opened Text
  import opened Debugger

  // ----- lines -----

  function Line(lead: string, name: string, gap: string, arg: string, trail: string): string {
    lead + (name + (gap + arg)) + trail
  }

  /** A word and an argument, possibly none, with spaces around them. */
  predicate Spaced(lead: string, name: string, gap: string, arg: string, trail: string) {
    && Spaces(lead) && Spaces(gap) && Spaces(trail)
    && name != [] && (forall i :: 0 <= i < |name| ==> !IsSpace(name[i]))
    && if arg == [] then gap == [] else gap != [] && !IsSpace(arg[0]) && !IsSpace(arg[|arg| - 1])
  }

  ghost predicate Says(line: string, name: string, arg: string) {
    exists lead: string, gap: string, trail: string :: Spaced(lead, name, gap, arg, trail) && line == Line(lead, name, gap, arg, trail)
  }

  /** A word alone, and a word, one space and a printed number. */
  lemma PlainlySaid(name: string, x: int)
    requires name != [] && forall i :: 0 <= i < |name| ==> !IsSpace(name[i])
    ensures Says(name, name, "") && Says(name + " " + Decimal(x), name, Decimal(x))
  {
    DigitsShape(Abs(x));
    assert Spaced("", name, "", "", "") && Line("", name, "", "", "") == name;
    var arg := Decimal(x);
    hide Digits, Decimal;
    assert Spaced("", name, " ", arg, "");
    assert Line("", name, " ", arg, "") == name + " " + arg;
  }

  lemma SpacedLine(lead: string, name: string, gap: string, arg: string, trail: string, limit: nat)
    requires Spaced(lead, name, gap, arg, trail)
    ensures CommandOf(Line(lead, name, gap, arg, trail), limit) ==
      CommandNamed(name, if arg == [] then None else Some(arg), limit)
  {
    hide CommandNamed, Trim, NameLength;
    var rest := gap + arg;
    var t := name + rest;
    TrimPadded(lead, t, trail);
    NameLengthOf(name, rest);
    assert t[..|name|] == name;
    if arg != [] {
      assert t[|name| + 1..] == gap[1..] + arg + [];
      TrimPadded(gap[1..], arg, []);
    }
  }

  lemma SaidLine(line: string, name: string, arg: string, limit: nat)
    requires Says(line, name, arg)
    ensures CommandOf(line, limit) == CommandNamed(name, if arg == [] then None else Some(arg), limit)
  {
    hide CommandOf, CommandNamed, Spaced, Line;
    var lead: string, gap: string, trail: string :| Spaced(lead, name, gap, arg, trail) && line == Line(lead, name, gap, arg, trail);
    SpacedLine(lead, name, gap, arg, trail, limit);
  }

  /** The words that inspect, and those that are no commands. */
  lemma WordsKnown(line: string, name: string, arg: string, limit: nat)
    requires Says(line, name, arg)
    ensures CommandOf(line, limit) == Inspect <==> name in {"help", "regs", "ip", "dis", "mem", "stack"}
    ensures CommandOf(line, limit) == Unknown <==>
      name !in {"help", "regs", "ip", "dis", "mem", "stack",
                "step", "s", "continue", "c", "break", "b", "clear", "quit", "q"}
  {
    SaidLine(line, name, arg, limit);
    hide CommandOf, ParseIndex;
  }

  // ----- indices -----

  /** What strtoull makes of a magnitude and a sign. */
  function Unsigned(minus: bool, m: nat): nat {
    if m >= 0x1_0000_0000_0000_0000 then 0xFFFF_FFFF_FFFF_FFFF
    else if minus && m > 0 then 0x1_0000_0000_0000_0000 - m
    else m
  }

  predicate IndexAt(arg: string, i: nat, j: nat, k: nat, m: nat, base: nat, u: nat) {
    Numeral(arg, i, j, k, m, base) && u == Unsigned(arg[i..j] == "-", m)
  }

  /** The argument is a numeral for the instruction index u. */
  ghost predicate Index(arg: string, u: nat, count: nat) {
    u < count && exists i: nat, j: nat, k: nat, m: nat, base: nat :: IndexAt(arg, i, j, k, m, base, u)
  }

  lemma IndexRead(arg: string, i: nat, j: nat, k: nat, m: nat, base: nat, u: nat, count: nat)
    requires IndexAt(arg, i, j, k, m, base, u)
    ensures arg != [] && ParseIndex(Some(arg), count) == if u < count then Some(u) else None
  {
    hide Numeral, ScanInteger;
    ScanNumeral(arg, i, j, k, m, base);
  }

  lemma ReadIndex(arg: string, count: nat)
    ensures ParseIndex(Some(arg), count).Some? ==> Index(arg, ParseIndex(Some(arg), count).value, count)
  {
    hide Numeral, ScanInteger;
    if ParseIndex(Some(arg), count).Some? {
      var i, j, k, base := ScannedIsNumeral(arg);
      var m := ScanInteger(arg).magnitude;
      ScanNumeral(arg, i, j, k, m, base);
      assert IndexAt(arg, i, j, k, m, base, ParseIndex(Some(arg), count).value);
    }
  }

  /** An argument is taken for an index exactly if it is a numeral for one. */
  lemma IndexMeaning(arg: string, count: nat)
    ensures var p := ParseIndex(if arg == [] then None else Some(arg), count);
      && (forall u: nat :: Index(arg, u, count) <==> p == Some(u))
      && (p == None <==> forall u: nat :: !Index(arg, u, count))
  {
    hide ParseIndex, IndexAt;
    ReadIndex(arg, count);
    NoIndex(count);
    forall u: nat | Index(arg, u, count)
      ensures arg != [] && ParseIndex(Some(arg), count) == Some(u)
    {
      var i: nat, j: nat, k: nat, m: nat, base: nat :| IndexAt(arg, i, j, k, m, base, u);
      IndexRead(arg, i, j, k, m, base, u, count);
    }
    hide Index;
    if arg != [] && ParseIndex(Some(arg), count).Some? {
      assert Index(arg, ParseIndex(Some(arg), count).value, count);
    }
  }

  lemma NoIndex(count: nat)
    ensures ParseIndex(Some(""), count) == None && ParseIndex(None, count) == None
  {
  }

  // ----- sessions -----

  /** The lines typed so far end at a prompt, after n steps and with these
      breakpoints. */
  predicate AtPrompt(code: seq<Instr>, lines: seq<string>, fuel: nat, b: set<nat>, n: nat) {
    var d := After(code, lines, fuel);
    d.Prompt? && d.breakpoints == b && d.steps == n
  }

  /** At a prompt the machine is the run's. */
  lemma PromptOnRun(code: seq<Instr>, lines: seq<string>, fuel: nat, b: set<nat>, n: nat)
    requires AtPrompt(code, lines, fuel, b, n)
    ensures Run(code, Init(), n).Next? && After(code, lines, fuel) == Prompt(Run(code, Init(), n).s, b, n)
  {
    DebuggerFollowsRun(code, lines, fuel);
    hide After;
  }

  lemma OneMore(code: seq<Instr>, lines: seq<string>, fuel: nat, b: set<nat>, n: nat, line: string)
    requires AtPrompt(code, lines, fuel, b, n)
    ensures Run(code, Init(), n).Next?
    ensures After(code, lines + [line], fuel) == Do(code, Run(code, Init(), n).s, b, n, CommandOf(line, |code|), fuel)
  {
    hide Do, CommandOf, Run, Init;
    PromptOnRun(code, lines, fuel, b, n);
    assert (lines + [line])[..|lines|] == lines;
  }

  /** `break` and `b` add the index they are given; given none, nothing. */
  lemma BreakLine(code: seq<Instr>, lines: seq<string>, fuel: nat, b: set<nat>, n: nat, line: string, name: string, arg: string)
    requires AtPrompt(code, lines, fuel, b, n) && Says(line, name, arg) && name in {"break", "b"}
    ensures Run(code, Init(), n).Next?
    ensures var s := Run(code, Init(), n).s;
      && (forall u: nat :: Index(arg, u, |code|) ==> After(code, lines + [line], fuel) == Prompt(s, b + {u}, n))
      && ((forall u: nat :: !Index(arg, u, |code|)) ==> After(code, lines + [line], fuel) == Prompt(s, b, n))
  {
    hide CommandOf, Run, Init, After, ParseIndex, Says, Index, AtPrompt;
    OneMore(code, lines, fuel, b, n, line);
    SaidLine(line, name, arg, |code|);
    IndexMeaning(arg, |code|);
  }

  /** `clear` takes it away. */
  lemma ClearLine(code: seq<Instr>, lines: seq<string>, fuel: nat, b: set<nat>, n: nat, line: string, arg: string)
    requires AtPrompt(code, lines, fuel, b, n) && Says(line, "clear", arg)
    ensures Run(code, Init(), n).Next?
    ensures var s := Run(code, Init(), n).s;
      && (forall u: nat :: Index(arg, u, |code|) ==> After(code, lines + [line], fuel) == Prompt(s, b - {u}, n))
      && ((forall u: nat :: !Index(arg, u, |code|)) ==> After(code, lines + [line], fuel) == Prompt(s, b, n))
  {
    hide CommandOf, Run, Init, After, ParseIndex, Says, Index, AtPrompt;
    OneMore(code, lines, fuel, b, n, line);
    SaidLine(line, "clear", arg, |code|);
    IndexMeaning(arg, |code|);
  }

  /** One step further along the run, unless the machine has halted. */
  function Stepped(code: seq<Instr>, b: set<nat>, n: nat): Session {
    match Run(code, Init(), n)
    case Next(t) => Prompt(t, b, n)
    case Stop(e, t) => Ended(e, t, n)
    case Trap => Faulted(n)
  }

  lemma DoStepOnRun(code: seq<Instr>, b: set<nat>, n: nat)
    requires Run(code, Init(), n).Next?
    ensures DoStep(code, Run(code, Init(), n).s, b, n) ==
      Stepped(code, b, if Run(code, Init(), n).s.halted then n else n + 1)
  {
    hide Step, Init;
  }

  /** `step` and `s` take one step of the run. */
  lemma StepLine(code: seq<Instr>, lines: seq<string>, fuel: nat, b: set<nat>, n: nat, line: string, name: string, arg: string)
    requires AtPrompt(code, lines, fuel, b, n) && Says(line, name, arg) && name in {"step", "s"}
    ensures Run(code, Init(), n).Next?
    ensures After(code, lines + [line], fuel) == Stepped(code, b, if Run(code, Init(), n).s.halted then n else n + 1)
  {
    hide CommandOf, Run, Init, After, ParseIndex, Says, AtPrompt, DoStep, Stepped;
    OneMore(code, lines, fuel, b, n, line);
    SaidLine(line, name, arg, |code|);
    DoStepOnRun(code, b, n);
  }

  /** The run stops for the debugger after m steps: it has halted, it stands on
      a breakpoint, or its next step does not succeed. */
  predicate StopsAt(code: seq<Instr>, b: set<nat>, m: nat) {
    var o := Run(code, Init(), m);
    o.Next? && (o.s.halted || o.s.ip in b || !Run(code, Init(), m + 1).Next?)
  }

  predicate FirstStop(code: seq<Instr>, b: set<nat>, n: nat, m: nat) {
    n <= m && StopsAt(code, b, m) && forall j :: n <= j < m ==> !StopsAt(code, b, j)
  }

  lemma PausesAt(code: seq<Instr>, b: set<nat>, n: nat, j: nat)
    requires Run(code, Init(), n).Next?
    ensures var s := Run(code, Init(), n).s;
      StopsAt(code, b, n + j) <==> Run(code, s, j).Next? && Pauses(code, Run(code, s, j).s, b)
  {
    hide Step, Init;
    RunSplit(code, Init(), n, j);
    assert Run(code, Init(), n + j).Next? ==> Run(code, Init(), n + j + 1) == Step(code, Run(code, Init(), n + j).s);
  }

  lemma StopIsPause(code: seq<Instr>, b: set<nat>, n: nat, m: nat)
    requires Run(code, Init(), n).Next? && n <= m
    ensures FirstStop(code, b, n, m) <==> FirstPause(code, Run(code, Init(), n).s, b, m - n)
  {
    hide Run, Pauses, StopsAt, Init;
    var s := Run(code, Init(), n).s;
    PausesAt(code, b, n, m - n);
    forall j: nat | j < m - n
      ensures StopsAt(code, b, n + j) <==> Run(code, s, j).Next? && Pauses(code, Run(code, s, j).s, b)
    {
      PausesAt(code, b, n, j);
    }
    if FirstStop(code, b, n, m) {
      PrefixNext(code, s, m - n);
      forall j: nat | j < m - n
        ensures !Pauses(code, Run(code, s, j).s, b)
      {
        assert !StopsAt(code, b, n + j);
      }
    }
    if FirstPause(code, s, b, m - n) {
      forall j | n <= j < m
        ensures !StopsAt(code, b, j)
      {
        PausesAt(code, b, n, j - n);
      }
    }
  }

  lemma PrefixNext(code: seq<Instr>, s: State, k: nat)
    requires Run(code, s, k).Next?
    ensures forall j: nat :: j <= k ==> Run(code, s, j).Next?
  {
    forall j: nat | j <= k
      ensures Run(code, s, j).Next?
    {
      RunPrefix(code, s, j, k);
    }
  }

  /** Where a `continue` that first stops after m steps leaves the session. */
  function Paused(code: seq<Instr>, b: set<nat>, m: nat): Session
    requires Run(code, Init(), m).Next?
  {
    var t := Run(code, Init(), m).s;
    if t.halted || t.ip in b then Prompt(t, b, m) else Stepped(code, b, m + 1)
  }

  lemma FirstStopNext(code: seq<Instr>, b: set<nat>, n: nat, m: nat)
    requires FirstStop(code, b, n, m)
    ensures n <= m && Run(code, Init(), m).Next?
  {
  }

  lemma ContinuesTo(code: seq<Instr>, b: set<nat>, n: nat, m: nat, fuel: nat)
    requires Run(code, Init(), n).Next? && FirstStop(code, b, n, m) && m - n <= fuel
    ensures Run(code, Init(), m).Next?
    ensures DoContinue(code, Run(code, Init(), n).s, b, n, fuel) == Paused(code, b, m)
  {
    hide Run, FirstPause, FirstStop, StopsAt, Resume, DoStep, Stepped, Init;
    FirstStopNext(code, b, n, m);
    StopIsPause(code, b, n, m);
    ResumeFinds(code, Run(code, Init(), n).s, b, m - n, fuel);
    RunSplit(code, Init(), n, m - n);
    DoStepOnRun(code, b, m);
  }

  lemma ContinuesOn(code: seq<Instr>, b: set<nat>, n: nat, fuel: nat)
    requires Run(code, Init(), n).Next? && forall m: nat :: m <= n + fuel ==> !FirstStop(code, b, n, m)
    ensures DoContinue(code, Run(code, Init(), n).s, b, n, fuel) == Waiting
  {
    hide FirstPause, FirstStop, Resume, Run, Init;
    var s := Run(code, Init(), n).s;
    if Resume(code, s, b, fuel).Some? {
      ResumeOnRun(code, s, b, fuel);
      var k := Resume(code, s, b, fuel).value.1;
      StopIsPause(code, b, n, n + k);
    }
  }

  /** `continue` and `c` go to the first stop of the run, this one included, and
      execute there the instruction that fails, if that is why. */
  lemma ContinueLine(code: seq<Instr>, lines: seq<string>, fuel: nat, b: set<nat>, n: nat, line: string, name: string, arg: string)
    requires AtPrompt(code, lines, fuel, b, n) && Says(line, name, arg) && name in {"continue", "c"}
    ensures forall m: nat :: FirstStop(code, b, n, m) && m <= n + fuel ==>
      Run(code, Init(), m).Next? && After(code, lines + [line], fuel) == Paused(code, b, m)
    ensures (forall m: nat :: m <= n + fuel ==> !FirstStop(code, b, n, m)) ==> After(code, lines + [line], fuel) == Waiting
  {
    hide CommandOf, Run, Init, After, ParseIndex, Says, AtPrompt, FirstStop, Paused, DoContinue;
    OneMore(code, lines, fuel, b, n, line);
    SaidLine(line, name, arg, |code|);
    forall m: nat | FirstStop(code, b, n, m) && m <= n + fuel
      ensures Run(code, Init(), m).Next? && DoContinue(code, Run(code, Init(), n).s, b, n, fuel) == Paused(code, b, m)
    {
      FirstStopNext(code, b, n, m);
      ContinuesTo(code, b, n, m, fuel);
    }
    if forall m: nat :: m <= n + fuel ==> !FirstStop(code, b, n, m) {
      ContinuesOn(code, b, n, fuel);
    }
  }

  /** `quit` and `q` end with OK. */
  lemma QuitLine(code: seq<Instr>, lines: seq<string>, fuel: nat, b: set<nat>, n: nat, line: string, name: string, arg: string)
    requires AtPrompt(code, lines, fuel, b, n) && Says(line, name, arg) && name in {"quit", "q"}
    ensures Run(code, Init(), n).Next? && After(code, lines + [line], fuel) == Ended(Ok, Run(code, Init(), n).s, n)
  {
    hide CommandOf, Run, Init, After, ParseIndex, Says, AtPrompt;
    OneMore(code, lines, fuel, b, n, line);
    SaidLine(line, name, arg, |code|);
  }

  /** Every other word, the six that inspect included, changes nothing; nor does
      a line of spaces. */
  lemma OtherLine(code: seq<Instr>, lines: seq<string>, fuel: nat, b: set<nat>, n: nat, line: string, name: string, arg: string)
    requires AtPrompt(code, lines, fuel, b, n)
    requires Spaces(line) || Says(line, name, arg)
    requires name !in {"break", "b", "clear", "step", "s", "continue", "c", "quit", "q"}
    ensures Run(code, Init(), n).Next? && After(code, lines + [line], fuel) == Prompt(Run(code, Init(), n).s, b, n)
  {
    hide Run, Init, After, ParseIndex, Says, AtPrompt, Spaces;
    OneMore(code, lines, fuel, b, n, line);
    if Spaces(line) {
      SpacesAreBlank(line);
    } else {
      SaidLine(line, name, arg, |code|);
    }
    hide CommandOf;
  }

  lemma {:induction false} SpacesAreBlank(line: string)
    requires Spaces(line)
    ensures Trim(line) == []
  {
    if line != [] {
      SpacesAreBlank(line[1..]);
    }
  }

  lemma PrintedIndex(i: nat, count: nat)
    requires i < count <= 0x1_0000_0000_0000_0000
    ensures Index(Decimal(i), i, count)
  {
    IndexAccepted(i, count);
    IndexMeaning(Decimal(i), count);
    DigitsShape(i);
    hide Digits, ParseIndex, Index;
  }

  lemma EmptySession(code: seq<Instr>, fuel: nat)
    ensures AtPrompt(code, [], fuel, {}, 0) && Run(code, Init(), 0) == Next(Init())
  {
  }

  /** `break i` on a program of more than i instructions breaks at i, and
      `clear i` takes it back. */
  lemma BreakFromStart(code: seq<Instr>, i: nat, fuel: nat)
    requires i < |code| <= 0x1_0000_0000_0000_0000
    ensures After(code, ["break " + Decimal(i)], fuel) == Prompt(Init(), {i}, 0)
    ensures After(code, ["break " + Decimal(i), "clear " + Decimal(i)], fuel) == Prompt(Init(), {}, 0)
  {
    hide After, Decimal, Says, Index, Run, Init;
    var arg := Decimal(i);
    var first, second := "break" + " " + arg, "clear" + " " + arg;
    PlainlySaid("break", i);
    PlainlySaid("clear", i);
    PrintedIndex(i, |code|);
    EmptySession(code, fuel);
    BreakLine(code, [], fuel, {}, 0, first, "break", arg);
    assert [] + [first] == [first];
    ClearLine(code, [first], fuel, {i}, 0, second, arg);
    assert {i} - {i} == {} && {} + {i} == {i};
    assert [first] + [second] == [first, second];
    assert first == "break " + arg && second == "clear " + arg;
  }
}
