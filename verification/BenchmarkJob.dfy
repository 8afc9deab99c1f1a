/** A detached benchmark job: the steps of its wrapper script, and the status poll that reads the
    exit file the script leaves behind. Any step may fail and the job may be killed between any two
    writes; polls happen at any time. */
module BenchmarkJob {
  import opened Wrappers

  // ----- Exit codes as text -----

  function Digit(n: nat): char
    requires n < 10
  {
    '0' + n as char
  }

  /** What `printf '%s' "$code"` prints. */
  function Decimal(n: nat): (s: string)
    ensures s != [] && forall i :: 0 <= i < |s| ==> IsDigit(s[i])
  {
    (if n < 10 then [] else Decimal(n / 10)) + [Digit(n % 10)]
  }

  predicate IsDigit(c: char) {
    '0' <= c <= '9'
  }

  predicate IsSpace(c: char) {
    c == ' ' || '\t' <= c <= '\r' || c == '\U{A0}' || c == '\U{FEFF}' || c == '\U{1680}'
    || '\U{2000}' <= c <= '\U{200A}' || c == '\U{2028}' || c == '\U{2029}' || c == '\U{202F}' || c == '\U{205F}'
    || c == '\U{3000}'
  }

  /** White space by character codes, as trim takes it. */
  lemma SpacePlainly(c: char)
    ensures IsSpace(c) <==>
              var code := c as int;
              9 <= code <= 13 || code in {32, 160, 5760, 8232, 8233, 8239, 8287, 12288, 65279} || 8192 <= code <= 8202
  {}

  function TrimStart(s: string): string {
    if s != [] && IsSpace(s[0]) then TrimStart(s[1..]) else s
  }

  function TrimEnd(s: string): string {
    if s != [] && IsSpace(s[|s| - 1]) then TrimEnd(s[..|s| - 1]) else s
  }

  predicate AllDigits(s: string) {
    forall i :: 0 <= i < |s| ==> IsDigit(s[i])
  }

  function DigitValue(c: char): nat
    requires IsDigit(c)
  {
    c as int - '0' as int
  }

  function NumberOf(s: string): nat
    requires AllDigits(s)
  {
    if s == [] then 0 else 10 * NumberOf(s[..|s| - 1]) + DigitValue(s[|s| - 1])
  }

  /** `trim`, then `/^-?\d+$/`, then `Number`. */
  function ReadCode(text: string): Option<int> {
    var t := TrimEnd(TrimStart(text));
    if t != [] && AllDigits(t) then Some(NumberOf(t))
    else if |t| > 1 && t[0] == '-' && AllDigits(t[1..]) then Some(0 - NumberOf(t[1..]))
    else None
  }

  lemma NumberOfSnoc(s: string, n: nat)
    requires AllDigits(s) && n < 10
    ensures DigitValue(Digit(n)) == n
    ensures NumberOf(s + [Digit(n)]) == 10 * NumberOf(s) + n
  {
    var t := s + [Digit(n)];
    assert t[..|t| - 1] == s;
  }

  lemma {:induction false} NumberOfDecimal(n: nat)
    ensures NumberOf(Decimal(n)) == n
    decreases n
  {
    hide NumberOf, Digit;
    if n < 10 {
      NumberOfSnoc("", n);
      NoDigits();
      assert "" + [Digit(n)] == Decimal(n);
    } else {
      NumberOfSnoc(Decimal(n / 10), n % 10);
      NumberOfDecimal(n / 10);
    }
  }

  lemma NoDigits()
    ensures NumberOf("") == 0
  {
  }

  lemma DigitIsNoSpace(c: char)
    requires IsDigit(c)
    ensures !IsSpace(c)
  {
  }

  lemma CodeReadsBack(n: nat)
    ensures ReadCode(Decimal(n)) == Some(n)
  {
    var s := Decimal(n);
    hide Decimal;
    assert IsDigit(s[0]) && IsDigit(s[|s| - 1]);
    DigitIsNoSpace(s[0]);
    DigitIsNoSpace(s[|s| - 1]);
    assert TrimStart(s) == s && TrimEnd(s) == s;
    NumberOfDecimal(n);
  }

  predicate AllSpace(s: string) {
    forall i :: 0 <= i < |s| ==> s[i] == ' ' || s[i] == '\n' || s[i] == '\r' || s[i] == '\t'
  }

  lemma {:induction false} TrimmedStart(pre: string, s: string)
    requires AllSpace(pre)
    ensures TrimStart(pre + s) == TrimStart(s)
    decreases |pre|
  {
    if pre == [] {
      assert pre + s == s;
    } else {
      assert (pre + s)[0] == pre[0] && (pre + s)[1..] == pre[1..] + s;
      assert IsSpace(pre[0]);
      TrimmedStart(pre[1..], s);
    }
  }

  lemma {:induction false} TrimmedEnd(s: string, post: string)
    requires AllSpace(post)
    ensures TrimEnd(s + post) == TrimEnd(s)
    decreases |post|
  {
    if post == [] {
      assert s + post == s;
    } else {
      var all := s + post;
      assert all[|all| - 1] == post[|post| - 1] && all[..|all| - 1] == s + post[..|post| - 1];
      assert IsSpace(post[|post| - 1]);
      TrimmedEnd(s, post[..|post| - 1]);
    }
  }

  /** Blank space around a code does not matter, and a leading minus sign is read. */
  lemma CodeReadsThroughSpace(pre: string, n: nat, post: string)
    requires AllSpace(pre) && AllSpace(post)
    ensures ReadCode(pre + (Decimal(n) + post)) == Some(n)
    ensures ReadCode(pre + (("-" + Decimal(n)) + post)) == Some(0 - n)
  {
    hide Decimal;
    var s := Decimal(n);
    DigitIsNoSpace(s[0]);
    DigitIsNoSpace(s[|s| - 1]);
    TrimmedStart(pre, s + post);
    TrimmedEnd(s, post);
    assert TrimStart(s + post) == s + post;
    var t := "-" + s;
    TrimmedStart(pre, t + post);
    TrimmedEnd(t, post);
    assert t[0] == '-' && t[|t| - 1] == s[|s| - 1] && t[1..] == s;
    assert !IsSpace('-') && TrimStart(t + post) == t + post;
    assert TrimEnd(t) == t && TrimEnd(s) == s;
    assert !IsDigit(t[0]);
    NumberOfDecimal(n);
  }

  /** A text with any other character is no code. */
  lemma OtherTextIsNoCode(text: string, i: nat)
    requires i < |text| && !IsDigit(text[i]) && !IsSpace(text[i]) && text[i] != '-'
    ensures ReadCode(text).None?
  {
    TrimStartKeeps(text, text[i]);
    TrimEndKeeps(TrimStart(text), text[i]);
    var t := TrimEnd(TrimStart(text));
    var k :| 0 <= k < |t| && t[k] == text[i];
    if t[0] == '-' && k > 0 {
      assert t[1..][k - 1] == text[i];
    }
  }

  lemma {:induction false} TrimStartKeeps(s: string, c: char)
    requires c in s && !IsSpace(c)
    ensures c in TrimStart(s)
    decreases |s|
  {
    if IsSpace(s[0]) {
      assert s == [s[0]] + s[1..];
      TrimStartKeeps(s[1..], c);
    }
  }

  lemma {:induction false} TrimEndKeeps(s: string, c: char)
    requires c in s && !IsSpace(c)
    ensures c in TrimEnd(s)
    decreases |s|
  {
    if IsSpace(s[|s| - 1]) {
      assert s == s[..|s| - 1] + [s[|s| - 1]];
      TrimEndKeeps(s[..|s| - 1], c);
    }
  }

  // ----- The wrapper script -----

  /** How the command line ended. Without its log file or program the shell never starts the command. */
  datatype Outcome =
    | Ran(exitCode: nat)
    | NotStarted(shellStatus: nat)

  function StatusOf(outcome: Outcome): nat {
    match outcome
    case Ran(exitCode) => exitCode
    case NotStarted(shellStatus) => shellStatus
  }

  /** The statement the shell is at, in script order. */
  datatype Phase =
    | ChangeDirectory
    | MakeDirectory
    | RunCommand
    | CaptureCode
    | FindResult
    | CopyResult
    | Copying
    | PrintCode
    | Printing(left: string)
    | RenameExit
    | Over

  datatype Job = Job(
    phase: Phase,
    lastStatus: nat,
    code: nat,
    found: string,
    commandLine: Option<Outcome>,
    result: Option<string>,
    exitTmp: Option<string>,
    exit: Option<string>)

  datatype Event =
    | DirectoryEntered(entered: bool)
    | DirectoryMade(status: nat)
    | CommandWroteResult(content: Option<string>)
    | CommandEnded(outcome: Outcome)
    | CodeCaptured
    | ResultFound(path: string, status: nat)
    | CopySkipped
    | CopyOpened
    | CopyWrote(chunk: string)
    | CopyEnded(status: nat)
    | ExitTmpOpened(created: bool)
    | ExitTmpWrote(count: nat)
    | PrintEnded(printed: bool)
    | Renamed(renamed: bool)
    | Killed

  /** One step of the script; an event that does not belong to the current statement changes nothing. */
  function Step(j: Job, e: Event): Job {
    match e
    case DirectoryEntered(entered) =>
      if j.phase != ChangeDirectory then j else j.(phase := if entered then MakeDirectory else Over)
    case DirectoryMade(status) =>
      if j.phase != MakeDirectory then j else j.(phase := RunCommand, lastStatus := status)
    case CommandWroteResult(content) =>
      if j.phase != RunCommand then j else j.(result := content)
    case CommandEnded(outcome) =>
      if j.phase != RunCommand || outcome == NotStarted(0) then j
      else j.(phase := CaptureCode, lastStatus := StatusOf(outcome), commandLine := Some(outcome))
    case CodeCaptured =>
      if j.phase != CaptureCode then j else j.(phase := FindResult, code := j.lastStatus, lastStatus := 0)
    case ResultFound(path, status) =>
      if j.phase != FindResult then j else j.(phase := CopyResult, found := path, lastStatus := status)
    case CopySkipped =>
      if j.phase != CopyResult || j.found != "" then j else j.(phase := PrintCode, lastStatus := 1)
    case CopyOpened =>
      if j.phase != CopyResult || j.found == "" then j else j.(phase := Copying, result := Some(""))
    case CopyWrote(chunk) =>
      if j.phase != Copying || j.result.None? then j else j.(result := Some(j.result.value + chunk))
    case CopyEnded(status) =>
      if (j.phase != Copying && j.phase != CopyResult) || j.found == "" then j
      else j.(phase := PrintCode, lastStatus := status)
    case ExitTmpOpened(created) =>
      if j.phase != PrintCode then j
      else if created then j.(phase := Printing(Decimal(j.code)), exitTmp := Some(""))
      else j.(phase := Over)
    case ExitTmpWrote(count) =>
      if !j.phase.Printing? || j.exitTmp.None? || count > |j.phase.left| then j
      else j.(phase := Printing(j.phase.left[count..]), exitTmp := Some(j.exitTmp.value + j.phase.left[..count]))
    case PrintEnded(printed) =>
      if !j.phase.Printing? || (printed && j.phase.left != "") then j
      else j.(phase := if printed then RenameExit else Over)
    case Renamed(renamed) =>
      if j.phase != RenameExit then j
      else if renamed then j.(phase := Over, exit := j.exitTmp, exitTmp := None)
      else j.(phase := Over)
    case Killed => j.(phase := Over)
  }

  function Run(j: Job, events: seq<Event>): Job
    decreases |events|
  {
    if events == [] then j else Run(Step(j, events[0]), events[1..])
  }

  /** The job directory as the script finds it. */
  function Start(result: Option<string>, exitTmp: Option<string>, exit: Option<string>): Job {
    Job(ChangeDirectory, 0, 0, "", None, result, exitTmp, exit)
  }

  // ----- The status poll -----

  datatype UnitState = UnitActive | UnitMissing | UnitUnknown | UnitExited(status: int)

  datatype JobStatus = Active | Missing | Unknown | Exited(code: int)

  function FileCode(exit: Option<string>): Option<int> {
    if exit.None? then None else ReadCode(exit.value)
  }

  /** What `job.status` answers when systemd describes the unit as `unit`. */
  function PollStatus(j: Job, unit: UnitState): JobStatus {
    match unit
    case UnitUnknown => Unknown
    case UnitExited(status) => Exited(status)
    case UnitActive => if FileCode(j.exit).Some? then Exited(FileCode(j.exit).value) else Active
    case UnitMissing => if FileCode(j.exit).Some? then Exited(FileCode(j.exit).value) else Missing
  }

  // ----- What holds after every step -----

  /** The statements after `code=$?`. */
  predicate CodeIsKept(phase: Phase) {
    phase != ChangeDirectory && phase != MakeDirectory && phase != RunCommand && phase != CaptureCode && phase != Over
  }

  predicate HasRun(j: Job) {
    (j.phase == CaptureCode || CodeIsKept(j.phase)) ==> j.commandLine.Some? && j.commandLine.value != NotStarted(0)
  }

  predicate CodeIsTheCommands(j: Job) {
    && HasRun(j)
    && (j.phase == CaptureCode && j.commandLine.Some? ==> j.lastStatus == StatusOf(j.commandLine.value))
    && (CodeIsKept(j.phase) && j.commandLine.Some? ==> j.code == StatusOf(j.commandLine.value))
  }

  predicate TmpIsPartial(j: Job) {
    && (j.phase.Printing? ==> j.exitTmp.Some? && j.exitTmp.value + j.phase.left == Decimal(j.code))
    && (j.phase == RenameExit ==> j.exitTmp == Some(Decimal(j.code)))
  }

  /** Once the exit file is readable the script has ended and the code in it is the command line's. */
  predicate ExitIsFinal(j: Job) {
    FileCode(j.exit).Some? ==>
      && j.phase == Over
      && j.commandLine.Some? && j.commandLine.value != NotStarted(0)
      && j.exit == Some(Decimal(StatusOf(j.commandLine.value)))
  }

  predicate Inv(j: Job) {
    CodeIsTheCommands(j) && TmpIsPartial(j) && ExitIsFinal(j)
  }

  lemma StepKeepsInv(j: Job, e: Event)
    requires Inv(j)
    ensures Inv(Step(j, e))
  {
    hide Decimal, ReadCode;
    match e
    case ExitTmpWrote(count) =>
      if j.phase.Printing? && j.exitTmp.Some? && count <= |j.phase.left| {
        var left, done := j.phase.left, j.exitTmp.value;
        assert done + left[..count] + left[count..] == done + left;
      }
    case PrintEnded(printed) =>
      if j.phase.Printing? && j.phase.left == "" {
        assert j.exitTmp.value + "" == j.exitTmp.value;
      }
    case ExitTmpOpened(created) =>
      assert "" + Decimal(j.code) == Decimal(j.code);
    case _ =>
  }

  lemma {:induction false} RunKeepsInv(j: Job, events: seq<Event>)
    requires Inv(j)
    ensures Inv(Run(j, events))
    decreases |events|
  {
    hide Inv;
    if events != [] {
      StepKeepsInv(j, events[0]);
      RunKeepsInv(Step(j, events[0]), events[1..]);
    }
  }

  lemma {:induction false} OverChangesNothing(j: Job, events: seq<Event>)
    requires j.phase == Over
    ensures Run(j, events) == j
    decreases |events|
  {
    if events != [] {
      OverChangesNothing(j, events[1..]);
    }
  }

  // ----- The exit file can be believed -----

  predicate Believable(exit: Option<string>) {
    FileCode(exit).None?
  }

  /** From a directory without a readable exit file: whatever happened so far, a status taken from
      the exit file is the command line's own, and nothing that happens later changes the result or
      the answer. In particular a zero means that the command itself ran and succeeded. */
  lemma ExitedMeansFinal(result: Option<string>, exitTmp: Option<string>, exit: Option<string>,
                         events: seq<Event>, unit: UnitState, more: seq<Event>)
    requires Believable(exit) && !unit.UnitExited?
    requires PollStatus(Run(Start(result, exitTmp, exit), events), unit).Exited?
    ensures var j := Run(Start(result, exitTmp, exit), events);
      var code := PollStatus(j, unit).code;
      && j.commandLine.Some? && StatusOf(j.commandLine.value) == code
      && (code == 0 ==> j.commandLine.value == Ran(0))
      && Run(j, more) == j
      && Run(j, more).result == j.result && PollStatus(Run(j, more), unit) == Exited(code)
  {
    hide Run;
    var start := Start(result, exitTmp, exit);
    assert Inv(start);
    RunKeepsInv(start, events);
    var j := Run(start, events);
    CodeReadsBack(StatusOf(j.commandLine.value));
    OverChangesNothing(j, more);
  }

  /** While the script is still at work, and whenever systemd could not be asked, a poll reports what
      systemd said and never an exit. */
  lemma NoExitBeforeTheEnd(result: Option<string>, exitTmp: Option<string>, exit: Option<string>,
                           events: seq<Event>, unit: UnitState)
    requires Believable(exit)
    ensures var j := Run(Start(result, exitTmp, exit), events);
      && (j.phase != Over && unit.UnitActive? ==> PollStatus(j, unit) == Active)
      && (j.phase != Over && unit.UnitMissing? ==> PollStatus(j, unit) == Missing)
      && (unit.UnitUnknown? ==> PollStatus(j, unit) == Unknown)
      && (unit.UnitExited? ==> PollStatus(j, unit) == Exited(unit.status))
  {
    hide Run, ReadCode;
    RunKeepsInv(Start(result, exitTmp, exit), events);
  }

  predicate AnswersComeFromTheCommand(start: Job, events: seq<Event>, unit: UnitState) {
    PollStatus(Run(start, events), unit).Exited? ==> Run(start, events).commandLine.Some?
  }

  /** Starting a job never removes an old exit file, and then a poll believes it before anything has run. */
  lemma ExitFileIsTrueIff(result: Option<string>, exitTmp: Option<string>, exit: Option<string>, unit: UnitState)
    requires unit.UnitActive? || unit.UnitMissing?
    ensures (forall events :: AnswersComeFromTheCommand(Start(result, exitTmp, exit), events, unit)) <==> Believable(exit)
  {
    var start := Start(result, exitTmp, exit);
    assert AnswersComeFromTheCommand(start, [], unit) ==> Believable(exit);
    if Believable(exit) {
      forall events
        ensures AnswersComeFromTheCommand(start, events, unit)
      {
        if PollStatus(Run(start, events), unit).Exited? {
          ExitedMeansFinal(result, exitTmp, exit, events, unit, []);
        }
      }
    }
  }

  // ----- And it is left behind when nothing goes wrong -----

  lemma {:induction false} RunAppend(j: Job, first: seq<Event>, second: seq<Event>)
    ensures Run(j, first + second) == Run(Run(j, first), second)
    decreases |first|
  {
    hide Step;
    if first == [] {
      assert first + second == second;
    } else {
      RunAppend(Step(j, first[0]), first[1..], second);
      assert (first + second)[0] == first[0] && (first + second)[1..] == first[1..] + second;
    }
  }

  lemma RunFour(j: Job, a: Event, b: Event, c: Event, d: Event)
    ensures Run(j, [a, b, c, d]) == Step(Step(Step(Step(j, a), b), c), d)
  {
    hide Step;
    assert [a, b, c, d][1..] == [b, c, d] && [b, c, d][1..] == [c, d] && [c, d][1..] == [d];
    assert Run(j, [a, b, c, d]) == Run(Step(j, a), [b, c, d]);
    assert Run(Step(j, a), [b, c, d]) == Run(Step(Step(j, a), b), [c, d]);
    assert Run(Step(Step(j, a), b), [c, d]) == Run(Step(Step(Step(j, a), b), c), [d]);
    assert [d][1..] == [];
  }

  function CommandSteps(outcome: Outcome): seq<Event> {
    [DirectoryEntered(true), DirectoryMade(0), CommandEnded(outcome), CodeCaptured]
  }

  function Writes(chunks: seq<string>): seq<Event> {
    if chunks == [] then [] else [CopyWrote(chunks[0])] + Writes(chunks[1..])
  }

  function Concat(chunks: seq<string>): string {
    if chunks == [] then "" else chunks[0] + Concat(chunks[1..])
  }

  /** The copy opens the result and writes it in any number of pieces. */
  function CopySteps(path: string, chunks: seq<string>): seq<Event> {
    [ResultFound(path, 0), CopyOpened] + (Writes(chunks) + [CopyEnded(0)])
  }

  function ExitSteps(text: string): seq<Event> {
    [ExitTmpOpened(true), ExitTmpWrote(|text|), PrintEnded(true), Renamed(true)]
  }

  lemma CommandStepsKeepTheCode(j: Job, outcome: Outcome)
    requires j.phase == ChangeDirectory && outcome != NotStarted(0)
    ensures Run(j, CommandSteps(outcome)) ==
            j.(phase := FindResult, lastStatus := 0, code := StatusOf(outcome), commandLine := Some(outcome))
  {
    hide Run;
    RunFour(j, DirectoryEntered(true), DirectoryMade(0), CommandEnded(outcome), CodeCaptured);
  }

  lemma {:induction false} WritesAppend(j: Job, chunks: seq<string>)
    requires j.phase == Copying && j.result.Some?
    ensures Run(j, Writes(chunks)) == j.(result := Some(j.result.value + Concat(chunks)))
    decreases |chunks|
  {
    if chunks == [] {
      assert j.result.value + "" == j.result.value;
    } else {
      var next := j.(result := Some(j.result.value + chunks[0]));
      assert Step(j, CopyWrote(chunks[0])) == next;
      hide Step;
      WritesAppend(next, chunks[1..]);
      assert Writes(chunks)[0] == CopyWrote(chunks[0]) && Writes(chunks)[1..] == Writes(chunks[1..]);
      Regroup(j.result.value, chunks[0], Concat(chunks[1..]));
    }
  }

  lemma RunTwo(j: Job, a: Event, b: Event)
    ensures Run(j, [a, b]) == Step(Step(j, a), b)
    ensures Run(j, [a]) == Step(j, a)
  {
    hide Step;
    assert [a, b][1..] == [b] && [b][1..] == [] && [a][1..] == [];
    assert Run(j, [a, b]) == Run(Step(j, a), [b]);
  }

  lemma CopyBegins(j: Job, path: string)
    requires j.phase == FindResult && path != ""
    ensures Step(Step(j, ResultFound(path, 0)), CopyOpened) ==
            j.(phase := Copying, lastStatus := 0, found := path, result := Some(""))
  {
  }

  lemma CopyEnds(j: Job)
    requires j.phase == Copying && j.found != ""
    ensures Step(j, CopyEnded(0)) == j.(phase := PrintCode, lastStatus := 0)
  {
  }

  lemma CopyStepsCopy(j: Job, path: string, chunks: seq<string>)
    requires j.phase == FindResult && path != ""
    ensures Run(j, CopySteps(path, chunks)) ==
            j.(phase := PrintCode, lastStatus := 0, found := path, result := Some(Concat(chunks)))
  {
    hide Run, Step, Writes, Concat;
    var begun := j.(phase := Copying, lastStatus := 0, found := path, result := Some(""));
    RunAppend(j, [ResultFound(path, 0), CopyOpened], Writes(chunks) + [CopyEnded(0)]);
    RunTwo(j, ResultFound(path, 0), CopyOpened);
    CopyBegins(j, path);
    RunAppend(begun, Writes(chunks), [CopyEnded(0)]);
    WritesAppend(begun, chunks);
    assert "" + Concat(chunks) == Concat(chunks);
    var written := begun.(result := Some(Concat(chunks)));
    RunTwo(written, CopyEnded(0), CopyEnded(0));
    CopyEnds(written);
  }

  lemma OpenAndWrite(j: Job, text: string)
    requires j.phase == PrintCode && text == Decimal(j.code)
    ensures Step(Step(j, ExitTmpOpened(true)), ExitTmpWrote(|text|)) == j.(phase := Printing(""), exitTmp := Some(text))
  {
    hide Decimal;
    var begun := j.(phase := Printing(text), exitTmp := Some(""));
    assert Step(j, ExitTmpOpened(true)) == begun;
    assert "" + text[..|text|] == text && text[|text|..] == "";
  }

  lemma CloseAndRename(j: Job)
    requires j.phase == Printing("")
    ensures Step(Step(j, PrintEnded(true)), Renamed(true)) == j.(phase := Over, exit := j.exitTmp, exitTmp := None)
  {
  }

  lemma ExitStepsLeaveTheCode(j: Job)
    requires j.phase == PrintCode
    ensures Run(j, ExitSteps(Decimal(j.code))) == j.(phase := Over, exitTmp := None, exit := Some(Decimal(j.code)))
  {
    hide Run, Decimal, Step;
    var text := Decimal(j.code);
    RunFour(j, ExitTmpOpened(true), ExitTmpWrote(|text|), PrintEnded(true), Renamed(true));
    OpenAndWrite(j, text);
    CloseAndRename(j.(phase := Printing(""), exitTmp := Some(text)));
  }

  /** A run in which no step fails leaves what was copied, in however many pieces, and the command's
      code, whatever was there before. */
  lemma UndisturbedRunIsReported(result: Option<string>, exitTmp: Option<string>, exit: Option<string>,
                                 outcome: Outcome, path: string, chunks: seq<string>)
    requires path != "" && outcome != NotStarted(0)
    ensures var steps := CommandSteps(outcome) + (CopySteps(path, chunks) + ExitSteps(Decimal(StatusOf(outcome))));
      var j := Run(Start(result, exitTmp, exit), steps);
      j.result == Some(Concat(chunks)) && PollStatus(j, UnitMissing) == Exited(StatusOf(outcome))
  {
    hide Run, Decimal, ReadCode, CommandSteps, CopySteps, ExitSteps, Concat;
    var start := Start(result, exitTmp, exit);
    var first, second, third := CommandSteps(outcome), CopySteps(path, chunks), ExitSteps(Decimal(StatusOf(outcome)));
    RunAppend(start, first, second + third);
    RunAppend(Run(start, first), second, third);
    CommandStepsKeepTheCode(start, outcome);
    CopyStepsCopy(Run(start, first), path, chunks);
    ExitStepsLeaveTheCode(Run(Run(start, first), second));
    CodeReadsBack(StatusOf(outcome));
  }

  /** A run in which the command leaves `content` as the result, or none, and the search finds nothing to
      copy: the result stays what the command left, and the code is reported all the same. */
  lemma RunWithoutResultIsReported(result: Option<string>, exitTmp: Option<string>, exit: Option<string>,
                                   made: nat, content: Option<string>, outcome: Outcome, searched: nat)
    requires outcome != NotStarted(0)
    ensures var steps := [DirectoryEntered(true), DirectoryMade(made), CommandWroteResult(content), CommandEnded(outcome)]
                         + ([CodeCaptured, ResultFound("", searched)] + ([CopySkipped] + ExitSteps(Decimal(StatusOf(outcome)))));
      var j := Run(Start(result, exitTmp, exit), steps);
      j.result == content && PollStatus(j, UnitMissing) == Exited(StatusOf(outcome))
  {
    hide Run, Decimal, ReadCode, ExitSteps;
    var start, code := Start(result, exitTmp, exit), ExitSteps(Decimal(StatusOf(outcome)));
    var first := [DirectoryEntered(true), DirectoryMade(made), CommandWroteResult(content), CommandEnded(outcome)];
    var second := [CodeCaptured, ResultFound("", searched)];
    RunAppend(start, first, second + ([CopySkipped] + code));
    RunFour(start, DirectoryEntered(true), DirectoryMade(made), CommandWroteResult(content), CommandEnded(outcome));
    var ended := start.(phase := CaptureCode, lastStatus := StatusOf(outcome), commandLine := Some(outcome), result := content);
    assert Run(start, first) == ended;
    RunAppend(ended, second, [CopySkipped] + code);
    RunTwo(ended, CodeCaptured, ResultFound("", searched));
    var searching := ended.(phase := CopyResult, lastStatus := searched, code := StatusOf(outcome), found := "");
    assert Run(ended, second) == searching;
    RunAppend(searching, [CopySkipped], code);
    RunTwo(searching, CopySkipped, CopySkipped);
    ExitStepsLeaveTheCode(searching.(phase := PrintCode, lastStatus := 1));
    CodeReadsBack(StatusOf(outcome));
  }

  /** A copy that cannot even start leaves the result alone too. */
  lemma FailedCopyLeavesResult(j: Job, status: nat)
    requires j.phase == CopyResult && j.found != ""
    ensures Step(j, CopyEnded(status)) == j.(phase := PrintCode, lastStatus := status)
  {
  }

  /** When the directory cannot be entered nothing runs and no file is touched, whatever follows. */
  lemma FailedDirectoryRunsNothing(result: Option<string>, exitTmp: Option<string>, exit: Option<string>, events: seq<Event>)
    ensures Run(Start(result, exitTmp, exit), [DirectoryEntered(false)] + events)
         == Start(result, exitTmp, exit).(phase := Over)
  {
    var all := [DirectoryEntered(false)] + events;
    assert all[1..] == events;
    OverChangesNothing(Start(result, exitTmp, exit).(phase := Over), events);
  }

  /** A kill is final: every file stays as it was. */
  lemma KilledChangesNothing(j: Job, events: seq<Event>)
    ensures Run(j, [Killed] + events) == j.(phase := Over)
  {
    assert ([Killed] + events)[1..] == events;
    OverChangesNothing(j.(phase := Over), events);
  }

  /** Anything but a kill and the failures that end the script: the copy and the search may fail. */
  predicate Unbroken(e: Event) {
    match e
    case DirectoryEntered(entered) => entered
    case ExitTmpOpened(created) => created
    case PrintEnded(printed) => printed
    case Renamed(renamed) => renamed
    case Killed => false
    case _ => true
  }

  predicate AllUnbroken(events: seq<Event>) {
    forall i :: 0 <= i < |events| ==> Unbroken(events[i])
  }

  /** An unbroken script is over only once it has left the command line's code. */
  predicate LeavesCode(j: Job) {
    && CodeIsTheCommands(j) && TmpIsPartial(j)
    && (j.phase == Over ==> j.commandLine.Some? && j.exit == Some(Decimal(StatusOf(j.commandLine.value))))
  }

  lemma UnbrokenStep(j: Job, e: Event)
    requires LeavesCode(j) && Unbroken(e)
    ensures LeavesCode(Step(j, e))
  {
    hide Decimal;
    if e.ExitTmpWrote? && j.phase.Printing? && j.exitTmp.Some? && e.count <= |j.phase.left| {
      var left, done := j.phase.left, j.exitTmp.value;
      assert done + left[..e.count] + left[e.count..] == done + left;
    } else if e.PrintEnded? && j.phase.Printing? && j.phase.left == "" {
      assert j.exitTmp.value + "" == j.exitTmp.value;
    } else if e.ExitTmpOpened? {
      assert "" + Decimal(j.code) == Decimal(j.code);
    }
  }

  lemma {:induction false} UnbrokenRun(j: Job, events: seq<Event>)
    requires LeavesCode(j) && AllUnbroken(events)
    ensures LeavesCode(Run(j, events))
    decreases |events|
  {
    hide LeavesCode, Step, Unbroken;
    if events != [] {
      UnbrokenStep(j, events[0]);
      UnbrokenRun(Step(j, events[0]), events[1..]);
    }
  }

  /** Over every unbroken run, in whatever pieces files were written and whether or not a result was
      found and copied: once the script is over the poll reports the command line's code. */
  lemma UnbrokenRunIsReported(result: Option<string>, exitTmp: Option<string>, exit: Option<string>,
                              events: seq<Event>, unit: UnitState)
    requires forall i :: 0 <= i < |events| ==>
               && events[i] != Killed && events[i] != DirectoryEntered(false)
               && events[i] != ExitTmpOpened(false) && events[i] != PrintEnded(false) && events[i] != Renamed(false)
    requires unit.UnitActive? || unit.UnitMissing?
    ensures var j := Run(Start(result, exitTmp, exit), events);
      j.phase == Over ==> j.commandLine.Some? && PollStatus(j, unit) == Exited(StatusOf(j.commandLine.value))
  {
    hide Run, Decimal, ReadCode;
    var start := Start(result, exitTmp, exit);
    assert LeavesCode(start);
    UnbrokenRun(start, events);
    var j := Run(start, events);
    if j.commandLine.Some? {
      CodeReadsBack(StatusOf(j.commandLine.value));
    }
  }
}
