/** Deploy versus stop for one agent: the cancel registry, and the interleaving of launch steps, stop
    commands and docker's own progress for one deployment id. */
module DeployCancel {
  import opened Wrappers

  datatype CancelRecord = CancelRecord(deleteAfter: bool)

  // ----- the registry -----

  datatype Op = Begin(id: string) | Cancel(id: string, deleteAfter: bool) | Forget(id: string)

  function ApplyOp(cancels: map<string, CancelRecord>, op: Op): map<string, CancelRecord> {
    match op
    case Begin(id) => cancels - {id}
    case Cancel(id, deleteAfter) => cancels[id := CancelRecord(deleteAfter)]
    case Forget(id) => cancels - {id}
  }

  function Replay(ops: seq<Op>): map<string, CancelRecord> {
    if ops == [] then map[] else ApplyOp(Replay(ops[..|ops| - 1]), ops[|ops| - 1])
  }

  /** The last operation that names `id`. */
  function LastOn(ops: seq<Op>, id: string): Option<Op> {
    if ops == [] then None
    else if ops[|ops| - 1].id == id then Some(ops[|ops| - 1])
    else LastOn(ops[..|ops| - 1], id)
  }

  /** A cancel is pending exactly when the last operation on that id was a cancel, and it is that
      cancel; operations on other ids do not matter. */
  lemma {:induction false} PendingIffLastWasCancel(ops: seq<Op>, id: string)
    ensures id in Replay(ops) <==> LastOn(ops, id).Some? && LastOn(ops, id).value.Cancel?
    ensures id in Replay(ops) ==> Replay(ops)[id] == CancelRecord(LastOn(ops, id).value.deleteAfter)
  {
    if ops != [] { PendingIffLastWasCancel(ops[..|ops| - 1], id); }
  }

  /** createCancelRegistry. */
  class CancelRegistry {
    var cancels: map<string, CancelRecord>
    /** Every operation so far, in order. */
    ghost var ops: seq<Op>

    /** The map holds what replaying the operations leaves. */
    ghost predicate Valid()
      reads this
    {
      cancels == Replay(ops)
    }

    constructor ()
      ensures Valid() && ops == []
    {
      cancels, ops := map[], [];
    }

    method BeginDeploy(id: string)
      requires Valid()
      modifies this
      ensures Valid() && ops == old(ops) + [Begin(id)]
    {
      cancels := cancels - {id};
      ops := ops + [Begin(id)];
    }

    method RequestCancel(id: string, deleteAfter: bool)
      requires Valid()
      modifies this
      ensures Valid() && ops == old(ops) + [Cancel(id, deleteAfter)]
    {
      cancels := cancels[id := CancelRecord(deleteAfter)];
      ops := ops + [Cancel(id, deleteAfter)];
    }

    /** A record exactly when the last operation on `id` was a cancel, and then with its flag. */
    method PendingCancel(id: string) returns (r: Option<CancelRecord>)
      requires Valid()
      ensures r.Some? <==> LastOn(ops, id).Some? && LastOn(ops, id).value.Cancel?
      ensures r.Some? ==> r.value.deleteAfter == LastOn(ops, id).value.deleteAfter
    {
      PendingIffLastWasCancel(ops, id);
      r := if id in cancels then Some(cancels[id]) else None;
    }

    method DropCancel(id: string)
      requires Valid()
      modifies this
      ensures Valid() && ops == old(ops) + [Forget(id)]
    {
      cancels := cancels - {id};
      ops := ops + [Forget(id)];
    }
  }

  /** launchExitAction. */
  datatype ExitAction = Cancelled(deleteAfter: bool) | LaunchFailed | LaunchRunning

  function LaunchExitAction(code: Option<int>, cancel: Option<CancelRecord>): ExitAction {
    if cancel.Some? then Cancelled(cancel.value.deleteAfter)
    else if code != Some(0) then LaunchFailed
    else LaunchRunning
  }

  // ----- one deployment id -----

  /** Where a launch stands, between the awaits of launchDgxrun and its exit callback. */
  datatype Launch =
    | Inspecting                                  // docker image inspect
    | RemovingStale                               // docker rm -f before the run
    | DroppingCaches
    | Starting(created: bool)                     // docker run -d in flight
    | TearingDown(deleteAfter: bool, removed: bool)

  /** An undeploy handler that has not finished. */
  datatype Stop = Stop(preserve: bool, deleteAfter: bool, done: bool)

  datatype Message = Failed | Stopped(deleteAfter: bool)

  datatype State = State(
    cancel: Option<CancelRecord>,
    launches: seq<Launch>,
    stops: seq<Stop>,
    container: bool,
    tracked: bool,
    messages: seq<Message>,
    // bookkeeping for the statements below
    lastStop: Option<Stop>,       // the last command, when it was a stop
    dockerFailed: bool)           // a docker rm failed since the last command

  const INITIAL := State(None, [], [], false, false, [], None, false)

  datatype Event =
    | Deploy
    | DeployRefused                               // a mod is missing: onExit(1) at once
    | ImageFound(l: nat)
    | LaunchAborted(l: nat)                       // no image, or bad arguments: onExit(1)
    | StaleRemoved(l: nat, ok: bool)
    | CachesDropped(l: nat)
    | ContainerCreated(l: nat)
    | RunExited(l: nat, code: Option<int>)
    | TeardownRemoved(l: nat, ok: bool)
    | TeardownFinished(l: nat)
    | StopRequested(preserve: bool, deleteAfter: bool)
    | StopDocker(i: nat, ok: bool)
    | StopFinished(i: nat)

  predicate Enabled(s: State, ev: Event) {
    match ev
    case Deploy => true
    case DeployRefused => true
    case ImageFound(l) => l < |s.launches| && s.launches[l].Inspecting?
    case LaunchAborted(l) => l < |s.launches| && s.launches[l].Inspecting?
    case StaleRemoved(l, _) => l < |s.launches| && s.launches[l].RemovingStale?
    case CachesDropped(l) => l < |s.launches| && s.launches[l].DroppingCaches?
    // docker refuses a second container of the same name
    case ContainerCreated(l) => l < |s.launches| && s.launches[l].Starting? && !s.launches[l].created && !s.container
    // docker run -d exits 0 only once it has created the container
    case RunExited(l, code) => l < |s.launches| && s.launches[l].Starting? && (code == Some(0) ==> s.launches[l].created)
    case TeardownRemoved(l, _) => l < |s.launches| && s.launches[l].TearingDown? && !s.launches[l].removed
    case TeardownFinished(l) => l < |s.launches| && s.launches[l].TearingDown? && s.launches[l].removed
    case StopRequested(_, _) => true
    case StopDocker(i, _) => i < |s.stops| && !s.stops[i].done
    case StopFinished(i) => i < |s.stops| && s.stops[i].done
  }

  function Without<T>(xs: seq<T>, i: nat): seq<T>
    requires i < |xs|
  {
    xs[..i] + xs[i + 1..]
  }

  /** docker rm -f on the container: idempotent, and remembered when it fails. */
  function Removed(s: State, ok: bool): State {
    if ok then s.(container := false) else s.(dockerFailed := true)
  }

  /** The exit callback of launch l. */
  function Exited(s: State, l: nat, code: Option<int>): State
    requires l < |s.launches|
  {
    match LaunchExitAction(code, s.cancel)
    case LaunchRunning => s.(launches := Without(s.launches, l))
    case LaunchFailed => s.(launches := Without(s.launches, l), messages := s.messages + [Failed])
    case Cancelled(d) => s.(launches := s.launches[l := TearingDown(d, false)])
  }

  function Next(s: State, ev: Event): State
    requires Enabled(s, ev)
  {
    match ev
    case Deploy =>
      s.(cancel := None, launches := s.launches + [Inspecting], lastStop := None, dockerFailed := false)
    case DeployRefused =>
      s.(cancel := None, messages := s.messages + [Failed], lastStop := None, dockerFailed := false)
    case ImageFound(l) => s.(launches := s.launches[l := RemovingStale])
    case LaunchAborted(l) => Exited(s, l, Some(1))
    case StaleRemoved(l, ok) =>
      // persist() right after the awaited rm, whatever it answered
      Removed(s, ok).(launches := s.launches[l := DroppingCaches], tracked := true)
    case CachesDropped(l) => s.(launches := s.launches[l := Starting(false)])
    case ContainerCreated(l) => s.(launches := s.launches[l := Starting(true)], container := true)
    case RunExited(l, code) => Exited(s, l, code)
    case TeardownRemoved(l, ok) =>
      Removed(s, ok).(launches := s.launches[l := TearingDown(s.launches[l].deleteAfter, true)])
    case TeardownFinished(l) =>
      s.(tracked := false, cancel := None, launches := Without(s.launches, l),
         messages := s.messages + [Stopped(s.launches[l].deleteAfter)])
    case StopRequested(preserve, deleteAfter) =>
      var stop := Stop(preserve, deleteAfter, false);
      s.(cancel := Some(CancelRecord(deleteAfter)), stops := s.stops + [stop], lastStop := Some(stop), dockerFailed := false)
    case StopDocker(i, ok) =>
      var after := if s.stops[i].preserve then s else Removed(s, ok);
      after.(stops := s.stops[i := s.stops[i].(done := true)])
    case StopFinished(i) =>
      s.(tracked := false, stops := Without(s.stops, i), messages := s.messages + [Stopped(s.stops[i].deleteAfter)])
  }

  /** A deploy is always possible. */
  function Deployed(s: State): State {
    Next(s, Deploy)
  }

  /** At most one launch, its exit teardown included, is outstanding when a deploy starts another. */
  predicate OneAtATime(s: State, ev: Event) {
    ev.Deploy? ==> s.launches == []
  }

  /** The state after the events, or nothing when a step was not possible. */
  function Play(s: State, evs: seq<Event>): Option<State>
    decreases |evs|
  {
    if evs == [] then Some(s)
    else if Enabled(s, evs[0]) then Play(Next(s, evs[0]), evs[1..])
    else None
  }

  /** Every step is possible and no deploy starts a launch beside another. */
  predicate Disciplined(s: State, evs: seq<Event>)
    decreases |evs|
  {
    evs == [] || (Enabled(s, evs[0]) && OneAtATime(s, evs[0]) && Disciplined(Next(s, evs[0]), evs[1..]))
  }

  /** Where a disciplined run ends. */
  function End(s: State, evs: seq<Event>): State
    requires Disciplined(s, evs)
    decreases |evs|
  {
    if evs == [] then s else End(Next(s, evs[0]), evs[1..])
  }

  predicate Quiet(s: State) {
    s.launches == [] && s.stops == []
  }

  /** The last command was a stop that does not keep the container. */
  predicate StopWasLast(s: State) {
    s.lastStop.Some? && !s.lastStop.value.preserve
  }

  predicate RemovalPending(s: State) {
    exists i :: 0 <= i < |s.stops| && !s.stops[i].preserve && !s.stops[i].done
  }

  /** While the launch has not reached its exit callback, the cancel waits for it; afterwards a
      container can only exist while some removal is still to come. */
  predicate Inv(s: State) {
    && |s.launches| <= 1
    && (s.lastStop.Some? && s.launches != [] && !s.launches[0].TearingDown? ==>
          s.cancel == Some(CancelRecord(s.lastStop.value.deleteAfter)))
    && (s.lastStop.Some? && s.launches == [] && s.tracked ==> s.stops != [])
    && (StopWasLast(s) && !s.dockerFailed && s.container ==>
          || RemovalPending(s)
          || (s.launches != [] && (s.launches[0].TearingDown? ==> !s.launches[0].removed)))
  }

  lemma PendingSurvives(s: State, i: nat)
    requires i < |s.stops| && s.stops[i].done && RemovalPending(s)
    ensures exists j :: 0 <= j < |s.stops| - 1 && !Without(s.stops, i)[j].preserve && !Without(s.stops, i)[j].done
  {
    var k :| 0 <= k < |s.stops| && !s.stops[k].preserve && !s.stops[k].done;
    var j := if k < i then k else k - 1;
    assert Without(s.stops, i)[j] == s.stops[k];
  }

  lemma PendingUnlessDone(s: State, i: nat, ok: bool)
    requires Enabled(s, StopDocker(i, ok)) && RemovalPending(s)
    ensures RemovalPending(Next(s, StopDocker(i, ok))) || !s.stops[i].preserve
  {
    var k :| 0 <= k < |s.stops| && !s.stops[k].preserve && !s.stops[k].done;
    if k != i { assert Next(s, StopDocker(i, ok)).stops[k] == s.stops[k]; }
  }

  lemma StopStepKeepsInv(s: State, ev: Event)
    requires Inv(s) && Enabled(s, ev) && (ev.StopRequested? || ev.StopDocker? || ev.StopFinished?)
    ensures Inv(Next(s, ev))
  {
    match ev
    case StopRequested(preserve, deleteAfter) =>
      var t := Next(s, ev);
      if !preserve { assert t.stops[|s.stops|] == Stop(false, deleteAfter, false); }
    case StopDocker(i, ok) =>
      if RemovalPending(s) { PendingUnlessDone(s, i, ok); }
    case StopFinished(i) =>
      if RemovalPending(s) { PendingSurvives(s, i); }
  }

  /** With one launch outstanding, replacing or dropping it leaves one or none. */
  lemma OnlyLaunch(s: State, l: nat, to: Launch)
    requires |s.launches| <= 1 && l < |s.launches|
    ensures l == 0 && s.launches == [s.launches[0]]
    ensures s.launches[l := to] == [to] && Without(s.launches, l) == []
  {}

  lemma ExitKeepsInv(s: State, l: nat, code: Option<int>)
    requires Inv(s) && l < |s.launches| && !s.launches[l].TearingDown?
    ensures Inv(Exited(s, l, code))
  {
    var t := Exited(s, l, code);
    SameStops(s, t);
    OnlyLaunch(s, l, TearingDown(if s.cancel.Some? then s.cancel.value.deleteAfter else false, false));
    hide RemovalPending, Without;
  }

  lemma LaunchStepKeepsInv(s: State, ev: Event)
    requires Inv(s) && Enabled(s, ev) && OneAtATime(s, ev) && !ev.StopRequested? && !ev.StopDocker? && !ev.StopFinished?
    ensures Inv(Next(s, ev))
  {
    var t := Next(s, ev);
    if ev.LaunchAborted? {
      ExitKeepsInv(s, ev.l, Some(1));
    } else if ev.RunExited? {
      ExitKeepsInv(s, ev.l, ev.code);
    } else {
      SameStops(s, t);
      if !ev.Deploy? && !ev.DeployRefused? {
        OnlyLaunch(s, ev.l, if ev.TeardownFinished? then Inspecting else t.launches[ev.l]);
      }
      hide RemovalPending, Without;
    }
  }

  lemma SameStops(s: State, t: State)
    requires s.stops == t.stops
    ensures RemovalPending(s) == RemovalPending(t)
  {}

  /** Every disciplined step keeps the invariant. */
  lemma StepKeepsInv(s: State, ev: Event)
    requires Inv(s) && Enabled(s, ev) && OneAtATime(s, ev)
    ensures Inv(Next(s, ev))
  {
    hide Inv, Next;
    if ev.StopRequested? || ev.StopDocker? || ev.StopFinished? {
      StopStepKeepsInv(s, ev);
    } else {
      LaunchStepKeepsInv(s, ev);
    }
  }

  lemma NoSteps(s: State)
    ensures Play(s, []) == Some(s) && Disciplined(s, []) && End(s, []) == s
  {}

  /** One unfolding of a run. */
  lemma FirstStep(s: State, evs: seq<Event>)
    requires evs != []
    ensures Disciplined(s, evs) <==>
              Enabled(s, evs[0]) && OneAtATime(s, evs[0]) && Disciplined(Next(s, evs[0]), evs[1..])
    ensures Disciplined(s, evs) ==> End(s, evs) == End(Next(s, evs[0]), evs[1..])
    ensures Enabled(s, evs[0]) ==> Play(s, evs) == Play(Next(s, evs[0]), evs[1..])
  {
    hide Enabled, Next, OneAtATime;
  }

  lemma {:induction false} RunKeepsInv(s: State, evs: seq<Event>)
    requires Inv(s) && Disciplined(s, evs)
    ensures Inv(End(s, evs))
    decreases |evs|
  {
    hide *;
    if evs == [] {
      NoSteps(s);
    } else {
      FirstStep(s, evs);
      StepKeepsInv(s, evs[0]);
      RunKeepsInv(Next(s, evs[0]), evs[1..]);
    }
  }

  lemma InitialInv()
    ensures Inv(INITIAL)
  {}

  /** A container that a finished stop was meant to remove and that nothing points at. */
  predicate Orphaned(s: State) {
    Quiet(s) && StopWasLast(s) && !s.dockerFailed && s.container
  }

  lemma InvHasNoOrphan(s: State)
    requires Inv(s) && Quiet(s) && StopWasLast(s)
    ensures !s.tracked && !Orphaned(s)
  {}

  /** Over every interleaving with at most one launch outstanding: if a stop that does not keep the
      container was the last command, then once everything has finished nothing is tracked, and no
      container exists unless a docker rm failed since. */
  lemma StopLeavesNothing(evs: seq<Event>)
    requires Disciplined(INITIAL, evs) && Quiet(End(INITIAL, evs)) && StopWasLast(End(INITIAL, evs))
    ensures var s := End(INITIAL, evs); !s.tracked && (s.container ==> s.dockerFailed)
  {
    hide Inv, Disciplined, End;
    InitialInv();
    RunKeepsInv(INITIAL, evs);
    InvHasNoOrphan(End(INITIAL, evs));
  }

  predicate NoCommands(evs: seq<Event>) {
    forall i :: 0 <= i < |evs| ==> !IsDeploy(evs[i]) && !evs[i].StopRequested?
  }

  /** A docker rm that fails: of a stale container, in a teardown, or for a stop that is to remove. */
  predicate RemovalFails(s: State, ev: Event) {
    match ev
    case StaleRemoved(_, ok) => !ok
    case TeardownRemoved(_, ok) => !ok
    case StopDocker(i, ok) => !ok && i < |s.stops| && !s.stops[i].preserve
    case _ => false
  }

  predicate SomeRemovalFails(s: State, evs: seq<Event>)
    requires Disciplined(s, evs)
    decreases |evs|
  {
    evs != [] && (RemovalFails(s, evs[0]) || SomeRemovalFails(Next(s, evs[0]), evs[1..]))
  }

  lemma StepRemembers(s: State, ev: Event)
    requires Enabled(s, ev) && !IsDeploy(ev) && !ev.StopRequested?
    ensures Next(s, ev).lastStop == s.lastStop
    ensures Next(s, ev).dockerFailed <==> s.dockerFailed || RemovalFails(s, ev)
  {}

  /** What is remembered of the past is the last command and whether a docker rm has failed since. */
  lemma {:induction false} RunRemembers(s: State, evs: seq<Event>)
    requires Disciplined(s, evs) && NoCommands(evs)
    ensures End(s, evs).lastStop == s.lastStop
    ensures End(s, evs).dockerFailed <==> s.dockerFailed || SomeRemovalFails(s, evs)
    decreases |evs|
  {
    hide Next, Enabled, OneAtATime, IsDeploy, RemovalFails;
    if evs != [] {
      FirstStep(s, evs);
      assert !IsDeploy(evs[0]) && !evs[0].StopRequested?;
      StepRemembers(s, evs[0]);
      RunRemembers(Next(s, evs[0]), evs[1..]);
    }
  }

  /** The same on the events alone: whatever came before a stop that does not keep the container, and
      whatever happens after it short of another command, once everything has finished nothing is
      tracked and no container exists, unless a docker rm failed after the stop. */
  lemma StoppedRunLeavesNothing(before: seq<Event>, deleteAfter: bool, after: seq<Event>)
    requires Disciplined(INITIAL, before) && NoCommands(after)
    requires Disciplined(Next(End(INITIAL, before), StopRequested(false, deleteAfter)), after)
    requires Quiet(End(Next(End(INITIAL, before), StopRequested(false, deleteAfter)), after))
    ensures var s := Next(End(INITIAL, before), StopRequested(false, deleteAfter));
            var t := End(s, after);
            !t.tracked && (t.container ==> SomeRemovalFails(s, after))
  {
    hide Inv, Disciplined, End, SomeRemovalFails, NoCommands, Quiet;
    InitialInv();
    RunKeepsInv(INITIAL, before);
    var s := Next(End(INITIAL, before), StopRequested(false, deleteAfter));
    StepKeepsInv(End(INITIAL, before), StopRequested(false, deleteAfter));
    RunKeepsInv(s, after);
    RunRemembers(s, after);
    InvHasNoOrphan(End(s, after));
  }

  /** A launch that a stop raced never reports failed: at its exit, whatever the code, it goes into
      teardown carrying the latest deleteAfter, and its only message is the stopped that ends it. */
  lemma RacedExitStops(s: State, exit: Event)
    requires Inv(s) && s.lastStop.Some? && (exit.RunExited? || exit.LaunchAborted?) && Enabled(s, exit)
    ensures Next(s, exit) == s.(launches := [TearingDown(s.lastStop.value.deleteAfter, false)])
  {
    hide RemovalPending;
    assert s.launches[0 := TearingDown(s.lastStop.value.deleteAfter, false)] == [TearingDown(s.lastStop.value.deleteAfter, false)];
  }

  /** So it is at the end of every disciplined run in which a stop was the last command. */
  lemma RacedLaunchStops(evs: seq<Event>, exit: Event)
    requires Disciplined(INITIAL, evs)
    ensures var s := End(INITIAL, evs);
            s.lastStop.Some? && (exit.RunExited? || exit.LaunchAborted?) && Enabled(s, exit) ==>
              Next(s, exit) == s.(launches := [TearingDown(s.lastStop.value.deleteAfter, false)])
  {
    hide Inv, Next, Disciplined, End;
    InitialInv();
    RunKeepsInv(INITIAL, evs);
    var s := End(INITIAL, evs);
    if s.lastStop.Some? && (exit.RunExited? || exit.LaunchAborted?) && Enabled(s, exit) {
      RacedExitStops(s, exit);
    }
  }

  /** The exit of a launch whose id was not cancelled: a docker run that exited with zero is silent and
      leaves the container and the record as they are, and any other exit, or an abort, reports one
      failure. */
  lemma UncancelledExit(s: State, exit: Event)
    requires (exit.RunExited? || exit.LaunchAborted?) && Enabled(s, exit) && s.cancel == None
    ensures exit.RunExited? && exit.code == Some(0) ==> Next(s, exit) == s.(launches := Without(s.launches, exit.l))
    ensures exit.LaunchAborted? || exit.code != Some(0) ==>
              Next(s, exit) == s.(launches := Without(s.launches, exit.l), messages := s.messages + [Failed])
  {}

  /** A refused deploy is possible at any time: it reports one failure, forgets a pending cancel, and
      touches nothing else. */
  lemma RefusedDeployReports(s: State)
    ensures Enabled(s, DeployRefused)
    ensures var t := Next(s, DeployRefused);
            && t.messages == s.messages + [Failed] && t.cancel == None
            && t.launches == s.launches && t.stops == s.stops
            && t.container == s.container && t.tracked == s.tracked
  {}

  // ----- messages -----

  predicate IsDeploy(ev: Event) {
    ev.Deploy? || ev.DeployRefused?
  }

  predicate NoDeploys(evs: seq<Event>) {
    forall i :: 0 <= i < |evs| ==> !IsDeploy(evs[i])
  }

  /** A stop was the last command, and a launch that has not reached its exit has its cancel waiting. */
  predicate StopHeld(s: State) {
    Inv(s) && s.lastStop.Some?
  }

  predicate OnlyStopped(messages: seq<Message>) {
    forall i :: 0 <= i < |messages| ==> messages[i].Stopped?
  }

  lemma StepAddsNoFailure(s: State, ev: Event)
    requires StopHeld(s) && Enabled(s, ev) && !IsDeploy(ev)
    ensures Next(s, ev).lastStop.Some?
    ensures Next(s, ev).messages == s.messages
         || exists d :: Next(s, ev).messages == s.messages + [Stopped(d)]
  {
    hide RemovalPending, Without;
  }

  lemma StepHoldsStop(s: State, ev: Event)
    requires StopHeld(s) && Enabled(s, ev) && !IsDeploy(ev)
    ensures StopHeld(Next(s, ev))
    ensures |s.messages| <= |Next(s, ev).messages| && s.messages == Next(s, ev).messages[..|s.messages|]
    ensures OnlyStopped(Next(s, ev).messages[|s.messages|..])
  {
    StepAddsNoFailure(s, ev);
    hide Inv, Next, Enabled;
    StepKeepsInv(s, ev);
  }

  /** From a stop to the next deploy nothing ever reports failed. */
  lemma {:induction false} NoFailureAfterStop(s: State, evs: seq<Event>)
    requires StopHeld(s) && Disciplined(s, evs) && NoDeploys(evs)
    ensures var t := End(s, evs);
            && StopHeld(t)
            && |s.messages| <= |t.messages| && s.messages == t.messages[..|s.messages|]
            && OnlyStopped(t.messages[|s.messages|..])
    decreases |evs|
  {
    hide Inv, Next, Enabled, StopHeld, Disciplined, End, OneAtATime, IsDeploy;
    if evs == [] {
      NoSteps(s);
    } else {
      FirstStep(s, evs);
      assert !IsDeploy(evs[0]);
      StepHoldsStop(s, evs[0]);
      var u := Next(s, evs[0]);
      NoFailureAfterStop(u, evs[1..]);
      JoinStopped(s.messages, u.messages, End(s, evs).messages);
    }
  }

  /** So over all runs: once a stop was the last command, no failure is reported before the next deploy. */
  lemma StopSilencesFailures(evs: seq<Event>, more: seq<Event>)
    requires Disciplined(INITIAL, evs) && End(INITIAL, evs).lastStop.Some?
    requires Disciplined(End(INITIAL, evs), more) && NoDeploys(more)
    ensures var s := End(INITIAL, evs);
            var t := End(s, more);
            && |s.messages| <= |t.messages| && s.messages == t.messages[..|s.messages|]
            && forall i :: |s.messages| <= i < |t.messages| ==> t.messages[i].Stopped?
  {
    hide Inv, Disciplined, End;
    InitialInv();
    RunKeepsInv(INITIAL, evs);
    NoFailureAfterStop(End(INITIAL, evs), more);
    var s := End(INITIAL, evs);
    var t := End(s, more);
    forall i | |s.messages| <= i < |t.messages| ensures t.messages[i].Stopped? {
      assert t.messages[|s.messages|..][i - |s.messages|] == t.messages[i];
    }
  }

  lemma JoinStopped(a: seq<Message>, b: seq<Message>, c: seq<Message>)
    requires |a| <= |b| <= |c| && a == b[..|a|] && b == c[..|b|]
    requires OnlyStopped(b[|a|..]) && OnlyStopped(c[|b|..])
    ensures a == c[..|a|] && OnlyStopped(c[|a|..])
  {
    forall i | 0 <= i < |c[|a|..]| ensures c[|a|..][i].Stopped? {
      if |a| + i < |b| {
        assert c[|a|..][i] == b[|a|..][i];
      } else {
        assert c[|a|..][i] == c[|b|..][|a| + i - |b|];
      }
    }
  }

  /** The flag of the last stop among the events, `d` when there is none. */
  function LastFlag(evs: seq<Event>, d: bool): bool
    decreases |evs|
  {
    if evs == [] then d
    else LastFlag(evs[1..], if evs[0].StopRequested? then evs[0].deleteAfter else d)
  }

  /** The launch is in the teardown it entered with flag `captured`. */
  predicate TearsDown(s: State, captured: bool) {
    s.launches == [TearingDown(captured, false)] || s.launches == [TearingDown(captured, true)]
  }

  lemma TeardownStep(s: State, ev: Event, captured: bool)
    requires TearsDown(s, captured) && s.lastStop.Some? && Enabled(s, ev) && !IsDeploy(ev) && !ev.TeardownFinished?
    ensures TearsDown(Next(s, ev), captured) && Next(s, ev).lastStop.Some?
    ensures Next(s, ev).lastStop.value.deleteAfter
         == if ev.StopRequested? then ev.deleteAfter else s.lastStop.value.deleteAfter
  {
    hide Without;
  }

  predicate StillTearing(evs: seq<Event>) {
    forall i :: 0 <= i < |evs| ==> !IsDeploy(evs[i]) && !evs[i].TeardownFinished?
  }

  lemma {:induction false} TeardownKeepsFlag(s: State, evs: seq<Event>, captured: bool)
    requires TearsDown(s, captured) && s.lastStop.Some? && Disciplined(s, evs) && StillTearing(evs)
    ensures var t := End(s, evs);
            && TearsDown(t, captured)
            && t.lastStop.Some? && t.lastStop.value.deleteAfter == LastFlag(evs, s.lastStop.value.deleteAfter)
    decreases |evs|
  {
    hide Next, Enabled, TearsDown, Disciplined, End, OneAtATime, IsDeploy;
    if evs == [] {
      NoSteps(s);
    } else {
      FirstStep(s, evs);
      assert !IsDeploy(evs[0]) && !evs[0].TeardownFinished?;
      TeardownStep(s, evs[0], captured);
      TeardownKeepsFlag(Next(s, evs[0]), evs[1..], captured);
    }
  }

  /** What a raced launch sends from its exit to the end of its teardown. */
  predicate SendsCapturedFlag(s: State, exit: Event, evs: seq<Event>)
    requires s.lastStop.Some? && (exit.RunExited? || exit.LaunchAborted?) && Enabled(s, exit) && Disciplined(Next(s, exit), evs)
    requires Enabled(End(Next(s, exit), evs), TeardownFinished(0))
  {
    var captured := s.lastStop.value.deleteAfter;
    var t := End(Next(s, exit), evs);
    var done := Next(t, TeardownFinished(0));
    && Next(s, exit).messages == s.messages
    && done.messages == t.messages + [Stopped(captured)]
    && done.launches == [] && !done.tracked && done.cancel == None
    && done.lastStop.Some?
    && (captured == done.lastStop.value.deleteAfter <==> LastFlag(evs, captured) == captured)
  }

  lemma TeardownSendsCapturedFlag(s: State, exit: Event, evs: seq<Event>)
    requires StopHeld(s) && (exit.RunExited? || exit.LaunchAborted?) && Enabled(s, exit)
    requires Disciplined(Next(s, exit), evs) && StillTearing(evs)
    requires Enabled(End(Next(s, exit), evs), TeardownFinished(0))
    ensures SendsCapturedFlag(s, exit, evs)
  {
    hide Inv, Disciplined, End, Enabled, Without, LastFlag, StillTearing;
    RacedExitStops(s, exit);
    var captured := s.lastStop.value.deleteAfter;
    TeardownKeepsFlag(Next(s, exit), evs, captured);
    TeardownEnds(End(Next(s, exit), evs), captured);
  }

  /** Over every run, whatever happens between a raced launch's exit and the end of its teardown: its
      one message is a stopped, with the flag of the last stop before the exit.  That is the flag of
      the last stop of all exactly when the stops that arrive during the teardown end on the same flag. */
  lemma LaunchStoppedFlagIff(evs: seq<Event>, exit: Event, more: seq<Event>)
    requires Disciplined(INITIAL, evs)
    requires End(INITIAL, evs).lastStop.Some? && (exit.RunExited? || exit.LaunchAborted?) && Enabled(End(INITIAL, evs), exit)
    requires Disciplined(Next(End(INITIAL, evs), exit), more) && StillTearing(more)
    requires Enabled(End(Next(End(INITIAL, evs), exit), more), TeardownFinished(0))
    ensures var s := End(INITIAL, evs);
            var captured := s.lastStop.value.deleteAfter;
            var t := End(Next(s, exit), more);
            var done := Next(t, TeardownFinished(0));
            && Next(s, exit).messages == s.messages
            && done.messages == t.messages + [Stopped(captured)]
            && done.launches == [] && !done.tracked && done.cancel == None
            && done.lastStop.Some?
            && (captured == done.lastStop.value.deleteAfter <==> LastFlag(more, captured) == captured)
  {
    hide Inv, Disciplined, End, Enabled, Next, StillTearing, LastFlag;
    InitialInv();
    RunKeepsInv(INITIAL, evs);
    TeardownSendsCapturedFlag(End(INITIAL, evs), exit, more);
  }

  /** docker rm in the teardown: the container is gone unless it failed, and the end is then possible. */
  lemma TeardownRemoves(s: State, captured: bool, ok: bool)
    requires s.launches == [TearingDown(captured, false)]
    ensures var t := Next(s, TeardownRemoved(0, ok));
            && t.launches == [TearingDown(captured, true)] && Enabled(t, TeardownFinished(0))
            && (t.container <==> s.container && !ok) && (ok || t.dockerFailed)
  {}

  lemma TeardownEnds(s: State, captured: bool)
    requires TearsDown(s, captured) && Enabled(s, TeardownFinished(0))
    ensures Next(s, TeardownFinished(0))
         == s.(tracked := false, cancel := None, launches := [], messages := s.messages + [Stopped(captured)])
  {}

  // ----- playing runs -----

  lemma {:induction false} PlayAppend(s: State, evs: seq<Event>, more: seq<Event>)
    requires Play(s, evs).Some?
    ensures Play(s, evs + more) == Play(Play(s, evs).value, more)
    decreases |evs|
  {
    hide Next, Enabled;
    if evs == [] {
      assert evs + more == more;
    } else {
      assert (evs + more)[0] == evs[0] && (evs + more)[1..] == evs[1..] + more;
      PlayAppend(Next(s, evs[0]), evs[1..], more);
    }
  }

  /** One more step at the end of a run without deploys. */
  lemma Then(s: State, evs: seq<Event>, t: State, e: Event) returns (longer: seq<Event>, u: State)
    requires Play(s, evs) == Some(t) && NoDeploys(evs) && Enabled(t, e) && !IsDeploy(e)
    ensures Play(s, longer) == Some(u) && NoDeploys(longer) && u == Next(t, e)
  {
    hide Next, Enabled, IsDeploy;
    longer, u := evs + [e], Next(t, e);
    PlayAppend(s, evs, [e]);
    assert [e][1..] == [];
  }

  lemma {:induction false} PlayedIsDisciplined(s: State, evs: seq<Event>)
    requires Play(s, evs).Some? && NoDeploys(evs)
    ensures Disciplined(s, evs) && End(s, evs) == Play(s, evs).value
    decreases |evs|
  {
    hide Next, Enabled;
    if evs != [] {
      assert !IsDeploy(evs[0]);
      PlayedIsDisciplined(Next(s, evs[0]), evs[1..]);
    }
  }

  /** A launch is aborted after one stop, and another stop arrives during its teardown. */
  lemma StopDuringTeardown() returns (evs: seq<Event>, s: State)
    ensures Play(Deployed(INITIAL), evs) == Some(s) && NoDeploys(evs)
    ensures s.launches == [TearingDown(false, false)] && s.lastStop == Some(Stop(false, true, false))
  {
    var start := Deployed(INITIAL);
    NoSteps(start);
    NothingDeploys();
    hide Play, NoDeploys;
    evs, s := [], start;
    assert s.launches == [Inspecting];
    evs, s := Then(start, evs, s, StopRequested(false, false));
    evs, s := Then(start, evs, s, LaunchAborted(0));
    assert s.launches == [TearingDown(false, false)];
    evs, s := Then(start, evs, s, StopRequested(false, true));
  }

  /** The condition on the flags can fail: a stop that asks for deletion arrives while the teardown of
      an earlier stop is still removing the container. */
  lemma StaleFlagIsSent() returns (evs: seq<Event>)
    ensures Disciplined(Deployed(INITIAL), evs) && NoDeploys(evs)
    ensures var s := End(Deployed(INITIAL), evs);
            && Quiet(s) && s.lastStop == Some(Stop(false, true, false))
            && s.messages != [] && s.messages[|s.messages| - 1] == Stopped(false)
  {
    var start := Deployed(INITIAL);
    hide Play, Disciplined, End, NoDeploys, Deployed;
    var s;
    evs, s := StopDuringTeardown();
    evs, s := DrainStops(start, evs, s);
    evs, s := Then(start, evs, s, TeardownRemoved(0, true));
    assert s.launches == [TearingDown(false, true)];
    evs, s := Then(start, evs, s, TeardownFinished(0));
    PlayedIsDisciplined(start, evs);
  }

  lemma NothingDeploys()
    ensures NoDeploys([])
  {}

  // ----- the condition is exact -----

  /** What draining the stops leaves alone. */
  predicate SameButStops(s: State, t: State) {
    t.launches == s.launches && t.cancel == s.cancel && t.lastStop == s.lastStop && t.dockerFailed == s.dockerFailed
    && (!s.container ==> !t.container)
  }

  lemma FinishFirstStop(s: State, evs: seq<Event>, t: State) returns (longer: seq<Event>, u: State)
    requires Play(s, evs) == Some(t) && NoDeploys(evs) && t.stops != []
    ensures Play(s, longer) == Some(u) && NoDeploys(longer)
    ensures u.stops == t.stops[1..] && SameButStops(t, u)
    ensures |u.messages| > |t.messages|
  {
    hide Play, NoDeploys;
    longer, u := evs, t;
    if !t.stops[0].done {
      longer, u := Then(s, longer, u, StopDocker(0, true));
    }
    longer, u := Then(s, longer, u, StopFinished(0));
  }

  /** All open stops run to their end, with docker answering. */
  lemma {:induction false} DrainStops(s: State, evs: seq<Event>, t: State) returns (longer: seq<Event>, u: State)
    requires Play(s, evs) == Some(t) && NoDeploys(evs)
    ensures Play(s, longer) == Some(u) && NoDeploys(longer)
    ensures u.stops == [] && SameButStops(t, u)
    decreases |t.stops|
  {
    hide Play, NoDeploys;
    longer, u := evs, t;
    if t.stops != [] {
      longer, u := FinishFirstStop(s, evs, t);
      longer, u := DrainStops(s, longer, u);
    }
  }

  /** The new launch gets as far as docker run beside the old one. */
  lemma SecondLaunchStarts(s: State) returns (evs: seq<Event>, t: State)
    requires |s.launches| == 1
    ensures Play(Deployed(s), evs) == Some(t) && NoDeploys(evs)
    ensures t.launches == [s.launches[0], Starting(false)]
  {
    var start := Deployed(s);
    NoSteps(start);
    NothingDeploys();
    hide Play, NoDeploys;
    evs, t := [], start;
    assert t.launches == [s.launches[0], Inspecting];
    evs, t := Then(start, evs, t, ImageFound(1));
    assert t.launches == [s.launches[0], RemovingStale];
    evs, t := Then(start, evs, t, StaleRemoved(1, true));
    assert t.launches == [s.launches[0], DroppingCaches];
    evs, t := Then(start, evs, t, CachesDropped(1));
  }

  /** A stop arrives, removes whatever there is, and finishes with all the others. */
  lemma StopRuns(s: State, evs: seq<Event>, t: State) returns (longer: seq<Event>, u: State)
    requires Play(s, evs) == Some(t) && NoDeploys(evs)
    ensures Play(s, longer) == Some(u) && NoDeploys(longer)
    ensures u.launches == t.launches && u.stops == [] && u.cancel == Some(CancelRecord(false))
    ensures StopWasLast(u) && !u.dockerFailed && !u.container
  {
    hide Play, NoDeploys;
    longer, u := Then(s, evs, t, StopRequested(false, false));
    longer, u := Then(s, longer, u, StopDocker(|t.stops|, true));
    longer, u := DrainStops(s, longer, u);
  }

  /** Still stopped, with nothing up: what the rest of the old launch keeps. */
  predicate Cleared(s: State) {
    s.stops == [] && s.cancel.Some? && StopWasLast(s) && !s.dockerFailed && !s.container
  }

  /** The old launch reaches its exit, fails there and meets the cancel. */
  lemma OldLaunchExits(s: State, evs: seq<Event>, t: State) returns (longer: seq<Event>, u: State)
    requires Play(s, evs) == Some(t) && NoDeploys(evs) && Cleared(t) && |t.launches| == 2
    ensures Play(s, longer) == Some(u) && NoDeploys(longer) && Cleared(u)
    ensures |u.launches| == 2 && u.launches[0].TearingDown? && u.launches[1] == t.launches[1]
  {
    hide Play, NoDeploys;
    longer, u := evs, t;
    if u.launches[0].Inspecting? {
      longer, u := Then(s, longer, u, LaunchAborted(0));
    }
    if u.launches[0].RemovingStale? {
      longer, u := Then(s, longer, u, StaleRemoved(0, true));
    }
    if u.launches[0].DroppingCaches? {
      longer, u := Then(s, longer, u, CachesDropped(0));
    }
    if u.launches[0].Starting? {
      longer, u := Then(s, longer, u, RunExited(0, Some(1)));
    }
  }

  /** Its teardown drops the cancel that was meant for the new launch. */
  lemma OldLaunchFinishes(s: State, evs: seq<Event>, t: State) returns (longer: seq<Event>, u: State)
    requires Play(s, evs) == Some(t) && NoDeploys(evs) && Cleared(t)
    requires |t.launches| == 2 && t.launches[0].TearingDown?
    ensures Play(s, longer) == Some(u) && NoDeploys(longer)
    ensures u.launches == [t.launches[1]] && u.cancel == None
    ensures u.stops == [] && StopWasLast(u) && !u.dockerFailed && !u.container
  {
    hide Play, NoDeploys;
    longer, u := evs, t;
    if !u.launches[0].removed {
      longer, u := Then(s, longer, u, TeardownRemoved(0, true));
    }
    longer, u := Then(s, longer, u, TeardownFinished(0));
  }

  /** A deploy beside an outstanding launch, whatever stage that launch is in and whatever else is
      going on, can end with an orphan. */
  lemma DeployBesideLaunchOrphans(s: State) returns (evs: seq<Event>)
    requires |s.launches| == 1
    ensures Disciplined(Deployed(s), evs) && Orphaned(End(Deployed(s), evs))
  {
    var start := Deployed(s);
    var t;
    evs, t := SecondLaunchStarts(s);
    hide Play, NoDeploys, Disciplined, End;
    evs, t := StopRuns(start, evs, t);
    evs, t := OldLaunchExits(start, evs, t);
    evs, t := OldLaunchFinishes(start, evs, t);
    evs, t := Then(start, evs, t, ContainerCreated(0));
    evs, t := Then(start, evs, t, RunExited(0, Some(0)));
    PlayedIsDisciplined(start, evs);
  }

  predicate CannotOrphan(s: State, evs: seq<Event>) {
    Disciplined(s, evs) ==> !Orphaned(End(s, evs))
  }

  /** After any disciplined run, a deploy leaves every disciplined continuation without an orphan
      exactly when no launch is outstanding. */
  lemma DeployIsSafeIff(evs: seq<Event>)
    requires Disciplined(INITIAL, evs)
    ensures var s := End(INITIAL, evs);
            (forall more :: CannotOrphan(Deployed(s), more)) <==> s.launches == []
  {
    hide Deployed, Disciplined, End;
    InitialInv();
    RunKeepsInv(INITIAL, evs);
    var s := End(INITIAL, evs);
    if s.launches == [] {
      DeployKeepsInv(s);
      forall more ensures CannotOrphan(Deployed(s), more) {
        if Disciplined(Deployed(s), more) {
          RunKeepsInv(Deployed(s), more);
        }
      }
    } else {
      var more := DeployBesideLaunchOrphans(s);
      assert !CannotOrphan(Deployed(s), more);
    }
  }

  lemma DeployKeepsInv(s: State)
    requires Inv(s) && s.launches == []
    ensures Inv(Deployed(s))
  {
    StepKeepsInv(s, Deploy);
  }

  /** The shortest such history: two deploys in a row. */
  lemma OverlappingLaunchOrphans() returns (evs: seq<Event>)
    ensures Disciplined(Deployed(Deployed(INITIAL)), evs)
    ensures Orphaned(End(Deployed(Deployed(INITIAL)), evs))
  {
    assert Deployed(INITIAL).launches == [Inspecting];
    evs := DeployBesideLaunchOrphans(Deployed(INITIAL));
  }

  // ----- the machine and the registry -----

  function OpsOf(ev: Event, id: string): seq<Op> {
    match ev
    case Deploy => [Begin(id)]
    case DeployRefused => [Begin(id)]
    case StopRequested(_, deleteAfter) => [Cancel(id, deleteAfter)]
    case TeardownFinished(_) => [Forget(id)]
    case _ => []
  }

  /** The machine's cancel is what the registry answers for its id. */
  predicate MirrorsRegistry(s: State, cancels: map<string, CancelRecord>, id: string) {
    s.cancel == if id in cancels then Some(cancels[id]) else None
  }

  lemma StepCancel(s: State, ev: Event)
    requires Enabled(s, ev)
    ensures Next(s, ev).cancel ==
            if ev.StopRequested? then Some(CancelRecord(ev.deleteAfter))
            else if IsDeploy(ev) || ev.TeardownFinished? then None
            else s.cancel
  {}

  lemma ReplaySnoc(ops: seq<Op>, op: Op)
    ensures Replay(ops + [op]) == ApplyOp(Replay(ops), op)
  {
    assert (ops + [op])[..|ops|] == ops;
  }

  lemma StepMirrorsRegistry(s: State, ev: Event, ops: seq<Op>, id: string)
    requires Enabled(s, ev) && MirrorsRegistry(s, Replay(ops), id)
    ensures MirrorsRegistry(Next(s, ev), Replay(ops + OpsOf(ev, id)), id)
  {
    hide Next, Enabled, Replay;
    StepCancel(s, ev);
    if ev.StopRequested? {
      ReplaySnoc(ops, Cancel(id, ev.deleteAfter));
    } else if IsDeploy(ev) {
      ReplaySnoc(ops, Begin(id));
    } else if ev.TeardownFinished? {
      ReplaySnoc(ops, Forget(id));
    } else {
      assert ops + [] == ops;
    }
  }

  function AllOps(evs: seq<Event>, id: string): seq<Op> {
    if evs == [] then [] else OpsOf(evs[0], id) + AllOps(evs[1..], id)
  }

  lemma {:induction false} PlayMirrorsRegistry(s: State, evs: seq<Event>, ops: seq<Op>, id: string)
    requires Play(s, evs).Some? && MirrorsRegistry(s, Replay(ops), id)
    ensures MirrorsRegistry(Play(s, evs).value, Replay(ops + AllOps(evs, id)), id)
    decreases |evs|
  {
    hide Next, Enabled, OpsOf, Replay, MirrorsRegistry;
    if evs == [] {
      assert ops + [] == ops;
    } else {
      StepMirrorsRegistry(s, evs[0], ops, id);
      PlayMirrorsRegistry(Next(s, evs[0]), evs[1..], ops + OpsOf(evs[0], id), id);
      Regroup(ops, OpsOf(evs[0], id), AllOps(evs[1..], id));
    }
  }

  /** In every run, disciplined or not, the launch's exit sees what the registry would answer after the
      operations the handlers have made. */
  lemma RunMirrorsRegistry(evs: seq<Event>, id: string)
    requires Play(INITIAL, evs).Some?
    ensures var cancels := Replay(AllOps(evs, id));
            Play(INITIAL, evs).value.cancel == if id in cancels then Some(cancels[id]) else None
  {
    hide Play, AllOps;
    PlayMirrorsRegistry(INITIAL, evs, [], id);
    assert [] + AllOps(evs, id) == AllOps(evs, id);
  }

  /** So over all runs, disciplined or not: when the last operation on the id is no cancel, an exit with
      code zero adds no message, and any other exit adds exactly one failure. */
  lemma ExitWithoutCancel(evs: seq<Event>, exit: Event, id: string)
    requires Play(INITIAL, evs).Some? && (exit.RunExited? || exit.LaunchAborted?) && Enabled(Play(INITIAL, evs).value, exit)
    requires LastOn(AllOps(evs, id), id).None? || !LastOn(AllOps(evs, id), id).value.Cancel?
    ensures var s := Play(INITIAL, evs).value;
            var t := Next(s, exit);
            && t.container == s.container && t.tracked == s.tracked && t.stops == s.stops
            && |t.launches| == |s.launches| - 1
            && t.messages == if exit.RunExited? && exit.code == Some(0) then s.messages else s.messages + [Failed]
  {
    hide Play, AllOps, LastOn, Replay;
    RunMirrorsRegistry(evs, id);
    PendingIffLastWasCancel(AllOps(evs, id), id);
    UncancelledExit(Play(INITIAL, evs).value, exit);
  }

  // ----- an undisturbed deploy -----

  /** A launch under way without a stop: recorded from the removal of the stale container on, and with a
      container from its creation on. */
  predicate UnderWay(s: State, messages: seq<Message>) {
    && s.stops == [] && s.cancel == None
    && (s.launches != [] ==>
          && |s.launches| == 1 && !s.launches[0].TearingDown? && s.messages == messages
          && (s.launches[0].DroppingCaches? || s.launches[0].Starting? ==> s.tracked)
          && (s.launches[0].Starting? && s.launches[0].created ==> s.container))
    && (s.launches == [] ==>
          (s.messages == messages && s.container && s.tracked) || s.messages == messages + [Failed])
  }

  lemma UnderWayStep(s: State, ev: Event, messages: seq<Message>)
    requires UnderWay(s, messages) && Enabled(s, ev) && !IsDeploy(ev) && !ev.StopRequested?
    ensures UnderWay(Next(s, ev), messages)
  {}

  lemma {:induction false} UnderWayRun(s: State, evs: seq<Event>, messages: seq<Message>)
    requires UnderWay(s, messages) && Disciplined(s, evs) && NoCommands(evs)
    ensures UnderWay(End(s, evs), messages)
    decreases |evs|
  {
    hide Next, Enabled, UnderWay, Disciplined, End, OneAtATime, IsDeploy;
    if evs == [] {
      NoSteps(s);
    } else {
      FirstStep(s, evs);
      assert !IsDeploy(evs[0]) && !evs[0].StopRequested?;
      UnderWayStep(s, evs[0], messages);
      UnderWayRun(Next(s, evs[0]), evs[1..], messages);
    }
  }

  /** A deploy that nothing disturbs, over all the ways its steps can turn out: once the launch is done it
      has either been silent, and then its container is up and recorded, or reported exactly one failure. */
  lemma UndisturbedDeploy(s: State, evs: seq<Event>)
    requires Quiet(s) && Disciplined(Deployed(s), evs) && NoCommands(evs) && End(Deployed(s), evs).launches == []
    ensures var t := End(Deployed(s), evs);
            (t.messages == s.messages && t.container && t.tracked) || t.messages == s.messages + [Failed]
  {
    hide Disciplined, End, NoCommands;
    UnderWayRun(Deployed(s), evs, s.messages);
  }

  /** And silence is possible: every step goes well and docker run exits with zero. */
  lemma SuccessfulDeploy(s: State) returns (evs: seq<Event>)
    requires Quiet(s)
    ensures Disciplined(Deployed(s), evs) && NoDeploys(evs)
    ensures var t := End(Deployed(s), evs);
            Quiet(t) && t.container && t.tracked && t.cancel == None && t.messages == s.messages
  {
    var start := Deployed(s);
    NoSteps(start);
    NothingDeploys();
    hide Play, NoDeploys, Disciplined, End;
    var t;
    evs, t := [], start;
    assert t.launches == [Inspecting];
    evs, t := Then(start, evs, t, ImageFound(0));
    evs, t := Then(start, evs, t, StaleRemoved(0, true));
    evs, t := Then(start, evs, t, CachesDropped(0));
    evs, t := Then(start, evs, t, ContainerCreated(0));
    evs, t := Then(start, evs, t, RunExited(0, Some(0)));
    PlayedIsDisciplined(start, evs);
  }

  /** A stop is answered with its own flag, drops the record, and touches the container only when it is
      not to be kept and docker obeys. */
  lemma StopIsAnswered(s: State, preserve: bool, deleteAfter: bool, ok: bool)
    ensures var i := |s.stops|;
            var asked := Next(s, StopRequested(preserve, deleteAfter));
            Enabled(asked, StopDocker(i, ok)) &&
            var done := Next(asked, StopDocker(i, ok));
            Enabled(done, StopFinished(i)) &&
            var t := Next(done, StopFinished(i));
            && t.messages == s.messages + [Stopped(deleteAfter)] && t.stops == s.stops && !t.tracked
            && t.launches == s.launches && t.container == (s.container && (preserve || !ok))
            && t.cancel == Some(CancelRecord(deleteAfter))
  {}
}
