/** The agent's self-update as a file-system state machine: every shell command may fail, and a failed
    command changes nothing.  Directories are identified by number, so that "the original agent"
    keeps its identity through renames. */
module Updater {
  import opened Wrappers

  /** /opt/dgx-agent and its siblings -old, -new and -failed. */
  datatype Path = Current | Old | New | Stash

  datatype Command =
    | Remove(path: Path)
    | Move(source: Path, target: Path)
    | MakeNew
    | Other

  /** What stands at each path, and which directories were moved inside another one. */
  datatype Disk = Disk(dirs: map<Path, nat>, buried: set<nat>)

  predicate Possible(c: Command, d: Disk) {
    c.Move? ==> c.source in d.dirs
  }

  /** The effect of a command that succeeds.  mv into an existing directory buries the source in it. */
  function Apply(c: Command, d: Disk, fresh': nat): Disk {
    match c
    case Remove(p) => d.(dirs := d.dirs - {p})
    case Move(s, t) =>
      if s !in d.dirs then d
      else if t in d.dirs then Disk(d.dirs - {s}, d.buried + {d.dirs[s]})
      else d.(dirs := (d.dirs - {s})[t := d.dirs[s]])
    case MakeNew => d.(dirs := d.dirs[New := fresh'])
    case Other => d
  }

  /** A command under an outcome chosen from outside: it fails when told to, or when it cannot work. */
  function After(c: Command, fails: bool, d: Disk): Disk {
    if fails || !Possible(c, d) then d else Apply(c, d, 0)
  }

  predicate Succeeds(c: Command, fails: bool, d: Disk) {
    !fails && Possible(c, d)
  }

  // ----- swap and rollback, command by command -----

  datatype SwapEnd = Swapped | Untouched | Restored | RestoreFailed

  /** The disk, the way it ended and how many commands that took. */
  datatype Ended<E> = Ended(disk: Disk, end: E, used: nat)

  /** atomicSwap under the outcomes f[0..4] of its commands. */
  function Swap(d: Disk, f: seq<bool>): Ended<SwapEnd>
    requires |f| == 4
  {
    var d1 := After(Remove(Old), f[0], d);
    if f[0] then Ended(d1, Untouched, 1)
    else
      var moved := Succeeds(Move(Current, Old), f[1], d1);
      var d2 := After(Move(Current, Old), f[1], d1);
      if !moved then Ended(d2, Untouched, 2)
      else if Succeeds(Move(New, Current), f[2], d2) then Ended(After(Move(New, Current), f[2], d2), Swapped, 3)
      else
        Ended(After(Move(Old, Current), f[3], d2),
              if Succeeds(Move(Old, Current), f[3], d2) then Restored else RestoreFailed, 4)
  }

  /** atomicRollback under the outcomes of its commands; the last one is the restart. */
  function Rollback(d: Disk, f: seq<bool>): Ended<bool>
    requires |f| == 4
  {
    var d1 := After(Remove(Stash), f[0], d);
    if f[0] then Ended(d1, false, 1)
    else if !Succeeds(Move(Current, Stash), f[1], d1) then Ended(d1, false, 2)
    else
      var d2 := After(Move(Current, Stash), f[1], d1);
      if !Succeeds(Move(Old, Current), f[2], d2) then Ended(d2, false, 3)
      else Ended(After(Move(Old, Current), f[2], d2), !f[3], 4)
  }

  /** The original stands at exactly one of -agent and -agent-old, nowhere else, and is not buried. */
  predicate Safe(d: Disk, original: nat) {
    && (At(d, Current, original) <==> !At(d, Old, original))
    && !At(d, New, original) && !At(d, Stash, original)
    && original !in d.buried
  }

  predicate At(d: Disk, p: Path, id: nat) {
    p in d.dirs && d.dirs[p] == id
  }

  /** The directory is still there, at some path or inside another directory. */
  predicate Kept(d: Disk, id: nat) {
    id in d.buried || exists p: Path :: At(d, p, id)
  }

  /** No mv loses or makes a directory, wherever it goes. */
  lemma MoveLosesNothing(s: Path, t: Path, fails: bool, d: Disk, id: nat)
    requires s != t
    ensures Kept(After(Move(s, t), fails, d), id) <==> Kept(d, id)
  {
    var e := After(Move(s, t), fails, d);
    assert e != d ==> s in d.dirs && (At(e, t, d.dirs[s]) || d.dirs[s] in e.buried);
    assert forall p: Path :: p != s && At(d, p, id) ==> At(e, p, id);
    assert forall p: Path :: At(e, p, id) ==> At(d, p, id) || At(d, s, id);
  }

  /** Whatever fails during the swap, the original survives: installed unless the swap went through or
      both the install and the restore failed. */
  lemma SwapKeepsOriginal(d: Disk, f: seq<bool>, original: nat)
    requires |f| == 4 && At(d, Current, original) && Safe(d, original)
    ensures var r := Swap(d, f);
            && Safe(r.disk, original)
            && (At(r.disk, Current, original) <==> r.end.Untouched? || r.end.Restored?)
            && (r.end.Swapped? ==> New in d.dirs && At(r.disk, Current, d.dirs[New]) && At(r.disk, Old, original))
            && (r.end.RestoreFailed? <==> Current !in r.disk.dirs)
            && (r.end.RestoreFailed? ==> At(r.disk, Old, original))
            && (r.end.RestoreFailed? <==> !f[0] && !f[1] && (f[2] || New !in d.dirs) && f[3])
            && (r.end.Swapped? <==> r.used == 3) && (r.end.Untouched? <==> r.used <= 2) && r.used <= 4
            && (r.used == 4 ==> !f[0] && !f[1] && (f[2] || New !in d.dirs))
            && r.disk.buried == d.buried
  {}

  /** Whatever fails during the rollback, the original survives; it is reinstalled exactly when both
      moves went through, and the node is left without an agent exactly when only the second failed. */
  lemma RollbackKeepsOriginal(d: Disk, f: seq<bool>, original: nat)
    requires |f| == 4 && At(d, Old, original) && Safe(d, original) && Current in d.dirs
    ensures var r := Rollback(d, f);
            && Safe(r.disk, original)
            && (At(r.disk, Current, original) <==> !f[0] && !f[1] && !f[2])
            && (r.end <==> At(r.disk, Current, original) && !f[3])
            && (Current !in r.disk.dirs <==> !f[0] && !f[1] && f[2])
            && (At(r.disk, Current, original) ==> At(r.disk, Stash, d.dirs[Current]))
            && (Current !in r.disk.dirs ==> At(r.disk, Stash, d.dirs[Current]))
            && (f[0] || f[1] ==> At(r.disk, Old, original) && At(r.disk, Current, d.dirs[Current]))
            && r.used == (if f[0] then 1 else if f[1] then 2 else if f[2] then 3 else 4)
            && r.disk.buried == d.buried
  {}

  /** A swap and a completed rollback undo each other as far as the original is concerned. */
  lemma RollbackUndoesSwap(d: Disk, original: nat)
    requires At(d, Current, original) && Safe(d, original) && New in d.dirs
    ensures var swapped := Swap(d, [false, false, false, false]);
            var back := Rollback(swapped.disk, [false, false, false, false]);
            && swapped.end.Swapped? && back.end
            && back.disk == Disk(map[Current := original, Stash := d.dirs[New]], d.buried)
  {
    var swapped := Swap(d, [false, false, false, false]).disk;
    var back := Rollback(swapped, [false, false, false, false]).disk;
    forall p: Path ensures p in back.dirs <==> p.Current? || p.Stash? {
      match p case Current => case Old => case New => case Stash =>
    }
    assert back.dirs == map[Current := original, Stash := d.dirs[New]];
  }

  /** The promise needs an installed agent to start from.  The swap deletes -agent-old before it knows
      that there is something to move there: the agent left in -agent-old by a double failure is lost
      exactly when that first command succeeds. */
  lemma SwapWithoutCurrent(d: Disk, f: seq<bool>, original: nat)
    requires |f| == 4 && Current !in d.dirs && At(d, Old, original) && Safe(d, original)
    ensures Safe(Swap(d, f).disk, original) <==> f[0]
    ensures !f[0] ==> forall p :: !At(Swap(d, f).disk, p, original)
  {
    forall p: Path ensures !f[0] ==> !At(Swap(d, f).disk, p, original) {
      match p case Current => case Old => case New => case Stash =>
    }
  }

  /** Staging touches nothing but -agent-new. */
  predicate OnlyNewDiffers(d: Disk, e: Disk) {
    d.buried == e.buried && d.dirs - {New} == e.dirs - {New}
  }

  lemma OtherChangesNothing(d: Disk, fails: bool)
    ensures After(Other, fails, d) == d
  {}

  lemma RemovingNew(d: Disk, fails: bool, fresh': nat)
    ensures OnlyNewDiffers(d, After(Remove(New), fails, d))
    ensures After(Remove(New), fails, d).dirs.Keys <= d.dirs.Keys
    ensures fails ==> After(Remove(New), fails, d) == d
    ensures Succeeds(Remove(New), fails, d) <==> !fails
    ensures !fails ==> New !in After(Remove(New), fails, d).dirs
    ensures OnlyNewDiffers(d, Apply(MakeNew, After(Remove(New), fails, d), fresh'))
  {
    assert d.dirs - {New} - {New} == d.dirs - {New};
    assert (d.dirs - {New})[New := fresh'] - {New} == d.dirs - {New};
  }

  lemma MakingNew(d: Disk, fresh': nat)
    ensures At(Apply(MakeNew, d, fresh'), New, fresh')
    ensures New in Apply(MakeNew, d, fresh').dirs && Apply(MakeNew, d, fresh').dirs[New] == fresh'
  {}

  lemma Unpacked(d: Disk, e: Disk, fresh': nat)
    requires d == e
    ensures OnlyNewDiffers(d, e)
    ensures New in e.dirs ==> At(d, New, e.dirs[New])
  {}

  lemma StagingKeepsSafe(d: Disk, e: Disk, original: nat)
    requires OnlyNewDiffers(d, e) && Safe(d, original) && At(d, Current, original) && !At(e, New, original)
    ensures Safe(e, original) && At(e, Current, original)
  {
    assert forall p: Path :: p != New ==> (p in d.dirs <==> p in d.dirs - {New}) && (p in e.dirs <==> p in e.dirs - {New});
    assert (d.dirs - {New})[Current] == (e.dirs - {New})[Current];
    assert !At(e, Old, original) by {
      if Old in e.dirs { assert (d.dirs - {New})[Old] == (e.dirs - {New})[Old]; }
    }
    assert !At(e, Stash, original) by {
      if Stash in e.dirs { assert (d.dirs - {New})[Stash] == (e.dirs - {New})[Stash]; }
    }
  }

  // ----- the running updater -----

  const HEALTH_WINDOW_MS := 90_000
  const POLL_MS := 3_000

  /** A marker that is missing, or older than the restart, counts against the new agent however often
      it is looked at; one as old as the restart itself is accepted. */
  predicate HealthCheckPasses(marker: Option<int>, restartMs: int) {
    marker.Some? && marker.value >= restartMs
  }

  datatype Outcome = Success | Failed | RolledBack | RollbackFailed

  predicate HasVersion(versions: map<nat, string>, d: Disk, p: Path, version: string) {
    p in d.dirs && d.dirs[p] in versions && versions[d.dirs[p]] == version
  }

  /** What an outcome says about the disk.  Only the original or a bundle of the right version is ever
      installed.  A failed update leaves the original installed, unless both the install and the restore
      of the swap failed.  A rollback that stopped at its first two commands leaves the new bundle, at
      the third no agent, at the last, the restart, the original. */
  predicate StandsOn(outcome: Outcome, d: Disk, versions: map<nat, string>, doubleFailure: bool, rollbackCommands: int,
                     original: nat, version: string)
  {
    && Safe(d, original)
    && (Current in d.dirs ==> At(d, Current, original) || HasVersion(versions, d, Current, version))
    && match outcome
       case Success => At(d, Old, original) && HasVersion(versions, d, Current, version)
       case RolledBack => At(d, Current, original) && HasVersion(versions, d, Stash, version)
       case Failed => if doubleFailure then Current !in d.dirs && At(d, Old, original) else At(d, Current, original)
       case RollbackFailed =>
         && 1 <= rollbackCommands <= 4
         && (rollbackCommands <= 2 ==> At(d, Old, original) && HasVersion(versions, d, Current, version))
         && (rollbackCommands == 3 ==> At(d, Old, original) && Current !in d.dirs && HasVersion(versions, d, Stash, version))
         && (rollbackCommands == 4 ==> At(d, Current, original) && HasVersion(versions, d, Stash, version))
  }

  lemma SwapStands(d: Disk, f: seq<bool>, versions: map<nat, string>, k: int, original: nat, version: string)
    requires |f| == 4 && At(d, Current, original) && Safe(d, original) && HasVersion(versions, d, New, version)
    ensures var r := Swap(d, f);
            StandsOn(if r.end.Swapped? then Success else Failed, r.disk, versions, r.used == 4 && f[2] && f[3], k, original, version)
    ensures Swap(d, f).end.Swapped? <==> Swap(d, f).used == 3
  {
    hide Safe, Swap;
    SwapKeepsOriginal(d, f, original);
  }

  lemma RollbackStands(d: Disk, f: seq<bool>, versions: map<nat, string>, failure: bool, k: int, original: nat, version: string)
    requires |f| == 4 && StandsOn(Success, d, versions, failure, k, original, version)
    ensures var r := Rollback(d, f);
            && StandsOn(if r.end then RolledBack else RollbackFailed, r.disk, versions, failure, r.used, original, version)
            && r.used <= 4 && (r.end ==> r.used == 4 && !f[0] && !f[1] && !f[2] && !f[3])
            && (!r.end ==> 1 <= r.used && f[r.used - 1])
  {
    hide Safe, Rollback;
    RollbackKeepsOriginal(d, f, original);
  }

  lemma StandsBeforeSwap(d: Disk, versions: map<nat, string>, k: int, original: nat, version: string)
    requires At(d, Current, original) && Safe(d, original)
    ensures StandsOn(Failed, d, versions, false, k, original, version)
  {
  }

  /** Each outcome looks only at the failures that concern it. */
  lemma StandsWhatever(outcome: Outcome, d: Disk, versions: map<nat, string>, a: bool, j: int, b: bool, k: int,
                       original: nat, version: string)
    requires outcome.Failed? ==> a == b
    requires outcome.RollbackFailed? ==> j == k
    ensures StandsOn(outcome, d, versions, a, j, original, version) == StandsOn(outcome, d, versions, b, k, original, version)
  {
    hide Safe, HasVersion, At;
  }

  /** The machine the updater runs on.  The outcome and the duration of the n-th command, the delay of
      the n-th sleep and the marker seen by the n-th poll are arbitrary. */
  class World {
    const fails: nat -> bool
    const took: nat -> nat
    const delay: nat -> nat
    const marker: nat -> Option<int>
    var disk: Disk
    /** The version a directory's package.json carries, where it can be read. */
    var versions: map<nat, string>
    var nextId: nat
    var commands: nat
    var clock: int
    var polls: nat
    var restartedAt: int
    /** The numbers of the first swap command and of the first rollback command, once there is one. */
    ghost var swapAt: Option<nat>
    ghost var rollbackAt: Option<nat>
    /** When the restart command returned. */
    ghost var restartReturned: int

    constructor (fails: nat -> bool, took: nat -> nat, delay: nat -> nat, marker: nat -> Option<int>, disk: Disk, versions: map<nat, string>, nextId: nat, clock: int)
      ensures this.disk == disk && this.versions == versions && this.nextId == nextId && this.clock == clock
      ensures commands == 0 && polls == 0 && swapAt == None && rollbackAt == None
      ensures this.fails == fails && this.took == took && this.delay == delay && this.marker == marker
    {
      this.fails, this.took, this.delay, this.marker := fails, took, delay, marker;
      this.disk, this.versions, this.nextId, this.clock := disk, versions, nextId, clock;
      commands, polls, restartedAt := 0, 0, clock;
      swapAt, rollbackAt, restartReturned := None, None, clock;
    }

    /** The outcomes of the next four commands. */
    function NextFour(): seq<bool>
      reads this
    {
      [fails(commands), fails(commands + 1), fails(commands + 2), fails(commands + 3)]
    }

    method Run(c: Command) returns (ok: bool)
      requires !c.MakeNew?
      modifies this`disk, this`clock, this`commands
      ensures ok <==> Succeeds(c, fails(old(commands)), old(disk))
      ensures ok ==> !fails(old(commands))
      ensures disk == After(c, fails(old(commands)), old(disk))
      ensures commands == old(commands) + 1 && clock == old(clock) + took(old(commands))
    {
      ok := !fails(commands) && Possible(c, disk);
      if ok { disk := Apply(c, disk, 0); }
      clock := clock + took(commands);
      commands := commands + 1;
    }

    method AtomicSwap() returns (end: SwapEnd)
      modifies this`disk, this`clock, this`commands
      ensures commands >= old(commands)
      ensures Ended(disk, end, commands - old(commands)) == Swap(old(disk), old(NextFour()))
    {
      var ok := Run(Remove(Old));
      if !ok { return Untouched; }
      ok := Run(Move(Current, Old));
      if !ok { return Untouched; }
      ok := Run(Move(New, Current));
      if ok { return Swapped; }
      var restored := Run(Move(Old, Current));
      return if restored then Restored else RestoreFailed;
    }

    method AtomicRollback() returns (ok: bool)
      modifies this`disk, this`clock, this`commands
      ensures commands >= old(commands)
      ensures Ended(disk, ok, commands - old(commands)) == Rollback(old(disk), old(NextFour()))
      ensures clock >= old(clock)
    {
      ok := Run(Remove(Stash));
      if !ok { return; }
      ok := Run(Move(Current, Stash));
      if !ok { return; }
      ok := Run(Move(Old, Current));
      if !ok { return; }
      ok := Run(Other);
    }

    /** mkdir -p after the rm: a fresh directory with nothing readable in it. */
    method MakeDirectory() returns (ok: bool)
      modifies this`disk, this`clock, this`commands, this`versions, this`nextId
      ensures ok <==> !fails(old(commands))
      ensures disk == if ok then Apply(MakeNew, old(disk), old(nextId)) else old(disk)
      ensures nextId == old(nextId) + if ok then 1 else 0
      ensures ok ==> old(nextId) !in versions
      ensures commands == old(commands) + 1 && clock == old(clock) + took(old(commands))
    {
      ok := !fails(commands);
      clock := clock + took(commands);
      commands := commands + 1;
      if ok {
        versions := versions - {nextId};
        disk, nextId := Apply(MakeNew, disk, nextId), nextId + 1;
      }
    }

    /** Download and unpack: -new is replaced by a fresh directory; a failing tar leaves it there with
        nothing readable in it. */
    method Extract(content: Option<string>) returns (ok: bool)
      modifies this`disk, this`clock, this`commands, this`versions, this`nextId
      ensures OnlyNewDiffers(old(disk), disk)
      ensures New in disk.dirs ==> disk.dirs[New] == old(nextId) || At(old(disk), New, disk.dirs[New])
      ensures ok ==> At(disk, New, old(nextId))
      ensures ok ==> (old(nextId) in versions <==> content.Some?) && (content.Some? ==> versions[old(nextId)] == content.value)
      ensures ok ==> commands == old(commands) + 4 && forall n :: old(commands) <= n < commands ==> !fails(n)
    {
      hide *;
      ghost var before, fresh' := disk, nextId;
      Unpacked(before, before, fresh');
      ok := Run(Other);
      OtherChangesNothing(before, fails(commands - 1));
      if !ok { return; }
      RemovingNew(before, fails(commands), fresh');
      ok := Run(Remove(New));
      if !ok { return; }
      MakingNew(disk, fresh');
      ok := MakeDirectory();
      if !ok { return; }
      ok := Run(Other);
      OtherChangesNothing(Apply(MakeNew, After(Remove(New), false, before), fresh'), fails(commands - 1));
      if ok && content.Some? { versions := versions[nextId - 1 := content.value]; }
    }

    /** Everything before the swap: unpack, verify the version, keep the node id. */
    method Stage(version: string, content: Option<string>, ghost original: nat) returns (ok: bool)
      requires At(disk, Current, original) && Safe(disk, original) && original < nextId
      modifies this`disk, this`clock, this`commands, this`versions, this`nextId
      ensures At(disk, Current, original) && Safe(disk, original)
      ensures ok ==> HasVersion(versions, disk, New, version)
      ensures ok ==> commands == old(commands) + 5 && forall n :: old(commands) <= n < commands ==> !fails(n)
    {
      ok := Extract(content);
      StagingKeepsSafe(old(disk), disk, original);
      if !ok { return; }
      ok := disk.dirs[New] in versions && versions[disk.dirs[New]] == version;
      if !ok { return; }
      ok := Run(Other);
    }

    /** Poll until the marker is fresh or the window is over.  The last poll, and no earlier one, saw a
        marker written at or after the restart; without one the window is over and all were stale. */
    method AwaitHealth(restartMs: int) returns (healthy: bool)
      requires clock >= restartMs
      modifies this`clock, this`polls
      ensures polls >= old(polls)
      ensures healthy ==> polls > old(polls) && marker(polls - 1).Some? && marker(polls - 1).value >= restartMs
      ensures healthy ==> forall k: nat :: old(polls) <= k < polls - 1 ==> marker(k).None? || marker(k).value < restartMs
      ensures !healthy ==> forall k: nat :: old(polls) <= k < polls ==> marker(k).None? || marker(k).value < restartMs
      ensures old(clock) == restartMs ==> polls > old(polls)
      ensures !healthy ==> clock - restartMs >= 90_000
      ensures clock - old(clock) >= 3_000 * (polls - old(polls))
      ensures polls > old(polls) ==> clock - delay(polls - 1) - 3_000 < restartMs + 90_000
    {
      while clock - restartMs < HEALTH_WINDOW_MS
        invariant polls >= old(polls) && clock >= restartMs
        invariant polls == old(polls) ==> clock == old(clock)
        invariant clock - old(clock) >= 3_000 * (polls - old(polls))
        invariant polls > old(polls) ==> clock - delay(polls - 1) - 3_000 < restartMs + 90_000
        invariant forall k: nat :: old(polls) <= k < polls ==> marker(k).None? || marker(k).value < restartMs
        decreases HEALTH_WINDOW_MS - (clock - restartMs)
      {
        clock := clock + POLL_MS + delay(polls);
        var seen := marker(polls);
        polls := polls + 1;
        if HealthCheckPasses(seen, restartMs) { return true; }
      }
      healthy := false;
    }

    /** The swap got as far as its restore, and neither the install nor the restore went through. */
    ghost predicate InstallAndRestoreFailed()
      reads this`swapAt, this`commands
    {
      && swapAt.Some? && commands == swapAt.value + 4
      && fails(swapAt.value + 2) && fails(swapAt.value + 3)
    }

    /** How many commands the rollback has issued. */
    ghost function RollbackCommands(): int
      reads this`rollbackAt, this`commands
    {
      if rollbackAt.None? then 0 else commands - rollbackAt.value
    }

    /** Where things stand once `outcome` has been reported. */
    ghost predicate Stands(outcome: Outcome, original: nat, version: string)
      reads this`disk, this`versions, this`commands, this`swapAt, this`rollbackAt
    {
      StandsOn(outcome, disk, versions, InstallAndRestoreFailed(), RollbackCommands(), original, version)
    }

    /** The swap as runUpdate sees it: swapped in, or an exception before `swapped` is set. */
    method SwapIn(version: string, ghost original: nat) returns (swapped: bool)
      requires At(disk, Current, original) && Safe(disk, original) && HasVersion(versions, disk, New, version)
      modifies this`disk, this`clock, this`commands, this`swapAt
      ensures swapAt == Some(old(commands)) && (swapped ==> commands == old(commands) + 3)
      ensures Stands(if swapped then Success else Failed, original, version)
    {
      hide StandsOn, Swap, Safe, HasVersion;
      ghost var f := NextFour();
      SwapStands(disk, f, versions, 0, original, version);
      swapAt := Some(commands);
      var end := AtomicSwap();
      swapped := end.Swapped?;
      StandsWhatever(if swapped then Success else Failed, disk, versions, commands == swapAt.value + 4 && f[2] && f[3], 0,
                     InstallAndRestoreFailed(), RollbackCommands(), original, version);
    }

    method TakeBack(version: string, ghost original: nat) returns (ok: bool)
      requires Stands(Success, original, version)
      modifies this`disk, this`clock, this`commands, this`rollbackAt
      ensures rollbackAt == Some(old(commands)) && clock >= old(clock)
      ensures Stands(if ok then RolledBack else RollbackFailed, original, version)
      ensures ok ==> forall n :: old(commands) <= n < old(commands) + 4 ==> !fails(n)
      ensures !ok ==> fails(commands - 1)
    {
      hide StandsOn, Rollback;
      RollbackStands(disk, NextFour(), versions, InstallAndRestoreFailed(), RollbackCommands(), original, version);
      rollbackAt := Some(commands);
      ok := AtomicRollback();
      StandsWhatever(if ok then RolledBack else RollbackFailed, disk, versions, old(InstallAndRestoreFailed()), RollbackCommands(),
                     InstallAndRestoreFailed(), RollbackCommands(), original, version);
    }

    /** The part of runUpdate after the swap: restart, watch, and take the new bundle back unless it
        connected. */
    method Settle(version: string, ghost original: nat) returns (outcome: Outcome)
      requires Stands(Success, original, version)
      modifies this`disk, this`clock, this`commands, this`polls, this`restartedAt, this`restartReturned, this`rollbackAt
      ensures Stands(outcome, original, version) && !outcome.Failed?
      ensures polls >= old(polls)
      ensures fails(old(commands)) ==> !outcome.Success? && polls == old(polls)
      ensures !fails(old(commands)) ==>
                && restartedAt == restartReturned && polls > old(polls)
                && forall k: nat :: old(polls) <= k < polls - 1 ==> marker(k).None? || marker(k).value < restartedAt
      ensures outcome.Success? ==> marker(polls - 1).Some? && marker(polls - 1).value >= restartedAt
      ensures !outcome.Success? && !fails(old(commands)) ==>
                && clock - restartedAt >= 90_000
                && (marker(polls - 1).None? || marker(polls - 1).value < restartedAt)
      ensures !outcome.Success? ==> rollbackAt == Some(old(commands) + 1)
      ensures outcome.RollbackFailed? ==> fails(commands - 1)
    {
      hide *;
      var ok := Restart(version, original);
      var healthy := false;
      if ok {
        restartedAt := clock;
        healthy := AwaitHealth(restartedAt);
      }
      if healthy { return Success; }
      ok := TakeBack(version, original);
      outcome := if ok then RolledBack else RollbackFailed;
    }

    /** The part of runUpdate up to the swap. */
    method Attempt(version: string, content: Option<string>, ghost original: nat) returns (swapped: bool)
      requires At(disk, Current, original) && Safe(disk, original) && original < nextId
      modifies this`disk, this`clock, this`commands, this`versions, this`nextId, this`swapAt, this`rollbackAt
      ensures Stands(if swapped then Success else Failed, original, version)
      ensures swapped ==> swapAt.Some? && commands == swapAt.value + 3
      ensures swapAt.Some? ==> swapAt.value == old(commands) + 5 && forall n :: old(commands) <= n < swapAt.value ==> !fails(n)
    {
      hide *;
      swapAt, rollbackAt := None, None;
      swapped := Stage(version, content, original);
      BeforeTheSwap(version, original);
      if swapped {
        swapped := SwapIn(version, original);
      }
    }

    /** runUpdate.  `content` is the version the downloaded bundle's package.json would carry; `outcome`
        is what it writes as its result.

        The original agent is never lost: it ends at exactly one of -agent and -agent-old, and only it or
        a verified bundle of the requested version is ever installed.  Success means that bundle is
        installed and that the last poll, and no earlier one, saw a marker no older than the return of
        the restart.  A failed update leaves the original, unless both the install and the restore
        failed.  A rollback is begun only when the restart failed or every poll until the end of the
        window saw a missing or older marker. */
    method RunUpdate(version: string, content: Option<string>, ghost original: nat) returns (outcome: Outcome)
      requires At(disk, Current, original) && Safe(disk, original) && original < nextId
      modifies this
      ensures Stands(outcome, original, version)
      ensures (Current in disk.dirs && disk.dirs[Current] == original) != (Old in disk.dirs && disk.dirs[Old] == original)
      ensures Current in disk.dirs && disk.dirs[Current] != original ==>
                disk.dirs[Current] in versions && versions[disk.dirs[Current]] == version
      ensures outcome.Success? ==> Current in disk.dirs && disk.dirs[Current] != original
      ensures outcome.RolledBack? ==> Current in disk.dirs && disk.dirs[Current] == original
      ensures outcome.Failed? ==>
                polls == old(polls) &&
                if swapAt.Some? && commands == swapAt.value + 4 && fails(swapAt.value + 2) && fails(swapAt.value + 3)
                then Current !in disk.dirs
                else Current in disk.dirs && disk.dirs[Current] == original
      ensures outcome.RollbackFailed? && rollbackAt.Some? ==>
                var made := commands - rollbackAt.value;
                && 1 <= made <= 4 && fails(commands - 1)
                && (made <= 2 ==> Current in disk.dirs && disk.dirs[Current] != original)
                && (made == 3 ==> Current !in disk.dirs)
                && (made == 4 ==> Current in disk.dirs && disk.dirs[Current] == original)
      ensures original !in disk.buried
      ensures swapAt.Some? ==> swapAt.value == old(commands) + 5 && forall n :: old(commands) <= n < swapAt.value ==> !fails(n)
      ensures !outcome.Failed? ==>
                && swapAt.Some? && polls >= old(polls)
                && (fails(swapAt.value + 3) ==> !outcome.Success? && polls == old(polls))
                && (!fails(swapAt.value + 3) ==>
                      && restartedAt == restartReturned && polls > old(polls)
                      && forall k: nat :: old(polls) <= k < polls - 1 ==> marker(k).None? || marker(k).value < restartedAt)
      ensures outcome.Success? ==> marker(polls - 1).Some? && marker(polls - 1).value >= restartedAt
      ensures outcome.RolledBack? || outcome.RollbackFailed? ==>
                && rollbackAt == Some(swapAt.value + 4)
                && (!fails(swapAt.value + 3) ==>
                      && clock - restartedAt >= 90_000
                      && (marker(polls - 1).None? || marker(polls - 1).value < restartedAt))
    {
      hide *;
      var swapped := Attempt(version, content, original);
      outcome := Failed;
      if swapped {
        outcome := Settle(version, original);
      }
      StandsPlainly(outcome, version, original);
    }

    /** What standing means for the directories. */
    lemma StandsPlainly(outcome: Outcome, version: string, original: nat)
      requires Stands(outcome, original, version)
      ensures (Current in disk.dirs && disk.dirs[Current] == original) != (Old in disk.dirs && disk.dirs[Old] == original)
      ensures Current in disk.dirs && disk.dirs[Current] != original ==>
                disk.dirs[Current] in versions && versions[disk.dirs[Current]] == version
      ensures outcome.Success? ==> Current in disk.dirs && disk.dirs[Current] != original
      ensures outcome.RolledBack? ==> Current in disk.dirs && disk.dirs[Current] == original
      ensures outcome.Failed? ==>
                if swapAt.Some? && commands == swapAt.value + 4 && fails(swapAt.value + 2) && fails(swapAt.value + 3)
                then Current !in disk.dirs
                else Current in disk.dirs && disk.dirs[Current] == original
      ensures outcome.RollbackFailed? && rollbackAt.Some? ==>
                var made := commands - rollbackAt.value;
                && 1 <= made <= 4
                && (made <= 2 ==> Current in disk.dirs && disk.dirs[Current] != original)
                && (made == 3 ==> Current !in disk.dirs)
                && (made == 4 ==> Current in disk.dirs && disk.dirs[Current] == original)
      ensures original !in disk.buried
    {
    }

    lemma BeforeTheSwap(version: string, original: nat)
      requires At(disk, Current, original) && Safe(disk, original) && swapAt.None?
      ensures Stands(Failed, original, version)
    {
      StandsBeforeSwap(disk, versions, RollbackCommands(), original, version);
    }

    /** systemctl restart: the disk stays as it is. */
    method Restart(version: string, ghost original: nat) returns (ok: bool)
      requires Stands(Success, original, version)
      modifies this`disk, this`clock, this`commands, this`restartReturned
      ensures Stands(Success, original, version)
      ensures ok <==> !fails(old(commands))
      ensures commands == old(commands) + 1
      ensures restartReturned == clock == old(clock) + took(old(commands))
    {
      hide StandsOn;
      ghost var a, j := InstallAndRestoreFailed(), RollbackCommands();
      ok := Run(Other);
      restartReturned := clock;
      StandsWhatever(Success, disk, versions, a, j, InstallAndRestoreFailed(), RollbackCommands(), original, version);
    }
  }
}
