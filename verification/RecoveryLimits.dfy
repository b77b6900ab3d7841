// When crash recovery does not hold, and why its assumptions are needed.
module RecoveryLimits {
  import opened Wrappers
  import opened BuildArea
  import opened Finalizer
  import opened Checkpoints
  import opened DistroConst
  import opened Queues
  import opened Recovery
  import opened Restarts

  // zfs never holds two snapshots of the same name.
  ghost predicate OneEach(snaps: seq<Snapshot>)
  {
    forall i, j :: 0 <= i < j < |snaps| ==> snaps[i].name != snaps[j].name
  }

  lemma {:induction false} DestroyRemoves(a: Area, name: string)
    requires OneEach(a.snaps)
    ensures OneEach(Destroyed(a, name).snaps) && !Holds(Destroyed(a, name).snaps, name)
  {
    var k, b := Position(a.snaps, name), Destroyed(a, name).snaps;
    if k < |a.snaps| {
      assert forall j :: 0 <= j < |b| ==> b[j] == a.snaps[if j < k then j else j + 1];
    }
  }

  // The snapshot to resume from survives the deletion of the later steps'
  // checkpoints exactly when no later step whose checkpoint is destroyed has
  // the same name.  Nothing checks that names differ.
  lemma {:induction false} ResumeSnapshotSurvives(a: Area, names: seq<string>, lo: nat, destroyed: nat -> bool,
      name: string)
    requires OneEach(a.snaps) && lo <= |names|
    ensures Holds(Deletions(a, names, lo, |names|, destroyed).snaps, name)
      <==> Holds(a.snaps, name) && forall i :: lo <= i < |names| && destroyed(i) ==> names[i] != name
    decreases |names| - lo
  {
    if lo < |names| {
      var b := if destroyed(lo) then Destroyed(a, names[lo]) else a;
      DestroyRemoves(a, names[lo]);
      ResumeSnapshotSurvives(b, names, lo + 1, destroyed, name);
      if names[lo] != name {
        DestroyLeaves(a, names[lo], name);
      }
    }
  }

  // The data the script of the resume step starts from is right exactly when
  // the rollback took effect, or nothing had changed since the snapshot.
  lemma {:induction false} RightDataExactlyWhenRolledBack(fx: Effects, names: seq<string>, scripts: seq<string>,
      e: Exec, r: nat, ev: Event)
    requires Named(names, scripts) && r < |scripts|
    requires Good(fx, names, scripts, e.area.snaps) && Holds(e.area.snaps, names[r])
    ensures Step(Func(Rollback(names[r])), ev, fx, e).area.live == Stage(fx, scripts, r)
      <==> ev.zfs || e.area.live == Stage(fx, scripts, r)
  {
    RollbackKeeps(fx, names, scripts, e.area, r);
  }

  // ---------------------------------------------------------------------
  // Step names that repeat.
  // ---------------------------------------------------------------------

  // Step i is the first one whose name a later step has too.
  ghost predicate FirstRepeat(names: seq<string>, i: nat)
  {
    Unrepeated(names, i) && i < |names| && names[i] in names[i + 1..]
  }

  // Nothing goes wrong: no program fails, every zfs command takes effect.
  ghost predicate Flawless(t: Attempt)
  {
    && FlawlessCleanup(t.cleanup)
    && (forall i :: t.destroyed(i))
    && (forall i :: FlawlessEvent(t.events(i)))
  }

  ghost predicate FlawlessEvent(ev: Event)
  {
    ev.exit == 0 && ev.zfs
  }

  ghost predicate FlawlessCleanup(w: Cleanup)
  {
    var done := Answer(0, true);
    w.zfs && w.listed && w.rollback == done && w.destroy == done && w.made && w.snapshot == done
  }

  // The scripts from i on, run on d.
  ghost function Rerun(fx: Effects, scripts: seq<string>, i: nat, d: BuildData): BuildData
    requires i <= |scripts|
    decreases |scripts| - i
  {
    if i == |scripts| then d else Rerun(fx, scripts, i + 1, fx(scripts[i], d))
  }

  lemma {:induction false} RerunOfStage(fx: Effects, scripts: seq<string>, i: nat)
    requires i <= |scripts|
    ensures Rerun(fx, scripts, i, Stage(fx, scripts, i)) == Stage(fx, scripts, |scripts|)
    decreases |scripts| - i
  {
    if i < |scripts| {
      RerunOfStage(fx, scripts, i + 1);
    }
  }

  // A flawless execution from step `cur` on: f comes of e, and the snapshots
  // that were there stay.
  ghost predicate WentWell(fx: Effects, scripts: seq<string>, cur: nat, e: Exec, f: Exec)
    requires cur <= |scripts|
  {
    && !f.halted && f.status == e.status
    && f.area.live == Rerun(fx, scripts, cur, e.area.live)
    && e.area.snaps <= f.area.snaps
    && (OneEach(e.area.snaps) ==> OneEach(f.area.snaps))
  }

  lemma {:induction false} FlawlessPair(c: Item, script: string, k: nat, events: Events, fx: Effects, e: Exec)
    requires !e.halted && FlawlessEvent(events(k)) && FlawlessEvent(events(k + 1))
    requires c.Func? && !c.command.Script?
    ensures var f := Step(c, events(k), fx, e);
      var g := Step(Func(Script(script)), events(k + 1), fx, f);
      && !f.halted && !g.halted && g.status == e.status && g.stop == e.stop
      && g.area.snaps == f.area.snaps && g.area.live == fx(script, f.area.live)
  {
  }

  lemma {:induction false} SnapshotAppends(a: Area, name: string)
    ensures var b := Snapshotted(a, name);
      b.live == a.live && a.snaps <= b.snaps && (OneEach(a.snaps) ==> OneEach(b.snaps))
  {
    var b := Snapshotted(a, name).snaps;
    if OneEach(a.snaps) {
      forall i, j | 0 <= i < j < |b|
        ensures b[i].name != b[j].name
      {
        assert a.snaps[i] == b[i];
      }
    }
  }

  lemma {:induction false} FlawlessTail(fx: Effects, names: seq<string>, scripts: seq<string>, cur: nat, resume: int,
      pause: int, k: nat, events: Events, e: Exec)
    requires resume < cur <= |scripts| <= |names| && pause >= |scripts| && !e.halted
    requires forall i: nat :: i >= k ==> FlawlessEvent(events(i))
    ensures WentWell(fx, scripts, cur, e,
                     Run(QueueFrom(true, names, scripts, cur, resume, pause), k, events, fx, e))
    decreases |scripts| - cur
  {
    if cur < |scripts| {
      var c, d := Func(Checkpoint(names[cur])), Func(Script(scripts[cur]));
      QueueStep(names, scripts, cur, resume, pause);
      RunTwo(c, d, QueueFrom(true, names, scripts, cur + 1, resume, pause), k, events, fx, e);
      FlawlessPair(c, scripts[cur], k, events, fx, e);
      SnapshotAppends(e.area, names[cur]);
      var g := Step(d, events(k + 1), fx, Step(c, events(k), fx, e));
      FlawlessTail(fx, names, scripts, cur + 1, resume, pause, k + 2, events, g);
    }
  }

  // A step of a flawless full build.
  lemma {:induction false} FrontStep(fx: Effects, names: seq<string>, scripts: seq<string>, cur: nat, pause: int,
      k: nat, events: Events, e: Exec) returns (g: Exec)
    requires cur < |scripts| <= |names| && pause >= |scripts| && Unrepeated(names, cur)
    requires InStep(fx, names, scripts, e, cur) && OneEach(e.area.snaps)
    requires FlawlessEvent(events(k)) && FlawlessEvent(events(k + 1))
    ensures InStep(fx, names, scripts, g, cur + 1) && OneEach(g.area.snaps) && g.status == e.status
    ensures g.area.live == fx(scripts[cur], e.area.live)
    ensures Run(QueueFrom(true, names, scripts, cur, -1, pause), k, events, fx, e)
      == Run(QueueFrom(true, names, scripts, cur + 1, -1, pause), k + 2, events, fx, g)
  {
    var c, d := Func(Checkpoint(names[cur])), Func(Script(scripts[cur]));
    QueueStep(names, scripts, cur, -1, pause);
    RunTwo(c, d, QueueFrom(true, names, scripts, cur + 1, -1, pause), k, events, fx, e);
    FlawlessPair(c, scripts[cur], k, events, fx, e);
    SnapshotAppends(e.area, names[cur]);
    CheckpointDrives(fx, names, scripts, cur, events(k), e);
    g := Step(d, events(k + 1), fx, Step(c, events(k), fx, e));
  }

  // A flawless full build takes the snapshots of the steps up to the first
  // with a repeated name.
  lemma {:induction false} FlawlessFront(fx: Effects, names: seq<string>, scripts: seq<string>, cur: nat, i: nat,
      pause: int, k: nat, events: Events, e: Exec)
    requires cur <= i < |scripts| <= |names| && pause >= |scripts| && Unrepeated(names, i)
    requires InStep(fx, names, scripts, e, cur) && OneEach(e.area.snaps)
    requires forall i :: FlawlessEvent(events(i))
    ensures var f := Run(QueueFrom(true, names, scripts, cur, -1, pause), k, events, fx, e);
      && !f.halted && f.status == e.status && f.area.live == Rerun(fx, scripts, cur, e.area.live)
      && OneEach(f.area.snaps) && SnapshotsTaken(fx, names, scripts, i + 1) <= f.area.snaps
    decreases i - cur
  {
    var g := FrontStep(fx, names, scripts, cur, pause, k, events, e);
    if cur < i {
      FlawlessFront(fx, names, scripts, cur + 1, i, pause, k + 2, events, g);
    } else {
      FlawlessTail(fx, names, scripts, cur + 1, -1, pause, k + 2, events, g);
    }
  }

  // What a flawless full build leaves.
  ghost predicate BuiltOnce(fx: Effects, names: seq<string>, scripts: seq<string>, i: nat, b: Area)
    requires i < |scripts| <= |names|
  {
    && b.live == Stage(fx, scripts, |scripts|) && OneEach(b.snaps)
    && SnapshotsTaken(fx, names, scripts, i + 1) <= b.snaps
  }

  lemma {:induction false} FullBuild(fx: Effects, names: seq<string>, scripts: seq<string>, a: Area, t: Attempt, i: nat)
    requires i < |scripts| <= |names| && Unrepeated(names, i) && CleanEmpty(a)
    requires Flawless(t) && t.resume == -1 && t.pause >= |scripts|
    ensures RolledBackFor(names, a, t) && Completes(fx, names, scripts, a, t)
    ensures BuiltOnce(fx, names, scripts, i, Execution(fx, names, scripts, a, t, |Queue(names, scripts, t)|).area)
  {
    QueueBegins(fx, names, scripts, a, t);
    DeletionsKeepEmpty(a, names, 0, |names|, t.destroyed);
    CleanUpKeeps(Deletions(a, names, 0, |names|, t.destroyed), t.cleanup);
    var e := Fresh(t.stop, Prepared(a, names, -1, t.destroyed, t.cleanup).1);
    FlawlessFront(fx, names, scripts, 0, i, t.pause, 1, t.events, e);
    RerunOfStage(fx, scripts, 0);
  }

  lemma {:induction false} DeletionsKeepLive(a: Area, names: seq<string>, lo: nat, hi: nat, destroyed: nat -> bool)
    requires hi <= |names|
    ensures Deletions(a, names, lo, hi, destroyed).live == a.live
    decreases hi - lo
  {
    if lo < hi {
      DeletionsKeepLive(if destroyed(lo) then Destroyed(a, names[lo]) else a, names, lo + 1, hi, destroyed);
    }
  }

  // Deleting the checkpoints of the later steps deletes the only snapshot of
  // that name.
  lemma {:induction false} SnapshotLost(b: Area, names: seq<string>, i: nat, destroyed: nat -> bool)
    requires FirstRepeat(names, i) && OneEach(b.snaps) && forall j :: destroyed(j)
    ensures var d := Deletions(b, names, i + 1, |names|, destroyed); d.live == b.live && !Holds(d.snaps, names[i])
  {
    var j :| 0 <= j < |names[i + 1..]| && names[i + 1..][j] == names[i];
    assert names[i + 1 + j] == names[i];
    ResumeSnapshotSurvives(b, names, i + 1, destroyed, names[i]);
    DeletionsKeepLive(b, names, i + 1, |names|, destroyed);
  }

  // The rollback finds nothing, and the scripts from that step on run again.
  lemma {:induction false} RollbackFindsNothing(fx: Effects, names: seq<string>, scripts: seq<string>, i: nat,
      pause: int, events: Events, e: Exec)
    requires i < |scripts| <= |names| && pause >= |scripts| && !e.halted && !Holds(e.area.snaps, names[i])
    requires forall k :: FlawlessEvent(events(k))
    ensures var f := Run(QueueFrom(true, names, scripts, 0, i, pause), 1, events, fx, e);
      !f.halted && f.status == e.status && f.area.live == Rerun(fx, scripts, i, e.area.live)
  {
    QueueSkips(names, scripts, 0, i, pause);
    var c, d := Func(Rollback(names[i])), Func(Script(scripts[i]));
    RunTwo(c, d, QueueFrom(true, names, scripts, i + 1, i, pause), 1, events, fx, e);
    FlawlessPair(c, scripts[i], 1, events, fx, e);
    FlawlessTail(fx, names, scripts, i + 1, i, pause, 3, events, Step(d, events(2), fx, Step(c, events(1), fx, e)));
  }

  // Resumed at such a step, a build starts from the finished data.
  lemma {:induction false} SecondRuns(fx: Effects, names: seq<string>, scripts: seq<string>, b: Area, t: Attempt,
      i: nat)
    requires i < |scripts| <= |names| && FirstRepeat(names, i) && OneEach(b.snaps)
    requires Flawless(t) && t.resume == i && t.pause >= |scripts|
    ensures var e := Execution(fx, names, scripts, b, t, |Queue(names, scripts, t)|);
      e.status == SUCCESS && e.area.live == Rerun(fx, scripts, i, b.live)
  {
    QueueBegins(fx, names, scripts, b, t);
    SnapshotLost(b, names, i, t.destroyed);
    var start := Prepared(b, names, i, t.destroyed, t.cleanup).1;
    RollbackFindsNothing(fx, names, scripts, i, t.pause, t.events, Fresh(t.stop, start));
  }

  lemma {:induction false} SecondBuild(fx: Effects, names: seq<string>, scripts: seq<string>, b: Area, t: Attempt,
      i: nat)
    requires i < |scripts| <= |names| && FirstRepeat(names, i) && BuiltOnce(fx, names, scripts, i, b)
    requires Flawless(t) && t.resume == i && t.pause >= |scripts|
    ensures Admitted(names, b, t) && RolledBackFor(names, b, t) && Completes(fx, names, scripts, b, t)
    ensures Built(fx, names, scripts, b, t) == Rerun(fx, scripts, i, b.live)
  {
    FirstStepsResumable(fx, names, scripts, b, i);
    assert FlawlessEvent(t.events(1));
    SecondRuns(fx, names, scripts, b, t, i);
  }

  lemma {:induction false} FirstStepsResumable(fx: Effects, names: seq<string>, scripts: seq<string>, b: Area, i: nat)
    requires i < |scripts| <= |names| && BuiltOnce(fx, names, scripts, i, b)
    ensures Resumable(names, b.snaps, i)
  {
    var taken := SnapshotsTaken(fx, names, scripts, i + 1);
    assert forall k :: 0 <= k <= i ==> b.snaps[k] == taken[k];
    forall k | 0 <= k <= i
      ensures Holds(b.snaps, names[k]) && Listing(b.snaps)[k].StepName() == names[k]
    {
      assert b.snaps[k].name == names[k];
    }
  }

  // A script that counts how often it has been run.
  function Count(path: string, d: BuildData): BuildData
  {
    d[path := if path in d then d[path] + "I" else "I"]
  }

  ghost function Runs(d: BuildData, path: string): nat
  {
    if path in d then |d[path]| else 0
  }

  lemma {:induction false} RerunCounts(scripts: seq<string>, i: nat, d: BuildData, path: string)
    requires i <= |scripts|
    ensures Runs(Rerun(Count, scripts, i, d), path) >= Runs(d, path)
    ensures i < |scripts| && path == scripts[i] ==> Runs(Rerun(Count, scripts, i, d), path) > Runs(d, path)
    decreases |scripts| - i
  {
    if i < |scripts| {
      RerunCounts(scripts, i + 1, Count(scripts[i], d), path);
    }
  }

  // For every list of names in which one is repeated: a flawless full build,
  // then a flawless build resumed at the first such step, which is admitted
  // and completes, but does not leave the result of running the scripts once.
  lemma {:induction false} RepeatBreaksRecovery(names: seq<string>, scripts: seq<string>, a: Area, full: Attempt,
      again: Attempt, i: nat)
    requires i < |scripts| <= |names| && FirstRepeat(names, i) && CleanEmpty(a)
    requires Flawless(full) && full.resume == -1 && full.pause >= |scripts|
    requires Flawless(again) && again.resume == i && again.pause >= |scripts|
    ensures RolledBackFor(names, a, full) && Completes(Count, names, scripts, a, full)
    ensures var b := Execution(Count, names, scripts, a, full, |Queue(names, scripts, full)|).area;
      && Admitted(names, b, again) && RolledBackFor(names, b, again) && Completes(Count, names, scripts, b, again)
      && Built(Count, names, scripts, b, again) != Stage(Count, scripts, |scripts|)
  {
    FullBuild(Count, names, scripts, a, full, i);
    var b := Execution(Count, names, scripts, a, full, |Queue(names, scripts, full)|).area;
    SecondBuild(Count, names, scripts, b, again, i);
    RerunCounts(scripts, i, b.live, scripts[i]);
  }

  // ---------------------------------------------------------------------
  // Recovery exactly when no name is repeated.
  // ---------------------------------------------------------------------

  // After this history, this build leaves the right data if it completes.
  ghost predicate RecoversFrom(fx: Effects, names: seq<string>, scripts: seq<string>, areas: seq<Area>,
      builds: seq<Attempt>, resumed: Attempt)
    requires |scripts| <= |names|
  {
    (History(fx, names, scripts, areas, builds)
     && Admitted(names, areas[|builds|], resumed) && RolledBackFor(names, areas[|builds|], resumed)
     && Completes(fx, names, scripts, areas[|builds|], resumed))
    ==> Built(fx, names, scripts, areas[|builds|], resumed) == Stage(fx, scripts, |scripts|)
  }

  // All builds have the manifest's stop-on-error flag.
  ghost predicate SameStop(builds: seq<Attempt>, stop: bool)
  {
    forall i :: 0 <= i < |builds| ==> builds[i].stop == stop
  }

  // For these steps and scripts, and with the flag like this, recovery holds
  // after every history, whatever the scripts do.
  ghost predicate Recovers(names: seq<string>, scripts: seq<string>, stop: bool)
    requires |scripts| <= |names|
  {
    forall fx, areas, builds, resumed: Attempt :: SameStop(builds, stop) && resumed.stop == stop ==>
      RecoversFrom(fx, names, scripts, areas, builds, resumed)
  }

  lemma {:induction false} RecoveryWhenNamed(names: seq<string>, scripts: seq<string>, stop: bool)
    requires Named(names, scripts) && Careful(stop, scripts)
    ensures Recovers(names, scripts, stop)
  {
    forall fx, areas, builds, resumed: Attempt | SameStop(builds, stop) && resumed.stop == stop
      ensures RecoversFrom(fx, names, scripts, areas, builds, resumed)
    {
      if History(fx, names, scripts, areas, builds)
         && Admitted(names, areas[|builds|], resumed) && RolledBackFor(names, areas[|builds|], resumed)
         && Completes(fx, names, scripts, areas[|builds|], resumed) {
        HistoryKeepsSnapshots(fx, names, scripts, areas, builds, |builds|);
        AttemptKeeps(fx, names, scripts, areas[|builds|], resumed, |Queue(names, scripts, resumed)|);
      }
    }
  }

  lemma {:induction false} SomeFirstRepeat(names: seq<string>, n: nat) returns (i: nat)
    requires n <= |names| && !Unrepeated(names, n)
    ensures i < n && FirstRepeat(names, i)
  {
    if Unrepeated(names, n - 1) {
      i := n - 1;
      var j :| n - 1 < j < |names| && names[n - 1] == names[j];
      assert names[n..][j - n] == names[n - 1];
    } else {
      i := SomeFirstRepeat(names, n - 1);
    }
  }

  // A build at which nothing goes wrong, and which is not asked to pause.
  ghost function FlawlessBuild(names: seq<string>, scripts: seq<string>, resume: int, stop: bool): (t: Attempt)
    requires |scripts| <= |names|
    ensures Flawless(t) && t.resume == resume && t.stop == stop && t.pause >= |scripts|
  {
    var done := Answer(0, true);
    Attempt(resume, if |scripts| <= 9999 then 9999 else |scripts|, stop, _ => true,
            Cleanup(true, true, done, done, true, done, EMPTY),
            _ => Event(0, true, EMPTY), DuringQueue(1 + 2 * |scripts|))
  }

  // Crash recovery holds for a list of names and scripts exactly when no step
  // with a script shares its name with a later step, and the stop-on-error
  // flag is on unless there is at most one script.
  lemma {:induction false} RecoversIff(names: seq<string>, scripts: seq<string>, stop: bool)
    requires |scripts| <= |names|
    ensures Recovers(names, scripts, stop) <==> Unrepeated(names, |scripts|) && (stop || |scripts| <= 1)
  {
    var a := Area(EMPTY, None, []);
    if !Unrepeated(names, |scripts|) {
      var i := SomeFirstRepeat(names, |scripts|);
      var full, again := FlawlessBuild(names, scripts, -1, stop), FlawlessBuild(names, scripts, i, stop);
      NotRecovered(names, scripts, a, full, again, i);
    } else if stop || |scripts| <= 1 {
      RecoveryWhenNamed(names, scripts, stop);
    } else {
      NotRecoveredWithoutStop(names, scripts, a);
    }
  }

  lemma {:induction false} NotRecovered(names: seq<string>, scripts: seq<string>, a: Area, full: Attempt,
      again: Attempt, i: nat)
    requires i < |scripts| <= |names| && FirstRepeat(names, i) && a.snaps == [] && CleanEmpty(a)
    requires full == FlawlessBuild(names, scripts, -1, full.stop)
    requires again == FlawlessBuild(names, scripts, i, full.stop)
    ensures !Recovers(names, scripts, full.stop)
  {
    RepeatBreaksRecovery(names, scripts, a, full, again, i);
    var b := Execution(Count, names, scripts, a, full, |Queue(names, scripts, full)|).area;
    OneBuildHistory(Count, names, scripts, a, full, b);
    assert SameStop([full], full.stop) && !RecoversFrom(Count, names, scripts, [a, b], [full], again);
  }

  lemma {:induction false} OneBuildHistory(fx: Effects, names: seq<string>, scripts: seq<string>, a: Area, t: Attempt,
      b: Area)
    requires |scripts| <= |names| && a.snaps == [] && CleanEmpty(a)
    requires t.resume == -1 && t.pause >= |scripts| && t.reach == DuringQueue(1 + 2 * |scripts|)
    requires RolledBackFor(names, a, t) && Starts(names, a, t)
    requires b == Execution(fx, names, scripts, a, t, |Queue(names, scripts, t)|).area
    ensures History(fx, names, scripts, [a, b], [t])
  {
    QueueIsPairs(names, scripts, 0, -1, t.pause);
    var q := Queue(names, scripts, t);
    assert q[..|q|] == q && q[..t.reach.items] == q;
    assert Succeeds(fx, names, scripts, [a, b], [t], 0);
  }

  // ---------------------------------------------------------------------
  // Without stop-on-error.
  // ---------------------------------------------------------------------

  // A script that changes nothing.
  function Leave(path: string, d: BuildData): BuildData
  {
    d
  }

  lemma {:induction false} LeftAlone(scripts: seq<string>, i: nat, d: BuildData)
    requires i <= |scripts|
    ensures Rerun(Leave, scripts, i, d) == d && Stage(Leave, scripts, i) == EMPTY
    decreases |scripts| - i
  {
    StageLeft(scripts, i);
    if i < |scripts| {
      LeftAlone(scripts, i + 1, d);
    }
  }

  lemma {:induction false} StageLeft(scripts: seq<string>, i: nat)
    requires i <= |scripts|
    ensures Stage(Leave, scripts, i) == EMPTY
  {
    if i > 0 {
      StageLeft(scripts, i - 1);
    }
  }

  // Nothing goes wrong but that the first script fails and leaves `wreck`.
  ghost predicate FirstFails(t: Attempt, wreck: BuildData)
  {
    && FlawlessCleanup(t.cleanup)
    && (forall i: nat :: i != 2 ==> FlawlessEvent(t.events(i)))
    && t.events(2).exit != 0 && t.events(2).wreck == wreck
  }

  // The snapshots a build leaves whose first script failed.
  ghost function WreckedSnapshots(names: seq<string>, wreck: BuildData): seq<Snapshot>
    requires |names| >= 2
  {
    [Snapshot(names[0], EMPTY), Snapshot(names[1], wreck)]
  }

  // The first step of such a build, up to the second snapshot.
  lemma {:induction false} FirstStepFails(names: seq<string>, scripts: seq<string>, pause: int, events: Events, e: Exec,
      wreck: BuildData) returns (g: Exec)
    requires 2 <= |scripts| <= |names| && pause >= |scripts| && names[0] != names[1]
    requires !e.halted && !e.stop && e.area.live == EMPTY && e.area.snaps == []
    requires (forall i: nat :: i != 2 ==> FlawlessEvent(events(i))) && events(2).exit != 0 && events(2).wreck == wreck
    ensures Run(QueueFrom(true, names, scripts, 0, -1, pause), 1, events, Leave, e)
      == Run(QueueFrom(true, names, scripts, 2, -1, pause), 5, events, Leave, g)
    ensures !g.halted && g.area.live == wreck && g.area.snaps == WreckedSnapshots(names, wreck)
  {
    var c0, d0 := Func(Checkpoint(names[0])), Func(Script(scripts[0]));
    var c1, d1 := Func(Checkpoint(names[1])), Func(Script(scripts[1]));
    QueueStep(names, scripts, 0, -1, pause);
    QueueStep(names, scripts, 1, -1, pause);
    assert FlawlessEvent(events(1)) && FlawlessEvent(events(3)) && FlawlessEvent(events(4));
    RunTwo(c0, d0, QueueFrom(true, names, scripts, 1, -1, pause), 1, events, Leave, e);
    var f := Step(d0, events(2), Leave, Step(c0, events(1), Leave, e));
    assert f.area.snaps == [Snapshot(names[0], EMPTY)] && f.area.live == wreck;
    RunTwo(c1, d1, QueueFrom(true, names, scripts, 2, -1, pause), 3, events, Leave, f);
    assert Position(f.area.snaps, names[1]) == 1;
    g := Step(d1, events(4), Leave, Step(c1, events(3), Leave, f));
  }

  lemma {:induction false} WreckedBuild(names: seq<string>, scripts: seq<string>, a: Area, t: Attempt, wreck: BuildData)
    requires 2 <= |scripts| <= |names| && t.pause >= |scripts| && names[0] != names[1] && CleanEmpty(a)
    requires FirstFails(t, wreck) && t.resume == -1 && !t.stop
    ensures RolledBackFor(names, a, t) && Starts(names, a, t)
    ensures WreckedSnapshots(names, wreck)
      <= Execution(Leave, names, scripts, a, t, |Queue(names, scripts, t)|).area.snaps
  {
    QueueBegins(Leave, names, scripts, a, t);
    DeletionsKeepEmpty(a, names, 0, |names|, t.destroyed);
    CleanUpKeeps(Deletions(a, names, 0, |names|, t.destroyed), t.cleanup);
    var e := Fresh(t.stop, Prepared(a, names, -1, t.destroyed, t.cleanup).1);
    var g := FirstStepFails(names, scripts, t.pause, t.events, e, wreck);
    FlawlessTail(Leave, names, scripts, 2, -1, t.pause, 5, t.events, g);
  }

  // Destroying other snapshots keeps the first ones.
  lemma {:induction false} DeletionsKeepFirst(a: Area, names: seq<string>, lo: nat, destroyed: nat -> bool,
      p: seq<Snapshot>)
    requires lo <= |names| && p <= a.snaps
    requires forall k, i :: 0 <= k < |p| && lo <= i < |names| ==> p[k].name != names[i]
    ensures p <= Deletions(a, names, lo, |names|, destroyed).snaps
    decreases |names| - lo
  {
    if lo < |names| {
      DestroyKeepsFirst(a, names[lo], p);
      DeletionsKeepFirst(if destroyed(lo) then Destroyed(a, names[lo]) else a, names, lo + 1, destroyed, p);
    }
  }

  lemma {:induction false} DestroyKeepsFirst(a: Area, name: string, p: seq<Snapshot>)
    requires p <= a.snaps && forall k :: 0 <= k < |p| ==> p[k].name != name
    ensures p <= Destroyed(a, name).snaps
  {
    assert forall i :: 0 <= i < |p| ==> a.snaps[i] == p[i];
  }

  // Resumed at step 1, nothing going wrong, a build completes with the wreck.
  lemma {:induction false} ResumedWithWreck(names: seq<string>, scripts: seq<string>, b: Area, t: Attempt,
      wreck: BuildData)
    requires Named(names, scripts) && |scripts| >= 2 && WreckedSnapshots(names, wreck) <= b.snaps
    requires Flawless(t) && t.resume == 1 && t.pause >= |scripts|
    ensures Admitted(names, b, t) && RolledBackFor(names, b, t) && Completes(Leave, names, scripts, b, t)
    ensures Built(Leave, names, scripts, b, t) == wreck
  {
    SecondResumable(names, b, wreck);
    assert FlawlessEvent(t.events(1));
    QueueBegins(Leave, names, scripts, b, t);
    DeletionsKeepFirst(b, names, 2, t.destroyed, WreckedSnapshots(names, wreck));
    var start := Prepared(b, names, 1, t.destroyed, t.cleanup).1;
    WreckFound(names, start, wreck);
    WreckComesBack(names, scripts, t.pause, t.events, Fresh(t.stop, start), wreck);
  }

  lemma {:induction false} SecondResumable(names: seq<string>, b: Area, wreck: BuildData)
    requires |names| >= 2 && WreckedSnapshots(names, wreck) <= b.snaps
    ensures Resumable(names, b.snaps, 1)
  {
    assert b.snaps[0] == WreckedSnapshots(names, wreck)[0] && b.snaps[1] == WreckedSnapshots(names, wreck)[1];
    forall i | 0 <= i <= 1
      ensures Holds(b.snaps, names[i]) && Listing(b.snaps)[i].StepName() == names[i]
    {
      assert b.snaps[i].name == names[i];
    }
  }

  lemma {:induction false} WreckFound(names: seq<string>, a: Area, wreck: BuildData)
    requires |names| >= 2 && names[0] != names[1] && WreckedSnapshots(names, wreck) <= a.snaps
    ensures RolledBack(a, names[1]).live == wreck
  {
    assert a.snaps[0] == WreckedSnapshots(names, wreck)[0] && a.snaps[1] == WreckedSnapshots(names, wreck)[1];
    assert Position(a.snaps, names[1]) == 1;
  }

  lemma {:induction false} WreckComesBack(names: seq<string>, scripts: seq<string>, pause: int, events: Events, e: Exec,
      wreck: BuildData)
    requires 2 <= |scripts| <= |names| && pause >= |scripts|
    requires !e.halted && RolledBack(e.area, names[1]).live == wreck && forall k :: FlawlessEvent(events(k))
    ensures var f := Run(QueueFrom(true, names, scripts, 0, 1, pause), 1, events, Leave, e);
      f.status == e.status && f.area.live == wreck
  {
    var c, d := Func(Rollback(names[1])), Func(Script(scripts[1]));
    QueueSkips(names, scripts, 0, 1, pause);
    RunTwo(c, d, QueueFrom(true, names, scripts, 2, 1, pause), 1, events, Leave, e);
    FlawlessPair(c, scripts[1], 1, events, Leave, e);
    assert FlawlessEvent(events(1));
    var g := Step(d, events(2), Leave, Step(c, events(1), Leave, e));
    assert g.area.live == wreck;
    FlawlessTail(Leave, names, scripts, 2, 1, pause, 3, events, g);
    LeftAlone(scripts, 2, wreck);
  }

  // A full build whose first script fails, with the flag off, and a flawless
  // build resumed at step 1, which completes but leaves what the failed
  // script left.
  lemma {:induction false} FailureBreaksRecovery(names: seq<string>, scripts: seq<string>, a: Area, full: Attempt,
      again: Attempt, wreck: BuildData)
    requires Named(names, scripts) && |scripts| >= 2 && CleanEmpty(a) && wreck != EMPTY
    requires FirstFails(full, wreck) && full.resume == -1 && !full.stop && full.pause >= |scripts|
    requires Flawless(again) && again.resume == 1 && again.pause >= |scripts|
    ensures RolledBackFor(names, a, full) && Starts(names, a, full)
    ensures var b := Execution(Leave, names, scripts, a, full, |Queue(names, scripts, full)|).area;
      && Admitted(names, b, again) && RolledBackFor(names, b, again) && Completes(Leave, names, scripts, b, again)
      && Built(Leave, names, scripts, b, again) == wreck != Stage(Leave, scripts, |scripts|)
  {
    WreckedBuild(names, scripts, a, full, wreck);
    var b := Execution(Leave, names, scripts, a, full, |Queue(names, scripts, full)|).area;
    ResumedWithWreck(names, scripts, b, again, wreck);
    LeftAlone(scripts, |scripts|, wreck);
  }

  lemma {:induction false} NotRecoveredWithoutStop(names: seq<string>, scripts: seq<string>, a: Area)
    requires Named(names, scripts) && |scripts| >= 2 && a.snaps == [] && CleanEmpty(a)
    ensures !Recovers(names, scripts, false)
  {
    var wreck: BuildData := map["" := ""];
    assert "" in wreck;
    var well, again := FlawlessBuild(names, scripts, -1, false), FlawlessBuild(names, scripts, 1, false);
    var full := well.(events := (i: nat) => if i == 2 then Event(1, true, wreck) else Event(0, true, EMPTY));
    FailureBreaksRecovery(names, scripts, a, full, again, wreck);
    var b := Execution(Leave, names, scripts, a, full, |Queue(names, scripts, full)|).area;
    OneBuildHistory(Leave, names, scripts, a, full, b);
    assert SameStop([full], false) && !RecoversFrom(Leave, names, scripts, [a, b], [full], again);
  }

  // The check of a resume step runs past the end of the listing only when
  // names are repeated.
  lemma {:induction false} IndexErrorNeedsRepeat(names: seq<string>, snaps: seq<Snapshot>, num: int)
    requires RunsOut(names, snaps, num)
    ensures exists i, j :: 0 <= i < j < |names| && names[i] == names[j]
  {
    var n := |snaps|;
    assert Listing(snaps)[n].StepName() == names[n] == "";
    var k := Position(snaps, names[n]);
    assert Holds(snaps, names[n]) && Listing(snaps)[k].StepName() == names[k];
  }

  // ---------------------------------------------------------------------
  // Clean-ups that fail in silence.
  // ---------------------------------------------------------------------

  // When a full build starts from an empty area: by a rollback that took
  // effect, exactly when @empty holds nothing; by a destruction that took
  // effect, always; otherwise exactly when nothing was there.
  lemma {:induction false} FullBuildStartsEmptyIff(names: seq<string>, a: Area, t: Attempt)
    requires t.resume == -1 && t.cleanup.zfs
    ensures var b, w := Prepared(a, names, -1, t.destroyed, t.cleanup).1, t.cleanup;
      b.live == EMPTY
      <==> if SeesEmpty(a, w) && w.rollback.took then a.empty.value == EMPTY
           else (!SeesEmpty(a, w) && w.destroy.took) || a.live == EMPTY
  {
    DeletionsKeepEmpty(a, names, 0, |names|, t.destroyed);
    DeletionsKeepLive(a, names, 0, |names|, t.destroyed);
  }

  // Builds one after the other; nothing is asked of their rollbacks.
  ghost predicate Builds(fx: Effects, names: seq<string>, scripts: seq<string>, areas: seq<Area>, builds: seq<Attempt>)
    requires |scripts| <= |names|
  {
    && |areas| == |builds| + 1
    && forall i :: 0 <= i < |builds| ==> Follows(fx, names, scripts, areas, builds, i)
  }

  ghost predicate Follows(fx: Effects, names: seq<string>, scripts: seq<string>, areas: seq<Area>, builds: seq<Attempt>,
      i: nat)
    requires |scripts| <= |names| && i < |builds| < |areas|
  {
    && builds[i].resume >= -1 && builds[i].cleanup.zfs
    && areas[i + 1] == After(fx, names, scripts, areas[i], builds[i])
  }

  // While listing works, no build changes what @empty holds.
  lemma {:induction false} BuildKeepsEmpty(fx: Effects, names: seq<string>, scripts: seq<string>, a: Area, t: Attempt)
    requires |scripts| <= |names| && t.resume >= -1 && t.cleanup.zfs && t.cleanup.listed && a.empty.Some?
    ensures After(fx, names, scripts, a, t).empty == a.empty
  {
    var hi := if t.reach.DuringDeletion? then DeletedUpTo(names, t, t.reach.steps) else |names|;
    DeletionsKeepEmpty(a, names, t.resume + 1, hi, t.destroyed);
    if t.reach.DuringQueue? {
      var n := if Starts(names, a, t) then t.reach.items else 0;
      var q := Queue(names, scripts, t);
      RunKeepsEmpty(if n <= |q| then q[..n] else q, 0, t.events, fx,
                    Fresh(false, Prepared(a, names, t.resume, t.destroyed, t.cleanup).1));
    }
  }

  lemma {:induction false} EmptySnapshotFixed(fx: Effects, names: seq<string>, scripts: seq<string>, areas: seq<Area>,
      builds: seq<Attempt>, m: nat, n: nat)
    requires |scripts| <= |names| && Builds(fx, names, scripts, areas, builds) && m <= n < |areas|
    requires areas[m].empty.Some? && forall i :: m <= i < n ==> builds[i].cleanup.listed
    ensures areas[n].empty == areas[m].empty
  {
    if m < n {
      EmptySnapshotFixed(fx, names, scripts, areas, builds, m, n - 1);
      assert Follows(fx, names, scripts, areas, builds, n - 1);
      BuildKeepsEmpty(fx, names, scripts, areas[n - 1], builds[n - 1]);
    }
  }

  // The dataset is not destroyed, which goes unnoticed: an existing dataset
  // counts as created, and @empty is taken of it.
  ghost predicate SilentlyKept(w: Cleanup)
  {
    w.zfs && !w.destroy.took && w.destroy.status != -1 && w.made && w.snapshot == Answer(0, true)
  }

  // One full build whose clean-up fails like this, without @empty and with old
  // data in the area, goes on, and so does every later full build that rolls
  // back to @empty: all of them start from the old data.
  lemma {:induction false} SilentFailureSpoilsFullBuilds(fx: Effects, names: seq<string>, scripts: seq<string>,
      areas: seq<Area>, builds: seq<Attempt>, n: nat, t: Attempt)
    requires |scripts| <= |names| && Builds(fx, names, scripts, areas, builds) && 1 <= n < |areas|
    requires areas[0].empty.None? && builds[0].resume == -1 && builds[0].reach.DuringQueue?
    requires SilentlyKept(builds[0].cleanup) && forall i :: 1 <= i < n ==> builds[i].cleanup.listed
    requires t.resume == -1 && t.cleanup.zfs && t.cleanup.listed && t.cleanup.rollback == Answer(0, true)
    ensures Starts(names, areas[0], builds[0])
    ensures Starts(names, areas[n], t)
    ensures Prepared(areas[n], names, -1, t.destroyed, t.cleanup).1.live == areas[0].live
  {
    var a, first := areas[0], builds[0];
    assert Follows(fx, names, scripts, areas, builds, 0);
    DeletionsKeepEmpty(a, names, 0, |names|, first.destroyed);
    DeletionsKeepLive(a, names, 0, |names|, first.destroyed);
    var q, start := Queue(names, scripts, first), Prepared(a, names, -1, first.destroyed, first.cleanup).1;
    var k := first.reach.items;
    RunKeepsEmpty(if k <= |q| then q[..k] else q, 0, first.events, fx, Fresh(false, start));
    EmptySnapshotFixed(fx, names, scripts, areas, builds, 1, n);
    DeletionsKeepEmpty(areas[n], names, 0, |names|, t.destroyed);
  }
}
