// Where a build that stopped can be resumed.
module Restarts {
  import opened BuildArea
  import opened Finalizer
  import opened Checkpoints
  import opened DistroConst
  import opened Queues
  import opened Recovery

  // The snapshots of the first n steps, all taken of the right data.
  ghost function SnapshotsTaken(fx: Effects, names: seq<string>, scripts: seq<string>, n: nat): (snaps: seq<Snapshot>)
    requires n <= |scripts| <= |names|
    ensures |snaps| == n
    ensures forall i :: 0 <= i < n ==> snaps[i] == Snapshot(names[i], Stage(fx, scripts, i))
  {
    if n == 0 then []
    else SnapshotsTaken(fx, names, scripts, n - 1) + [Snapshot(names[n - 1], Stage(fx, scripts, n - 1))]
  }

  // The step a build begins with: its resume step, or step 0.
  ghost function FirstStep(t: Attempt): nat
    requires t.resume >= -1
  {
    if t.resume == -1 then 0 else t.resume
  }

  // Two items of the queue belong to each step from the first on: the driver,
  // a rollback for the resume step and a checkpoint for the others, and the
  // script.  Item 0 sets the stop-on-error flag.
  ghost predicate DriverWorks(events: Events, first: nat, i: nat)
    requires first <= i
  {
    events(1 + 2 * (i - first)).exit == 0 && events(1 + 2 * (i - first)).zfs
  }

  ghost predicate ScriptSucceeds(events: Events, first: nat, i: nat)
    requires first <= i
  {
    events(2 + 2 * (i - first)).exit == 0
  }

  // All goes well from step `lo` up to step j, where the build stops: it
  // pauses there, or the script of step j fails.
  ghost predicate StopsAt(events: Events, first: nat, lo: nat, j: nat, pause: int)
    requires first <= lo <= j
  {
    && (forall i: nat :: lo <= i <= j ==> DriverWorks(events, first, i))
    && (forall i: nat :: lo <= i < j ==> ScriptSucceeds(events, first, i))
    && (pause == j || (pause > j && !ScriptSucceeds(events, first, j)))
  }

  lemma {:induction false} StopsLater(events: Events, first: nat, lo: nat, j: nat, pause: int)
    requires first <= lo <= j && StopsAt(events, first, lo, j, pause)
    ensures DriverWorks(events, first, lo)
    ensures lo < j ==> ScriptSucceeds(events, first, lo) && StopsAt(events, first, lo + 1, j, pause)
    ensures lo == j && pause != j ==> !ScriptSucceeds(events, first, j)
  {
  }

  // A build about to do step `cur`, all snapshots so far taken.
  ghost predicate InStep(fx: Effects, names: seq<string>, scripts: seq<string>, e: Exec, cur: nat)
    requires cur <= |scripts| <= |names|
  {
    && !e.halted && e.area.live == Stage(fx, scripts, cur)
    && e.area.snaps == SnapshotsTaken(fx, names, scripts, cur)
  }

  // The driver of step `cur` has done its work.
  ghost predicate Driven(fx: Effects, names: seq<string>, scripts: seq<string>, f: Exec, cur: nat)
    requires cur < |scripts| <= |names|
  {
    && !f.halted && f.area.live == Stage(fx, scripts, cur)
    && f.area.snaps == SnapshotsTaken(fx, names, scripts, cur + 1)
  }

  lemma {:induction false} WhoIsTaken(fx: Effects, names: seq<string>, scripts: seq<string>, n: nat, i: nat)
    requires n <= |scripts| <= |names| && Unrepeated(names, n) && i < |names|
    ensures Holds(SnapshotsTaken(fx, names, scripts, n), names[i]) <==> i < n
  {
    var snaps := SnapshotsTaken(fx, names, scripts, n);
    if i < n {
      assert snaps[i].name == names[i];
    }
  }

  lemma {:induction false} CheckpointDrives(fx: Effects, names: seq<string>, scripts: seq<string>, cur: nat, ev: Event,
      e: Exec)
    requires cur < |scripts| <= |names| && Unrepeated(names, cur) && InStep(fx, names, scripts, e, cur)
    requires ev.exit == 0 && ev.zfs
    ensures Driven(fx, names, scripts, Step(Func(Checkpoint(names[cur])), ev, fx, e), cur)
  {
    WhoIsTaken(fx, names, scripts, cur, cur);
  }

  lemma {:induction false} SnapIsTaken(fx: Effects, names: seq<string>, scripts: seq<string>, s: Snapshot, i: nat)
    requires Named(names, scripts) && i < |scripts| && SnapTrue(fx, names, scripts, s) && s.name == names[i]
    ensures s == Snapshot(names[i], Stage(fx, scripts, i))
  {
    StepOfName(names, |scripts|, i);
  }

  lemma {:induction false} TakenFrom(fx: Effects, names: seq<string>, scripts: seq<string>, p: seq<Snapshot>, n: nat)
    requires n <= |scripts| <= |names| && |p| == n
    requires forall i :: 0 <= i < n ==> p[i] == Snapshot(names[i], Stage(fx, scripts, i))
    ensures p == SnapshotsTaken(fx, names, scripts, n)
  {
  }

  lemma {:induction false} PrefixIsTaken(fx: Effects, names: seq<string>, scripts: seq<string>, snaps: seq<Snapshot>,
      n: nat)
    requires Named(names, scripts) && n <= |scripts| && n <= |snaps| && SnapsTrue(fx, names, scripts, snaps)
    requires forall i :: 0 <= i < n ==> snaps[i].name == names[i]
    ensures snaps[..n] == SnapshotsTaken(fx, names, scripts, n)
  {
    forall i | 0 <= i < n
      ensures snaps[i] == Snapshot(names[i], Stage(fx, scripts, i))
    {
      SnapIsTaken(fx, names, scripts, snaps[i], i);
    }
    TakenFrom(fx, names, scripts, snaps[..n], n);
  }

  // The rollback leaves the snapshots of the steps up to the resume step.
  lemma {:induction false} RollbackDrives(fx: Effects, names: seq<string>, scripts: seq<string>, r: nat, ev: Event,
      e: Exec)
    requires Named(names, scripts) && r < |scripts| && Good(fx, names, scripts, e.area.snaps)
    requires forall i :: 0 <= i <= r ==> Holds(e.area.snaps, names[i])
    requires !e.halted && ev.exit == 0 && ev.zfs
    ensures Driven(fx, names, scripts, Step(Func(Rollback(names[r])), ev, fx, e), r)
  {
    PrefixPresent(fx, names, scripts, e.area.snaps, r);
    PrefixIsTaken(fx, names, scripts, e.area.snaps, r + 1);
    RollbackKeeps(fx, names, scripts, e.area, r);
  }

  // The script of a step whose driver has done its work.
  lemma {:induction false} PairRuns(fx: Effects, names: seq<string>, scripts: seq<string>, c: Item, cur: nat,
      rest: seq<Item>, k: nat, events: Events, e: Exec) returns (g: Exec)
    requires cur < |scripts| <= |names| && !e.halted && c.Func?
    requires Driven(fx, names, scripts, Step(c, events(k), fx, e), cur)
    ensures Run([c, Func(Script(scripts[cur]))] + rest, k, events, fx, e) == Run(rest, k + 2, events, fx, g)
    ensures if events(k + 1).exit == 0 then InStep(fx, names, scripts, g, cur + 1)
            else g.area.snaps == SnapshotsTaken(fx, names, scripts, cur + 1) && (e.stop ==> g.halted)
    ensures g.stop == e.stop
  {
    RunTwo(c, Func(Script(scripts[cur])), rest, k, events, fx, e);
    g := Step(Func(Script(scripts[cur])), events(k + 1), fx, Step(c, events(k), fx, e));
  }

  lemma {:induction false} FromStep(fx: Effects, names: seq<string>, scripts: seq<string>, cur: nat, j: nat, first: nat,
      resume: int, pause: int, events: Events, e: Exec)
    requires Named(names, scripts) && first <= cur <= j < |scripts| && resume < cur
    requires InStep(fx, names, scripts, e, cur) && StopsAt(events, first, cur, j, pause) && (e.stop || pause == j)
    ensures Run(QueueFrom(true, names, scripts, cur, resume, pause), 1 + 2 * (cur - first), events, fx, e).area.snaps
      == SnapshotsTaken(fx, names, scripts, j + 1)
    decreases j - cur, 1
  {
    var c, k := Func(Checkpoint(names[cur])), 1 + 2 * (cur - first);
    StopsLater(events, first, cur, j, pause);
    CheckpointDrives(fx, names, scripts, cur, events(k), e);
    QueueStep(names, scripts, cur, resume, pause);
    if cur == pause {
      RunOne(c, k, events, fx, e);
    } else {
      FromDriver(fx, names, scripts, c, cur, j, first, resume, pause, events, e);
    }
  }

  lemma {:induction false} FromDriver(fx: Effects, names: seq<string>, scripts: seq<string>, c: Item, cur: nat, j: nat,
      first: nat, resume: int, pause: int, events: Events, e: Exec)
    requires Named(names, scripts) && first <= cur <= j < |scripts| && resume <= cur && cur != pause
    requires !e.halted && c.Func?
    requires Driven(fx, names, scripts, Step(c, events(1 + 2 * (cur - first)), fx, e), cur)
    requires StopsAt(events, first, cur, j, pause) && (e.stop || pause == j)
    ensures Run([c, Func(Script(scripts[cur]))] + QueueFrom(true, names, scripts, cur + 1, resume, pause),
                1 + 2 * (cur - first), events, fx, e).area.snaps
      == SnapshotsTaken(fx, names, scripts, j + 1)
    decreases j - cur, 0
  {
    var k, rest := 1 + 2 * (cur - first), QueueFrom(true, names, scripts, cur + 1, resume, pause);
    var g := PairRuns(fx, names, scripts, c, cur, rest, k, events, e);
    StopsLater(events, first, cur, j, pause);
    if cur < j {
      FromStep(fx, names, scripts, cur + 1, j, first, resume, pause, events, g);
    }
  }

  // The snapshots of the steps up to the resume step survive the deletions.
  lemma {:induction false} ResumeStepsSurvive(fx: Effects, names: seq<string>, scripts: seq<string>, a: Area, r: nat,
      destroyed: nat -> bool)
    requires Named(names, scripts) && r < |scripts| && Good(fx, names, scripts, a.snaps)
    requires forall i :: 0 <= i <= r ==> Holds(a.snaps, names[i])
    ensures var b := Deletions(a, names, r + 1, |names|, destroyed);
      Good(fx, names, scripts, b.snaps) && forall i :: 0 <= i <= r ==> Holds(b.snaps, names[i])
  {
    forall i | 0 <= i <= r
      ensures Holds(Deletions(a, names, r + 1, |names|, destroyed).snaps, names[i])
    {
      DeletionsKeep(fx, names, scripts, a, r + 1, |names|, destroyed, i);
    }
    DeletionsKeep(fx, names, scripts, a, r + 1, |names|, destroyed, r);
  }

  // A build from the start of its queue, its flag set.
  lemma {:induction false} QueueBegins(fx: Effects, names: seq<string>, scripts: seq<string>, a: Area, t: Attempt)
    requires |scripts| <= |names| && t.resume >= -1
    ensures Execution(fx, names, scripts, a, t, |Queue(names, scripts, t)|)
      == Run(QueueFrom(true, names, scripts, 0, t.resume, t.pause), 1, t.events, fx,
             Fresh(t.stop, Prepared(a, names, t.resume, t.destroyed, t.cleanup).1))
  {
    var q := Queue(names, scripts, t);
    assert q[..|q|] == q && q[1..] == QueueFrom(true, names, scripts, 0, t.resume, t.pause);
  }

  // A resumed build finds the snapshots of the steps up to its resume step.
  lemma {:induction false} ResumeStepsPresent(fx: Effects, names: seq<string>, scripts: seq<string>, a: Area,
      t: Attempt)
    requires Named(names, scripts) && Good(fx, names, scripts, a.snaps)
    requires Admitted(names, a, t) && 0 <= t.resume < |scripts|
    ensures var b := Prepared(a, names, t.resume, t.destroyed, t.cleanup).1;
      Good(fx, names, scripts, b.snaps) && forall i :: 0 <= i <= t.resume ==> Holds(b.snaps, names[i])
  {
    ResumeStepsSurvive(fx, names, scripts, a, t.resume, t.destroyed);
  }

  lemma {:induction false} StoppedLeaves(fx: Effects, names: seq<string>, scripts: seq<string>, a: Area, t: Attempt,
      j: nat)
    requires Named(names, scripts) && Sound(fx, names, scripts, a)
    requires Admitted(names, a, t) && RolledBackFor(names, a, t) && Starts(names, a, t)
    requires FirstStep(t) <= j < |scripts| && StopsAt(t.events, FirstStep(t), FirstStep(t), j, t.pause)
    requires t.stop || t.pause == j
    ensures Execution(fx, names, scripts, a, t, |Queue(names, scripts, t)|).area.snaps
      == SnapshotsTaken(fx, names, scripts, j + 1)
  {
    QueueBegins(fx, names, scripts, a, t);
    AttemptStarts(fx, names, scripts, a, t);
    var e := Fresh(t.stop, Prepared(a, names, t.resume, t.destroyed, t.cleanup).1);
    if t.resume == -1 {
      FromStart(fx, names, scripts, j, t.pause, t.events, e);
    } else {
      ResumeStepsPresent(fx, names, scripts, a, t);
      FromRollback(fx, names, scripts, t.resume, j, t.pause, t.events, e);
    }
  }

  lemma {:induction false} FromStart(fx: Effects, names: seq<string>, scripts: seq<string>, j: nat, pause: int,
      events: Events, e: Exec)
    requires Named(names, scripts) && j < |scripts| && StopsAt(events, 0, 0, j, pause)
    requires !e.halted && (e.stop || pause == j) && e.area.live == EMPTY && e.area.snaps == []
    ensures Run(QueueFrom(true, names, scripts, 0, -1, pause), 1, events, fx, e).area.snaps
      == SnapshotsTaken(fx, names, scripts, j + 1)
  {
    FromStep(fx, names, scripts, 0, j, 0, -1, pause, events, e);
  }

  lemma {:induction false} FromRollback(fx: Effects, names: seq<string>, scripts: seq<string>, r: nat, j: nat,
      pause: int, events: Events, e: Exec)
    requires Named(names, scripts) && r <= j < |scripts| && r < pause && StopsAt(events, r, r, j, pause)
    requires !e.halted && (e.stop || pause == j) && Good(fx, names, scripts, e.area.snaps)
    requires forall i :: 0 <= i <= r ==> Holds(e.area.snaps, names[i])
    ensures Run(QueueFrom(true, names, scripts, 0, r, pause), 1, events, fx, e).area.snaps
      == SnapshotsTaken(fx, names, scripts, j + 1)
  {
    assert DriverWorks(events, r, r);
    RollbackDrives(fx, names, scripts, r, events(1), e);
    QueueSkips(names, scripts, 0, r, pause);
    FromDriver(fx, names, scripts, Func(Rollback(names[r])), r, j, r, r, pause, events, e);
  }

  // A build, resumed or not, whose script j fails and stops it, or that pauses
  // at step j, can be resumed at step j and no later one, whatever builds
  // there were before, when its driver scripts worked.
  lemma {:induction false} StoppedBuildResumesWhereItStopped(fx: Effects, names: seq<string>, scripts: seq<string>,
      areas: seq<Area>, builds: seq<Attempt>, t: Attempt, j: nat)
    requires Named(names, scripts) && AllCareful(builds, scripts) && History(fx, names, scripts, areas, builds)
    requires var a := areas[|builds|]; Admitted(names, a, t) && RolledBackFor(names, a, t) && Starts(names, a, t)
    requires FirstStep(t) <= j < |scripts| && StopsAt(t.events, FirstStep(t), FirstStep(t), j, t.pause)
    requires t.stop || t.pause == j
    ensures var b := Execution(fx, names, scripts, areas[|builds|], t, |Queue(names, scripts, t)|).area;
      && LatestResumable(names, b.snaps, j)
      && Resumable(names, b.snaps, j)
  {
    HistoryKeepsSnapshots(fx, names, scripts, areas, builds, |builds|);
    StoppedLeaves(fx, names, scripts, areas[|builds|], t, j);
    var b := Execution(fx, names, scripts, areas[|builds|], t, |Queue(names, scripts, t)|).area;
    forall i | 0 <= i < |names|
      ensures Holds(b.snaps, names[i]) <==> i <= j
    {
      WhoIsTaken(fx, names, scripts, j + 1, i);
    }
  }
}
