// Crash recovery: whatever builds were run, paused, failed or killed before,
// a resumed build that completes leaves what one uninterrupted build leaves.
module Recovery {
  import opened Wrappers
  import opened BuildArea
  import opened Finalizer
  import opened Checkpoints
  import opened DistroConst
  import opened Queues

  // The build data after the first i scripts, starting from nothing.
  function Stage(fx: Effects, scripts: seq<string>, i: nat): BuildData
    requires i <= |scripts|
  {
    if i == 0 then EMPTY else fx(scripts[i - 1], Stage(fx, scripts, i - 1))
  }

  // The (first) step called `name`, or |names|.
  ghost function StepOf(names: seq<string>, name: string): nat
  {
    if names == [] || names[0] == name then 0 else 1 + StepOf(names[1..], name)
  }

  // No step among the first n shares its name with a later one.
  ghost predicate Unrepeated(names: seq<string>, n: nat)
  {
    forall i, j :: 0 <= i < n && i < j < |names| ==> names[i] != names[j]
  }

  // The steps with scripts have names of their own.
  ghost predicate Named(names: seq<string>, scripts: seq<string>)
  {
    |scripts| <= |names| && Unrepeated(names, |scripts|)
  }

  lemma {:induction false} StepOfName(names: seq<string>, n: nat, i: nat)
    requires Unrepeated(names, n) && i < |names| && (i < n || StepOf(names, names[i]) < n)
    ensures StepOf(names, names[i]) == i
  {
    FirstOfName(names, names[i]);
    NotBefore(names, i);
  }

  lemma {:induction false} FirstOfName(names: seq<string>, name: string)
    ensures StepOf(names, name) <= |names|
    ensures StepOf(names, name) < |names| ==> names[StepOf(names, name)] == name
    ensures forall j :: 0 <= j < StepOf(names, name) ==> names[j] != name
  {
    if names != [] && names[0] != name {
      FirstOfName(names[1..], name);
      assert forall j :: 0 < j < |names| ==> names[j] == names[1..][j - 1];
    }
  }

  lemma {:induction false} NotBefore(names: seq<string>, i: nat)
    requires i < |names|
    ensures StepOf(names, names[i]) <= i
  {
    FirstOfName(names, names[i]);
  }

  // The snapshot holds the result of the scripts before its step.
  ghost predicate SnapTrue(fx: Effects, names: seq<string>, scripts: seq<string>, s: Snapshot)
    requires |scripts| <= |names|
  {
    var i := StepOf(names, s.name);
    i < |scripts| && s.contents == Stage(fx, scripts, i)
  }

  ghost predicate SnapsTrue(fx: Effects, names: seq<string>, scripts: seq<string>, snaps: seq<Snapshot>)
    requires |scripts| <= |names|
  {
    forall k :: 0 <= k < |snaps| ==> SnapTrue(fx, names, scripts, snaps[k])
  }

  // Creation order follows step order.
  ghost predicate SnapsOrdered(names: seq<string>, snaps: seq<Snapshot>)
  {
    forall j, k :: 0 <= j < k < |snaps| ==> StepOf(names, snaps[j].name) < StepOf(names, snaps[k].name)
  }

  ghost predicate Good(fx: Effects, names: seq<string>, scripts: seq<string>, snaps: seq<Snapshot>)
    requires |scripts| <= |names|
  {
    SnapsTrue(fx, names, scripts, snaps) && SnapsOrdered(names, snaps)
  }

  // All snapshots belong to steps before `i`.
  ghost predicate Below(names: seq<string>, snaps: seq<Snapshot>, i: nat)
  {
    forall k :: 0 <= k < |snaps| ==> StepOf(names, snaps[k].name) < i
  }

  // ---------------------------------------------------------------------
  // What each zfs command keeps.
  // ---------------------------------------------------------------------

  lemma {:induction false} SnapshotKeeps(fx: Effects, names: seq<string>, scripts: seq<string>, a: Area, i: nat)
    requires Named(names, scripts) && i < |scripts|
    requires Good(fx, names, scripts, a.snaps) && Below(names, a.snaps, i) && a.live == Stage(fx, scripts, i)
    ensures var b := Snapshotted(a, names[i]);
      b.live == a.live && b.snaps == a.snaps + [Snapshot(names[i], a.live)]
      && Good(fx, names, scripts, b.snaps) && Below(names, b.snaps, i + 1)
  {
    StepOfName(names, |scripts|, i);
  }

  lemma {:induction false} DestroyKeeps(fx: Effects, names: seq<string>, scripts: seq<string>, a: Area, name: string)
    requires |scripts| <= |names| && Good(fx, names, scripts, a.snaps)
    ensures Good(fx, names, scripts, Destroyed(a, name).snaps)
  {
    var k, b := Position(a.snaps, name), Destroyed(a, name).snaps;
    if k < |a.snaps| {
      forall j | 0 <= j < |b|
        ensures b[j] == a.snaps[if j < k then j else j + 1] && SnapTrue(fx, names, scripts, b[j])
      {
        assert SnapTrue(fx, names, scripts, a.snaps[if j < k then j else j + 1]);
      }
    }
  }

  // Destroying one snapshot leaves every other one in place.
  lemma {:induction false} DestroyLeaves(a: Area, name: string, other: string)
    requires other != name
    ensures Holds(Destroyed(a, name).snaps, other) <==> Holds(a.snaps, other)
  {
    var k, b := Position(a.snaps, name), Destroyed(a, name).snaps;
    if k < |a.snaps| {
      var p, q := Position(a.snaps, other), Position(b, other);
      if p < |a.snaps| {
        assert b[if p < k then p else p - 1].name == other;
      }
      if q < |b| {
        assert a.snaps[if q < k then q else q + 1].name == other;
      }
    }
  }

  lemma {:induction false} DeletionsKeep(fx: Effects, names: seq<string>, scripts: seq<string>, a: Area, lo: nat,
      hi: nat, destroyed: nat -> bool, r: int)
    requires Named(names, scripts) && hi <= |names| && r < lo && r < |scripts|
    requires Good(fx, names, scripts, a.snaps)
    ensures var b := Deletions(a, names, lo, hi, destroyed);
      Good(fx, names, scripts, b.snaps) && b.live == a.live
      && (0 <= r ==> (Holds(b.snaps, names[r]) <==> Holds(a.snaps, names[r])))
    decreases hi - lo
  {
    if lo < hi {
      DestroyKeeps(fx, names, scripts, a, names[lo]);
      if 0 <= r {
        DestroyLeaves(a, names[lo], names[r]);
      }
      DeletionsKeep(fx, names, scripts, if destroyed(lo) then Destroyed(a, names[lo]) else a,
                    lo + 1, hi, destroyed, r);
    }
  }

  lemma {:induction false} PrefixTrue(fx: Effects, names: seq<string>, scripts: seq<string>, snaps: seq<Snapshot>,
      n: nat)
    requires |scripts| <= |names| && n <= |snaps| && SnapsTrue(fx, names, scripts, snaps)
    ensures SnapsTrue(fx, names, scripts, snaps[..n])
  {
    forall j | 0 <= j < n
      ensures SnapTrue(fx, names, scripts, snaps[..n][j])
    {
      assert SnapTrue(fx, names, scripts, snaps[j]);
    }
  }

  lemma {:induction false} PrefixOrdered(names: seq<string>, snaps: seq<Snapshot>, n: nat)
    requires n <= |snaps| && SnapsOrdered(names, snaps)
    ensures SnapsOrdered(names, snaps[..n])
  {
  }

  lemma {:induction false} PrefixBelow(names: seq<string>, snaps: seq<Snapshot>, k: nat)
    requires SnapsOrdered(names, snaps) && k < |snaps|
    ensures Below(names, snaps[..k + 1], StepOf(names, snaps[k].name) + 1)
  {
    var p := snaps[..k + 1];
    forall j | 0 <= j < |p|
      ensures StepOf(names, p[j].name) < StepOf(names, snaps[k].name) + 1
    {
      if j < k {
        assert p[j] == snaps[j] && StepOf(names, snaps[j].name) < StepOf(names, snaps[k].name);
      } else {
        assert p[j] == snaps[k];
      }
    }
  }

  // The snapshots up to and including the one at k.
  lemma {:induction false} PrefixKeeps(fx: Effects, names: seq<string>, scripts: seq<string>, snaps: seq<Snapshot>,
      k: nat)
    requires |scripts| <= |names| && k < |snaps| && Good(fx, names, scripts, snaps)
    ensures Good(fx, names, scripts, snaps[..k + 1])
    ensures Below(names, snaps[..k + 1], StepOf(names, snaps[k].name) + 1)
  {
    PrefixTrue(fx, names, scripts, snaps, k + 1);
    PrefixOrdered(names, snaps, k + 1);
    PrefixBelow(names, snaps, k);
  }

  lemma {:induction false} RollbackKeeps(fx: Effects, names: seq<string>, scripts: seq<string>, a: Area, r: nat)
    requires Named(names, scripts) && r < |scripts|
    requires Good(fx, names, scripts, a.snaps) && Holds(a.snaps, names[r])
    ensures var b := RolledBack(a, names[r]);
      b.live == Stage(fx, scripts, r) && Good(fx, names, scripts, b.snaps) && Below(names, b.snaps, r + 1)
  {
    var k := Position(a.snaps, names[r]);
    StepOfName(names, |scripts|, r);
    assert SnapTrue(fx, names, scripts, a.snaps[k]);
    PrefixKeeps(fx, names, scripts, a.snaps, k);
  }

  // ---------------------------------------------------------------------
  // What executing the queue keeps, however far it gets.
  // ---------------------------------------------------------------------

  // The stop-on-error flag is on, or there is no second script that could
  // follow a failed one.
  ghost predicate Careful(stop: bool, scripts: seq<string>)
  {
    stop || |scripts| <= 1
  }

  // The execution is about to do step `cur`, on the right data, or has come to
  // the end after a failure.
  ghost predicate AtStep(fx: Effects, names: seq<string>, scripts: seq<string>, e: Exec, cur: nat)
    requires |scripts| <= |names|
  {
    && !e.halted && Careful(e.stop, scripts) && cur <= |scripts|
    && (e.area.live == Stage(fx, scripts, cur) || (cur == |scripts| && e.status != SUCCESS))
    && Good(fx, names, scripts, e.area.snaps)
    && Below(names, e.area.snaps, cur)
  }

  lemma {:induction false} CheckpointStep(fx: Effects, names: seq<string>, scripts: seq<string>, e: Exec, cur: nat,
      ev: Event)
    requires Named(names, scripts) && cur < |scripts|
    requires AtStep(fx, names, scripts, e, cur)
    ensures var f := Step(Func(Checkpoint(names[cur])), ev, fx, e);
      && Good(fx, names, scripts, f.area.snaps) && Below(names, f.area.snaps, cur + 1)
      && f.area.live == e.area.live == Stage(fx, scripts, cur) && f.stop == e.stop
  {
    SnapshotKeeps(fx, names, scripts, e.area, cur);
  }

  lemma {:induction false} ScriptStep(fx: Effects, names: seq<string>, scripts: seq<string>, e: Exec, cur: nat,
      ev: Event)
    requires |scripts| <= |names| && cur < |scripts|
    requires !e.halted && Careful(e.stop, scripts) && e.area.live == Stage(fx, scripts, cur)
    requires Good(fx, names, scripts, e.area.snaps) && Below(names, e.area.snaps, cur + 1)
    ensures var f := Step(Func(Script(scripts[cur])), ev, fx, e);
      if f.halted then Good(fx, names, scripts, f.area.snaps) else AtStep(fx, names, scripts, f, cur + 1)
  {
  }

  lemma {:induction false} PrefixOfPair(p: seq<Item>, c: Item, d: Item, rest: seq<Item>)
    requires |p| >= 2 && p <= [c, d] + rest
    ensures p == [c, d] + p[2..] && p[2..] <= rest
  {
    assert p[0] == ([c, d] + rest)[0] && p[1] == ([c, d] + rest)[1];
    assert ([c, d] + rest)[2..] == rest;
  }

  // Executing any initial part p of the queue from step `cur` on keeps every
  // snapshot true; executing all of it leaves the finished data.
  lemma {:induction false} TailKeeps(fx: Effects, names: seq<string>, scripts: seq<string>, cur: nat, resume: int,
      pause: int, p: seq<Item>, k: nat, events: Events, e: Exec)
    requires Named(names, scripts) && resume < cur
    requires AtStep(fx, names, scripts, e, cur)
    requires p <= QueueFrom(true, names, scripts, cur, resume, pause)
    ensures var f := Run(p, k, events, fx, e);
      && Good(fx, names, scripts, f.area.snaps)
      && (p == QueueFrom(true, names, scripts, cur, resume, pause) && f.status == SUCCESS && !(cur <= pause < |scripts|)
          ==> f.area.live == Stage(fx, scripts, |scripts|))
    decreases |scripts| - cur, 1
  {
    if p == [] {
      assert cur < |scripts| ==> QueueFrom(true, names, scripts, cur, resume, pause) != [];
    } else {
      CheckpointStep(fx, names, scripts, e, cur, events(k));
      var c := Func(Checkpoint(names[cur]));
      var f := Step(c, events(k), fx, e);
      if |p| == 1 {
        assert p[1..] == [];
        assert Run(p, k, events, fx, e) == f;
      } else {
        AfterDriver(fx, names, scripts, cur, resume, pause, c, p, k, events, e, f);
      }
    }
  }

  // The rest of a step whose driver script, a checkpoint or a rollback, has
  // been executed: its finalizer script and the steps after it.
  lemma {:induction false} AfterDriver(fx: Effects, names: seq<string>, scripts: seq<string>, cur: nat, resume: int,
      pause: int, c: Item, p: seq<Item>, k: nat, events: Events, e: Exec, f: Exec)
    requires Named(names, scripts) && resume <= cur < |scripts|
    requires !e.halted && f == Step(c, events(k), fx, e)
    requires Careful(f.stop, scripts) && f.area.live == Stage(fx, scripts, cur)
    requires f.halted ==> f.status != SUCCESS
    requires Good(fx, names, scripts, f.area.snaps) && Below(names, f.area.snaps, cur + 1)
    requires |p| >= 2
    requires p <= [c, Func(Script(scripts[cur]))] + QueueFrom(true, names, scripts, cur + 1, resume, pause)
    ensures var g := Run(p, k, events, fx, e);
      && Good(fx, names, scripts, g.area.snaps)
      && (p[2..] == QueueFrom(true, names, scripts, cur + 1, resume, pause) && g.status == SUCCESS
          && !(cur < pause < |scripts|)
          ==> g.area.live == Stage(fx, scripts, |scripts|))
    decreases |scripts| - cur, 0
  {
    var d := Func(Script(scripts[cur]));
    PrefixOfPair(p, c, d, QueueFrom(true, names, scripts, cur + 1, resume, pause));
    RunTwo(c, d, p[2..], k, events, fx, e);
    if !f.halted {
      ScriptStep(fx, names, scripts, f, cur, events(k + 1));
      var g := Step(d, events(k + 1), fx, f);
      if !g.halted {
        TailKeeps(fx, names, scripts, cur + 1, resume, pause, p[2..], k + 2, events, g);
      }
    }
  }

  // ---------------------------------------------------------------------
  // Histories of builds.
  // ---------------------------------------------------------------------

  // How far a build got before it ended or was killed.
  datatype Reach = DuringDeletion(steps: nat) | DuringQueue(items: nat)

  // One build: its resume (-1 for none) and pause step, its stop-on-error
  // flag, and what the outside world did to it.
  datatype Attempt = Attempt(resume: int, pause: int, stop: bool, destroyed: nat -> bool, cleanup: Cleanup,
                             events: Events, reach: Reach)

  // The option parser lets the build start.
  ghost predicate Admitted(names: seq<string>, a: Area, t: Attempt)
  {
    -1 <= t.resume < t.pause && (t.resume == -1 || Resumable(names, a.snaps, t.resume))
  }

  // @empty, if it is there, holds nothing.
  ghost predicate CleanEmpty(a: Area)
  {
    a.empty.Some? ==> a.empty.value == EMPTY
  }

  // The area is a dataset, and the command that is to empty it (the rollback
  // to @empty or the destruction of the dataset) took effect, or its failure
  // was noticed.
  ghost predicate Empties(a: Area, w: Cleanup)
  {
    var answer := if SeesEmpty(a, w) then w.rollback else w.destroy;
    w.zfs && (answer.took || answer.status == -1)
  }

  // The zfs rollback of this build took effect: the one to @empty, or the one
  // to the resume step, which is item 1 of the queue.
  ghost predicate RolledBackFor(names: seq<string>, a: Area, t: Attempt)
    requires t.resume >= -1
  {
    if t.resume == -1 then Empties(Deletions(a, names, 0, |names|, t.destroyed), t.cleanup) else t.events(1).zfs
  }

  lemma {:induction false} CleanUpKeeps(a: Area, w: Cleanup)
    requires CleanEmpty(a) && Empties(a, w)
    ensures var (rval, b) := CleanedUp(a, w);
      && CleanEmpty(b) && (b.snaps == [] || b.snaps == a.snaps)
      && (rval == 0 ==> b.live == EMPTY && b.snaps == [])
  {
  }

  ghost function Queue(names: seq<string>, scripts: seq<string>, t: Attempt): seq<Item>
    requires |scripts| <= |names|
  {
    FullQueue(Some(t.stop), true, names, scripts, t.resume, t.pause)
  }

  // How the first n items of the queue execute.
  ghost function Execution(fx: Effects, names: seq<string>, scripts: seq<string>, a: Area, t: Attempt, n: nat): Exec
    requires |scripts| <= |names| && t.resume >= -1
  {
    var q := Queue(names, scripts, t);
    Run(if n <= |q| then q[..n] else q, 0, t.events, fx,
        Fresh(false, Prepared(a, names, t.resume, t.destroyed, t.cleanup).1))
  }

  // The clean-up, if there is one, lets the build go on.
  ghost predicate Starts(names: seq<string>, a: Area, t: Attempt)
    requires t.resume >= -1
  {
    Prepared(a, names, t.resume, t.destroyed, t.cleanup).0 == 0
  }

  // The step deletion has reached after n steps.
  ghost function DeletedUpTo(names: seq<string>, t: Attempt, n: nat): (hi: nat)
    requires t.resume >= -1
    ensures hi <= |names|
  {
    if t.resume + 1 + n <= |names| then t.resume + 1 + n else |names|
  }

  // The build area a build leaves.
  ghost function After(fx: Effects, names: seq<string>, scripts: seq<string>, a: Area, t: Attempt): Area
    requires |scripts| <= |names| && t.resume >= -1
  {
    match t.reach
    case DuringDeletion(n) => Deletions(a, names, t.resume + 1, DeletedUpTo(names, t, n), t.destroyed)
    case DuringQueue(n) => Execution(fx, names, scripts, a, t, if Starts(names, a, t) then n else 0).area
  }

  // A step with a snapshot is one whose script is to run.
  lemma {:induction false} SnapshotHasScript(fx: Effects, names: seq<string>, scripts: seq<string>,
      snaps: seq<Snapshot>, r: nat)
    requires Named(names, scripts) && r < |names|
    requires Good(fx, names, scripts, snaps) && Holds(snaps, names[r])
    ensures r < |scripts|
  {
    assert SnapTrue(fx, names, scripts, snaps[Position(snaps, names[r])]);
    StepOfName(names, |scripts|, r);
  }

  // What a build relies on and keeps.
  ghost predicate Sound(fx: Effects, names: seq<string>, scripts: seq<string>, a: Area)
    requires |scripts| <= |names|
  {
    Good(fx, names, scripts, a.snaps) && CleanEmpty(a)
  }

  lemma {:induction false} DeletionsKeepEmpty(a: Area, names: seq<string>, lo: nat, hi: nat, destroyed: nat -> bool)
    requires hi <= |names|
    ensures Deletions(a, names, lo, hi, destroyed).empty == a.empty
    decreases hi - lo
  {
    if lo < hi {
      DeletionsKeepEmpty(if destroyed(lo) then Destroyed(a, names[lo]) else a, names, lo + 1, hi, destroyed);
    }
  }

  lemma {:induction false} RunKeepsEmpty(items: seq<Item>, k: nat, events: Events, fx: Effects, e: Exec)
    ensures Run(items, k, events, fx, e).area.empty == e.area.empty
    decreases |items|
  {
    if items != [] && !e.halted {
      RunKeepsEmpty(items[1..], k + 1, events, fx, Step(items[0], events(k), fx, e));
    }
  }

  // The queue of a build begins on the right data: a resumed build at its
  // resume step, a full build at step 0.
  lemma {:induction false} AttemptStarts(fx: Effects, names: seq<string>, scripts: seq<string>, a: Area, t: Attempt)
    requires Named(names, scripts)
    requires Sound(fx, names, scripts, a) && Admitted(names, a, t) && RolledBackFor(names, a, t)
    ensures var (rval, b) := Prepared(a, names, t.resume, t.destroyed, t.cleanup);
      && Sound(fx, names, scripts, b)
      && (t.resume == -1 && rval == 0 ==> b.live == EMPTY && b.snaps == [])
      && (t.resume >= 0 ==> t.resume < |scripts| && Holds(b.snaps, names[t.resume]))
  {
    var d := Deletions(a, names, t.resume + 1, |names|, t.destroyed);
    if t.resume >= 0 {
      SnapshotHasScript(fx, names, scripts, a.snaps, t.resume);
    }
    DeletionsKeep(fx, names, scripts, a, t.resume + 1, |names|, t.destroyed, t.resume);
    DeletionsKeepEmpty(a, names, t.resume + 1, |names|, t.destroyed);
    if t.resume == -1 {
      CleanUpKeeps(d, t.cleanup);
    }
  }

  lemma {:induction false} HaltIsFailure(items: seq<Item>, k: nat, events: Events, fx: Effects, e: Exec)
    requires e.halted ==> e.status != SUCCESS
    ensures var f := Run(items, k, events, fx, e); f.halted ==> f.status != SUCCESS
    decreases |items|
  {
    if items != [] && !e.halted {
      HaltIsFailure(items[1..], k + 1, events, fx, Step(items[0], events(k), fx, e));
    }
  }

  // The part of the queue that starts with the rollback.
  lemma {:induction false} ResumedKeeps(fx: Effects, names: seq<string>, scripts: seq<string>, r: nat, pause: int,
      p: seq<Item>, events: Events, e: Exec)
    requires Named(names, scripts) && r < |scripts| && r < pause
    requires !e.halted && Careful(e.stop, scripts)
    requires Good(fx, names, scripts, e.area.snaps) && Holds(e.area.snaps, names[r])
    requires events(1).zfs
    requires p <= QueueFrom(true, names, scripts, 0, r, pause)
    ensures var f := Run(p, 1, events, fx, e);
      && Good(fx, names, scripts, f.area.snaps)
      && (p == QueueFrom(true, names, scripts, 0, r, pause) && f.status == SUCCESS && pause >= |scripts|
          ==> f.area.live == Stage(fx, scripts, |scripts|))
  {
    QueueSkips(names, scripts, 0, r, pause);
    if p != [] {
      RollbackKeeps(fx, names, scripts, e.area, r);
      var f := Step(Func(Rollback(names[r])), events(1), fx, e);
      if |p| == 1 {
        assert p[1..] == [];
        assert Run(p, 1, events, fx, e) == f;
      } else {
        AfterDriver(fx, names, scripts, r, r, pause, Func(Rollback(names[r])), p, 1, events, e, f);
      }
    }
  }

  lemma {:induction false} AttemptKeeps(fx: Effects, names: seq<string>, scripts: seq<string>, a: Area, t: Attempt,
      n: nat)
    requires Named(names, scripts) && Careful(t.stop, scripts)
    requires Sound(fx, names, scripts, a) && Admitted(names, a, t) && RolledBackFor(names, a, t)
    requires n > 0 ==> Starts(names, a, t)
    ensures var e := Execution(fx, names, scripts, a, t, n);
      && Sound(fx, names, scripts, e.area)
      && (n >= |Queue(names, scripts, t)| && t.pause >= |scripts| && e.status == SUCCESS
          ==> e.area.live == Stage(fx, scripts, |scripts|))
  {
    AttemptStarts(fx, names, scripts, a, t);
    var start := Prepared(a, names, t.resume, t.destroyed, t.cleanup).1;
    var q := Queue(names, scripts, t);
    var all := QueueFrom(true, names, scripts, 0, t.resume, t.pause);
    var p := if n <= |q| then q[..n] else q;
    assert n >= |q| ==> p == q;
    var e0, e1 := Fresh(false, start), Fresh(t.stop, start);
    HaltIsFailure(p, 0, t.events, fx, e0);
    RunKeepsEmpty(p, 0, t.events, fx, e0);
    if p != [] {
      assert q[1..] == all && p[1..] <= all;
      assert Run(p, 0, t.events, fx, e0) == Run(p[1..], 1, t.events, fx, e1);
      if t.resume == -1 {
        TailKeeps(fx, names, scripts, 0, -1, t.pause, p[1..], 1, t.events, e1);
      } else {
        ResumedKeeps(fx, names, scripts, t.resume, t.pause, p[1..], t.events, e1);
      }
    }
  }

  // A sequence of builds, each admitted in the area the one before left.
  ghost predicate History(fx: Effects, names: seq<string>, scripts: seq<string>, areas: seq<Area>, builds: seq<Attempt>)
    requires |scripts| <= |names|
  {
    && |areas| == |builds| + 1
    && areas[0].snaps == [] && CleanEmpty(areas[0])
    && forall i :: 0 <= i < |builds| ==> Succeeds(fx, names, scripts, areas, builds, i)
  }

  // Build i is admitted, its rollback took effect, and it left the next area.
  ghost predicate Succeeds(fx: Effects, names: seq<string>, scripts: seq<string>, areas: seq<Area>,
      builds: seq<Attempt>, i: nat)
    requires |scripts| <= |names| && i < |builds| < |areas|
  {
    && Admitted(names, areas[i], builds[i]) && RolledBackFor(names, areas[i], builds[i])
    && areas[i + 1] == After(fx, names, scripts, areas[i], builds[i])
  }

  ghost predicate AllCareful(builds: seq<Attempt>, scripts: seq<string>)
  {
    forall i :: 0 <= i < |builds| ==> Careful(builds[i].stop, scripts)
  }

  lemma {:induction false} AfterKeeps(fx: Effects, names: seq<string>, scripts: seq<string>, a: Area, t: Attempt)
    requires Named(names, scripts) && Careful(t.stop, scripts)
    requires Sound(fx, names, scripts, a) && Admitted(names, a, t) && RolledBackFor(names, a, t)
    ensures Sound(fx, names, scripts, After(fx, names, scripts, a, t))
  {
    if t.reach.DuringQueue? {
      AttemptKeeps(fx, names, scripts, a, t, if Starts(names, a, t) then t.reach.items else 0);
    } else {
      var hi := DeletedUpTo(names, t, t.reach.steps);
      if t.resume >= 0 {
        SnapshotHasScript(fx, names, scripts, a.snaps, t.resume);
      }
      DeletionsKeep(fx, names, scripts, a, t.resume + 1, hi, t.destroyed, t.resume);
      DeletionsKeepEmpty(a, names, t.resume + 1, hi, t.destroyed);
    }
  }

  // After any sequence of builds, cut short anywhere, every snapshot present
  // holds the result of exactly the scripts before its step, creation order
  // follows step order, and @empty holds nothing.
  lemma {:induction false} HistoryKeepsSnapshots(fx: Effects, names: seq<string>, scripts: seq<string>,
      areas: seq<Area>, builds: seq<Attempt>, i: nat)
    requires Named(names, scripts) && AllCareful(builds, scripts)
    requires History(fx, names, scripts, areas, builds) && i < |areas|
    ensures Sound(fx, names, scripts, areas[i])
  {
    if i > 0 {
      HistoryKeepsSnapshots(fx, names, scripts, areas, builds, i - 1);
      assert Succeeds(fx, names, scripts, areas, builds, i - 1);
      AfterKeeps(fx, names, scripts, areas[i - 1], builds[i - 1]);
    }
  }

  // A build completes: its clean-up lets it go on, its whole queue is executed
  // without a failure, and it was not asked to pause at any of its steps.
  ghost predicate Completes(fx: Effects, names: seq<string>, scripts: seq<string>, a: Area, t: Attempt)
    requires |scripts| <= |names| && t.resume >= -1
  {
    && t.pause >= |scripts| && Starts(names, a, t)
    && Execution(fx, names, scripts, a, t, |Queue(names, scripts, t)|).status == SUCCESS
  }

  // The data a build leaves when its whole queue is executed.
  ghost function Built(fx: Effects, names: seq<string>, scripts: seq<string>, a: Area, t: Attempt): BuildData
    requires |scripts| <= |names| && t.resume >= -1
  {
    Execution(fx, names, scripts, a, t, |Queue(names, scripts, t)|).area.live
  }

  // Crash recovery.  Whatever happened before, a build, resumed or not, that
  // completes leaves exactly the data a full build of an empty area leaves.
  lemma {:induction false} CrashRecovery(fx: Effects, names: seq<string>, scripts: seq<string>, areas: seq<Area>,
      builds: seq<Attempt>, resumed: Attempt, blank: Area, full: Attempt)
    requires Named(names, scripts) && AllCareful(builds + [resumed, full], scripts)
    requires History(fx, names, scripts, areas, builds)
    requires var a := areas[|builds|];
      Admitted(names, a, resumed) && RolledBackFor(names, a, resumed) && Completes(fx, names, scripts, a, resumed)
    requires blank.snaps == [] && CleanEmpty(blank) && Admitted(names, blank, full) && full.resume == -1
    requires RolledBackFor(names, blank, full) && Completes(fx, names, scripts, blank, full)
    ensures Built(fx, names, scripts, areas[|builds|], resumed) == Built(fx, names, scripts, blank, full)
    ensures Built(fx, names, scripts, areas[|builds|], resumed) == Stage(fx, scripts, |scripts|)
  {
    var all := builds + [resumed, full];
    assert all[|builds|] == resumed && all[|builds| + 1] == full && all[..|builds|] == builds;
    assert forall i :: 0 <= i < |builds| ==> builds[i] == all[i];
    HistoryKeepsSnapshots(fx, names, scripts, areas, builds, |builds|);
    AttemptKeeps(fx, names, scripts, areas[|builds|], resumed, |Queue(names, scripts, resumed)|);
    AttemptKeeps(fx, names, scripts, blank, full, |Queue(names, scripts, full)|);
  }

  // In every area some history leaves, the steps that can be resumed are
  // exactly those from the first up to the latest resumable one.
  lemma {:induction false} ResumableExactlyUpToLatest(fx: Effects, names: seq<string>, scripts: seq<string>,
      areas: seq<Area>, builds: seq<Attempt>, i: nat, last: int, r: int)
    requires Named(names, scripts) && AllCareful(builds, scripts)
    requires History(fx, names, scripts, areas, builds) && i < |areas|
    requires LatestResumable(names, areas[i].snaps, last)
    ensures Resumable(names, areas[i].snaps, r) <==> 0 <= r <= last
  {
    HistoryKeepsSnapshots(fx, names, scripts, areas, builds, i);
    if 0 <= r <= last {
      PrefixPresent(fx, names, scripts, areas[i].snaps, r);
    }
  }

  // Snapshots of steps 0..r are all there: then they are the first r+1.
  lemma {:induction false} PrefixPresent(fx: Effects, names: seq<string>, scripts: seq<string>, snaps: seq<Snapshot>,
      r: nat)
    requires Named(names, scripts) && r < |names|
    requires Good(fx, names, scripts, snaps)
    requires forall i :: 0 <= i <= r ==> Holds(snaps, names[i])
    ensures r < |snaps| && forall i :: 0 <= i <= r ==> snaps[i].name == names[i]
    ensures Position(snaps, names[r]) == r < |scripts|
  {
    if r > 0 {
      PrefixPresent(fx, names, scripts, snaps, r - 1);
    }
    assert Holds(snaps, names[r]);
    NextPresent(fx, names, scripts, snaps, r);
  }

  lemma {:induction false} NextPresent(fx: Effects, names: seq<string>, scripts: seq<string>, snaps: seq<Snapshot>,
      r: nat)
    requires Named(names, scripts) && r < |names| && Good(fx, names, scripts, snaps) && Holds(snaps, names[r])
    requires r <= |snaps| && (r > 0 ==> snaps[r - 1].name == names[r - 1])
    ensures r < |scripts| && r < |snaps| && Position(snaps, names[r]) == r
  {
    SnapshotHasScript(fx, names, scripts, snaps, r);
    PlacedAfter(names, |scripts|, snaps, r, Position(snaps, names[r]));
  }

  lemma {:induction false} PlacedAfter(names: seq<string>, n: nat, snaps: seq<Snapshot>, r: nat, k: nat)
    requires Unrepeated(names, n) && r < n <= |names| && SnapsOrdered(names, snaps)
    requires r <= |snaps| && (r > 0 ==> snaps[r - 1].name == names[r - 1])
    requires k < |snaps| && snaps[k].name == names[r]
    ensures k == r
  {
    StepOfName(names, n, r);
    if r > 0 {
      StepOfName(names, n, r - 1);
    }
    NextInOrder(names, snaps, r, k);
  }

  lemma {:induction false} NextInOrder(names: seq<string>, snaps: seq<Snapshot>, r: nat, k: nat)
    requires SnapsOrdered(names, snaps) && r <= |snaps| && k < |snaps|
    requires r > 0 ==> StepOf(names, snaps[r - 1].name) == r - 1
    requires StepOf(names, snaps[k].name) == r
    ensures k == r
  {
    var at := if r < |snaps| then StepOf(names, snaps[r].name) else r;
    var before := if r > 0 then StepOf(names, snaps[r - 1].name) else 0;
  }

  // ---------------------------------------------------------------------
  // The program's own builds.
  // ---------------------------------------------------------------------

  // The queue that a build which is not interrupted executes: all of it, or
  // nothing when some program of it cannot be registered.
  ghost function Executed(names: seq<string>, scripts: seq<string>, t: Attempt, executable: set<string>): Reach
    requires |scripts| <= |names|
  {
    var q := Queue(names, scripts, t);
    DuringQueue(if Registrable(q, executable) then |q| else 0)
  }

  // A manifest that says nothing leaves the flag off.
  ghost predicate IsSetTo(stopOnErr: Option<bool>, stop: bool)
  {
    stop == (stopOnErr == Some(true))
  }

  lemma {:induction false} FlagSet(stopOnErr: Option<bool>, names: seq<string>, scripts: seq<string>, t: Attempt,
      executable: set<string>, events: Events, fx: Effects, a: Area)
    requires |scripts| <= |names| && IsSetTo(stopOnErr, t.stop)
    ensures var p, q := FullQueue(stopOnErr, true, names, scripts, t.resume, t.pause), Queue(names, scripts, t);
      && Run(p, 0, events, fx, Fresh(false, a)) == Run(q, 0, events, fx, Fresh(false, a))
      && (Registrable(p, executable) <==> Registrable(q, executable))
  {
    var p, q := FullQueue(stopOnErr, true, names, scripts, t.resume, t.pause), Queue(names, scripts, t);
    assert p[1..] == q[1..];
    assert Run(q, 0, events, fx, Fresh(false, a)) == Run(q[1..], 1, events, fx, Fresh(t.stop, a));
    assert Run(p, 0, events, fx, Fresh(false, a)) == Run(p[1..], 1, events, fx, Fresh(t.stop, a));
  }

  // What `DistroConst.Build` promises of a build that proceeds, with
  // checkpointing, says that it is an admitted build of a history and leaves
  // the area such a build leaves.  It reports success exactly when it ran its
  // whole queue without a failure.
  lemma {:induction false} BuildIsAttempt(fx: Effects, names: seq<string>, scripts: seq<string>, a: Area,
      resumeFrom: Option<string>, opts: seq<Opt>, stopOnErr: Option<bool>, executable: set<string>, t: Attempt,
      status: int, b: Area)
    requires |scripts| <= |names| && t.resume >= -1
    requires Acceptable(names, true, a.snaps, resumeFrom, opts, t.resume, t.pause)
    requires IsSetTo(stopOnErr, t.stop) && t.reach == Executed(names, scripts, t, executable)
    requires var q := FullQueue(stopOnErr, true, names, scripts, t.resume, t.pause);
      var (rval, start) := Prepared(a, names, t.resume, t.destroyed, t.cleanup);
      Ended(q, executable, t.events, fx, rval, start, status, b)
    ensures Admitted(names, a, t)
    ensures b == After(fx, names, scripts, a, t)
    ensures status == SUCCESS && t.pause >= |scripts|
      <==> Completes(fx, names, scripts, a, t) && Registrable(Queue(names, scripts, t), executable)
  {
    var q := Queue(names, scripts, t);
    var start := Prepared(a, names, t.resume, t.destroyed, t.cleanup).1;
    FlagSet(stopOnErr, names, scripts, t, executable, t.events, fx, start);
    assert q[..|q|] == q && q[..0] == [];
  }
}
