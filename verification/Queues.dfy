// The queue of a build, step by step and item by item.
module Queues {
  import opened Finalizer
  import opened Checkpoints

  lemma {:induction false} RunOne(c: Item, k: nat, events: Events, fx: Effects, e: Exec)
    requires !e.halted
    ensures Run([c], k, events, fx, e) == Step(c, events(k), fx, e)
  {
    assert [c][1..] == [];
  }

  lemma {:induction false} RunTwo(c: Item, d: Item, rest: seq<Item>, k: nat, events: Events, fx: Effects, e: Exec)
    requires !e.halted
    ensures var f := Step(c, events(k), fx, e);
      Run([c, d] + rest, k, events, fx, e)
      == if f.halted then f else Run(rest, k + 2, events, fx, Step(d, events(k + 1), fx, f))
  {
    var q := [c, d] + rest;
    assert q[1..][1..] == rest;
    var f := Step(c, events(k), fx, e);
    assert Run(q, k, events, fx, e) == Run(q[1..], k + 1, events, fx, f);
  }

  lemma {:induction false} QueueStep(names: seq<string>, scripts: seq<string>, cur: nat, resume: int, pause: int)
    requires |scripts| <= |names| && resume < cur < |scripts|
    ensures QueueFrom(true, names, scripts, cur, resume, pause)
      == if cur == pause then [Func(Checkpoint(names[cur]))]
         else [Func(Checkpoint(names[cur])), Func(Script(scripts[cur]))]
              + QueueFrom(true, names, scripts, cur + 1, resume, pause)
  {
  }

  // Steps before the resume step put nothing on the queue.
  lemma {:induction false} QueueSkips(names: seq<string>, scripts: seq<string>, cur: nat, resume: nat, pause: int)
    requires |scripts| <= |names| && cur <= resume < |scripts| && resume < pause
    ensures QueueFrom(true, names, scripts, cur, resume, pause)
      == [Func(Rollback(names[resume])), Func(Script(scripts[resume]))]
         + QueueFrom(true, names, scripts, resume + 1, resume, pause)
    decreases resume - cur
  {
    if cur < resume {
      QueueSkips(names, scripts, cur + 1, resume, pause);
    }
  }

  // ---------------------------------------------------------------------
  // The queue, item by item.
  // ---------------------------------------------------------------------

  // Checkpoint and script of each step from lo to hi-1.
  ghost function Pairs(names: seq<string>, scripts: seq<string>, lo: nat, hi: nat): (items: seq<Item>)
    requires lo <= hi <= |scripts| <= |names|
  {
    seq(2 * (hi - lo), k requires 0 <= k < 2 * (hi - lo) =>
      if k % 2 == 0 then Func(Checkpoint(names[lo + k / 2])) else Func(Script(scripts[lo + k / 2])))
  }

  lemma {:induction false} PairsNext(names: seq<string>, scripts: seq<string>, lo: nat, hi: nat)
    requires lo < hi <= |scripts| <= |names|
    ensures Pairs(names, scripts, lo, hi)
      == [Func(Checkpoint(names[lo])), Func(Script(scripts[lo]))] + Pairs(names, scripts, lo + 1, hi)
  {
    var p, q := Pairs(names, scripts, lo, hi), Pairs(names, scripts, lo + 1, hi);
    forall k | 2 <= k < |p|
      ensures p[k] == q[k - 2]
    {
      assert k % 2 == (k - 2) % 2 && lo + k / 2 == lo + 1 + (k - 2) / 2;
    }
  }

  lemma {:induction false} Regroup(a: seq<Item>, b: seq<Item>, c: seq<Item>)
    ensures a + (b + c) == a + b + c
  {
  }

  // The checkpoint of the pause step, if there is such a step.
  ghost function PauseItem(names: seq<string>, scripts: seq<string>, pause: nat): seq<Item>
    requires |scripts| <= |names|
  {
    if pause < |scripts| then [Func(Checkpoint(names[pause]))] else []
  }

  ghost function Least(m: nat, n: nat): nat
  {
    if m < n then m else n
  }

  // One step more in front of the pairs.
  lemma {:induction false} PairsStep(names: seq<string>, scripts: seq<string>, cur: nat, hi: nat, last: seq<Item>)
    requires cur < hi <= |scripts| <= |names|
    ensures [Func(Checkpoint(names[cur])), Func(Script(scripts[cur]))] + (Pairs(names, scripts, cur + 1, hi) + last)
      == Pairs(names, scripts, cur, hi) + last
  {
    PairsNext(names, scripts, cur, hi);
    Regroup([Func(Checkpoint(names[cur])), Func(Script(scripts[cur]))], Pairs(names, scripts, cur + 1, hi), last);
  }

  lemma {:induction false} QueueEnds(names: seq<string>, scripts: seq<string>, cur: nat, resume: int, pause: nat)
    requires |scripts| <= |names| && resume < cur && cur == Least(pause, |scripts|)
    ensures QueueFrom(true, names, scripts, cur, resume, pause)
      == Pairs(names, scripts, cur, cur) + PauseItem(names, scripts, pause)
  {
    assert Pairs(names, scripts, cur, cur) == [];
    if cur < |scripts| {
      QueueStep(names, scripts, cur, resume, pause);
    }
  }

  lemma {:induction false} QueueIsPairs(names: seq<string>, scripts: seq<string>, cur: nat, resume: int, pause: nat)
    requires |scripts| <= |names| && resume < cur <= |scripts| && cur <= pause
    ensures QueueFrom(true, names, scripts, cur, resume, pause)
      == Pairs(names, scripts, cur, Least(pause, |scripts|)) + PauseItem(names, scripts, pause)
    decreases |scripts| - cur
  {
    var hi := Least(pause, |scripts|);
    if cur == hi {
      QueueEnds(names, scripts, cur, resume, pause);
    } else {
      QueueStep(names, scripts, cur, resume, pause);
      QueueIsPairs(names, scripts, cur + 1, resume, pause);
      PairsStep(names, scripts, cur, hi, PauseItem(names, scripts, pause));
    }
  }

  // The registered queue: rollback and script at the resume step if there is
  // one, then a checkpoint and a script for each later step, up to the pause
  // step, whose checkpoint is the last item.
  lemma {:induction false} QueueShape(names: seq<string>, scripts: seq<string>, resume: int, pause: int)
    requires |scripts| <= |names| && -1 <= resume < |scripts| && resume < pause
    ensures QueueFrom(true, names, scripts, 0, resume, pause)
      == (if resume >= 0 then [Func(Rollback(names[resume])), Func(Script(scripts[resume]))] else [])
         + (Pairs(names, scripts, resume + 1, Least(pause, |scripts|)) + PauseItem(names, scripts, pause))
  {
    if resume >= 0 {
      QueueSkips(names, scripts, 0, resume, pause);
    }
    QueueIsPairs(names, scripts, resume + 1, resume, pause);
  }

  ghost function ScriptItemsFrom(scripts: seq<string>, cur: nat): seq<Item>
    requires cur <= |scripts|
  {
    seq(|scripts| - cur, k requires 0 <= k < |scripts| - cur => Func(Script(scripts[cur + k])))
  }

  // Without checkpointing the queue is the scripts alone.
  lemma {:induction false} PlainQueueShape(names: seq<string>, scripts: seq<string>, cur: nat, resume: int, pause: int)
    requires cur <= |scripts|
    ensures QueueFrom(false, names, scripts, cur, resume, pause) == ScriptItemsFrom(scripts, cur)
    decreases |scripts| - cur
  {
    if cur < |scripts| {
      PlainQueueShape(names, scripts, cur + 1, resume, pause);
      assert ScriptItemsFrom(scripts, cur) == [Func(Script(scripts[cur]))] + ScriptItemsFrom(scripts, cur + 1);
    }
  }

  // ---------------------------------------------------------------------
  // Which queues can be registered.
  // ---------------------------------------------------------------------

  predicate CanRun(file: string, executable: set<string>)
  {
    file != "" && file in executable
  }

  lemma {:induction false} ExecutableIs(name: string, path: string, executable: set<string>)
    ensures Executable(Checkpoint(name), executable) <==> CHECKPOINT_SCRIPT in executable
    ensures Executable(Rollback(name), executable) <==> ROLLBACK_SCRIPT in executable
    ensures Executable(Script(path), executable) <==> CanRun(path, executable)
  {
  }

  // Scripts lo to hi-1 can be run.
  ghost predicate CanRunAll(scripts: seq<string>, lo: nat, hi: nat, executable: set<string>)
    requires hi <= |scripts|
  {
    forall i :: lo <= i < hi ==> CanRun(scripts[i], executable)
  }

  ghost predicate AllExecutable(items: seq<Item>, executable: set<string>)
  {
    forall k :: 0 <= k < |items| && items[k].Func? ==> Executable(items[k].command, executable)
  }

  lemma {:induction false} RegistrableIs(items: seq<Item>, executable: set<string>)
    ensures Registrable(items, executable) <==> AllExecutable(items, executable)
  {
    if items != [] {
      RegistrableIs(items[1..], executable);
      assert forall k :: 0 < k < |items| ==> items[k] == items[1..][k - 1];
    }
  }

  lemma {:induction false} BothExecutable(p: seq<Item>, q: seq<Item>, executable: set<string>)
    ensures AllExecutable(p + q, executable) <==> AllExecutable(p, executable) && AllExecutable(q, executable)
  {
    assert forall k :: 0 <= k < |p| ==> (p + q)[k] == p[k];
    assert forall k :: 0 <= k < |q| ==> (p + q)[|p| + k] == q[k];
  }

  lemma {:induction false} TwoExecutable(c: Command, d: Command, executable: set<string>)
    ensures AllExecutable([Func(c)], executable) <==> Executable(c, executable)
    ensures AllExecutable([Func(c), Func(d)], executable) <==> Executable(c, executable) && Executable(d, executable)
  {
    assert [Func(c)][0] == [Func(c), Func(d)][0] == Func(c) && [Func(c), Func(d)][1] == Func(d);
  }

  lemma {:induction false} PairsExecutable(names: seq<string>, scripts: seq<string>, lo: nat, hi: nat,
      executable: set<string>)
    requires lo <= hi <= |scripts| <= |names|
    ensures AllExecutable(Pairs(names, scripts, lo, hi), executable)
      <==> (lo < hi ==> CHECKPOINT_SCRIPT in executable) && CanRunAll(scripts, lo, hi, executable)
    decreases hi - lo
  {
    if lo < hi {
      var two := [Func(Checkpoint(names[lo])), Func(Script(scripts[lo]))];
      PairsNext(names, scripts, lo, hi);
      PairsExecutable(names, scripts, lo + 1, hi, executable);
      BothExecutable(two, Pairs(names, scripts, lo + 1, hi), executable);
      TwoExecutable(Checkpoint(names[lo]), Script(scripts[lo]), executable);
      ExecutableIs(names[lo], scripts[lo], executable);
    }
  }

  // Every script that is to run must be executable, and so must the two
  // drivers, as far as they are needed.
  lemma {:induction false} QueueRegistrableIff(names: seq<string>, scripts: seq<string>, resume: int, pause: int,
      executable: set<string>)
    requires |scripts| <= |names| && -1 <= resume < |scripts| && resume < pause
    ensures var first, end := if resume < 0 then 0 else resume, Least(pause, |scripts|);
      Registrable(QueueFrom(true, names, scripts, 0, resume, pause), executable)
      <==> (resume >= 0 ==> ROLLBACK_SCRIPT in executable)
           && (resume + 1 < end || pause < |scripts| ==> CHECKPOINT_SCRIPT in executable)
           && CanRunAll(scripts, first, end, executable)
  {
    var end := Least(pause, |scripts|);
    var pairs, last := Pairs(names, scripts, resume + 1, end), PauseItem(names, scripts, pause);
    QueueShape(names, scripts, resume, pause);
    RegistrableIs(QueueFrom(true, names, scripts, 0, resume, pause), executable);
    BothExecutable(pairs, last, executable);
    PairsExecutable(names, scripts, resume + 1, end, executable);
    PauseExecutable(names, scripts, pause, executable);
    if resume >= 0 {
      var begin := [Func(Rollback(names[resume])), Func(Script(scripts[resume]))];
      BothExecutable(begin, pairs + last, executable);
      TwoExecutable(Rollback(names[resume]), Script(scripts[resume]), executable);
      ExecutableIs(names[resume], scripts[resume], executable);
    } else {
      assert [] + (pairs + last) == pairs + last;
    }
  }

  lemma {:induction false} PauseExecutable(names: seq<string>, scripts: seq<string>, pause: nat,
      executable: set<string>)
    requires |scripts| <= |names|
    ensures AllExecutable(PauseItem(names, scripts, pause), executable)
      <==> (pause < |scripts| ==> CHECKPOINT_SCRIPT in executable)
  {
    if pause < |scripts| {
      TwoExecutable(Checkpoint(names[pause]), Checkpoint(names[pause]), executable);
      ExecutableIs(names[pause], "", executable);
    }
  }
}
