// The queue of programs a build runs (DCFinalizer).
module Finalizer {
  import opened Wrappers
  import opened BuildArea

  const SUCCESS := 0
  const GENERAL_ERR := 1

  const CHECKPOINT_SCRIPT := "/usr/share/distro_const/finalizer_checkpoint.py"
  const ROLLBACK_SCRIPT := "/usr/share/distro_const/finalizer_rollback.py"

  // What a queued program does to the build area.
  datatype Command =
    | Checkpoint(step: string)
    | Rollback(step: string)
    | Script(path: string)
  {
    // The file that is executed.
    function Module(): string
    {
      match this
      case Checkpoint(_) => CHECKPOINT_SCRIPT
      case Rollback(_) => ROLLBACK_SCRIPT
      case Script(path) => path
    }
  }

  // Execution parameters: None leaves the stop-on-error flag as it is.
  datatype Item = ExecParams(stopOnErr: Option<bool>) | Func(command: Command)

  // What a finalizer script makes of the build data when it succeeds.
  type Effects = (string, BuildData) -> BuildData

  // The outside world's answer to one program run: its exit status, whether
  // the zfs command it issued took effect (the two driver scripts ignore the
  // status of zfs), and what a failing script left behind.
  datatype Event = Event(exit: int, zfs: bool, wreck: BuildData)

  type Events = nat -> Event

  function Performed(c: Command, ev: Event, fx: Effects, a: Area): Area
  {
    match c
    case Script(path) => a.(live := if ev.exit == 0 then fx(path, a.live) else ev.wreck)
    case Checkpoint(step) => if ev.zfs then Snapshotted(a, step) else a
    case Rollback(step) => if ev.zfs then RolledBack(a, step) else a
  }

  // Every failure, by exit status or by signal, is reported as GENERAL_ERR.
  function ShellStatus(ev: Event): int
  {
    if ev.exit == 0 then SUCCESS else GENERAL_ERR
  }

  // State of one execution: the status to report, the stop-on-error flag,
  // whether the queue was abandoned, the build area, and what has been run.
  datatype Exec = Exec(status: int, stop: bool, halted: bool, area: Area, ran: seq<Command>)

  function Step(item: Item, ev: Event, fx: Effects, e: Exec): Exec
  {
    match item
    case ExecParams(s) => if s.Some? then e.(stop := s.value) else e
    case Func(c) =>
      var rval := ShellStatus(ev);
      Exec(if e.status == SUCCESS then rval else e.status,
           e.stop, e.stop && rval != SUCCESS, Performed(c, ev, fx, e.area), e.ran + [c])
  }

  // Runs `items`, the first of which is number k in the queue.
  function Run(items: seq<Item>, k: nat, events: Events, fx: Effects, e: Exec): Exec
  {
    if items == [] || e.halted then e
    else Run(items[1..], k + 1, events, fx, Step(items[0], events(k), fx, e))
  }

  function Fresh(stop: bool, a: Area): Exec
  {
    Exec(SUCCESS, stop, false, a, [])
  }

  class DCFinalizer {
    var execlist: seq<Item>
    var stopOnErr: bool

    constructor ()
      ensures execlist == [] && !stopOnErr
    {
      execlist, stopOnErr := [], false;
    }

    // Queues a change of the parameters; None leaves one as it is.  A logger
    // and a file for output or errors exclude each other.
    method ChangeExecParams(output: Option<string>, error: Option<string>, stop: Option<bool>, logger: Option<string>)
      returns (rval: int)
      modifies this
      ensures stopOnErr == old(stopOnErr)
      ensures rval == if logger.Some? && (output.Some? || error.Some?) then GENERAL_ERR else SUCCESS
      ensures execlist == if rval == SUCCESS then old(execlist) + [ExecParams(stop)] else old(execlist)
    {
      if logger.Some? && (output.Some? || error.Some?) {
        return GENERAL_ERR;
      }
      execlist := execlist + [ExecParams(stop)];
      rval := SUCCESS;
    }

    // `executable` is the set of files that may be executed.
    method Register(c: Command, executable: set<string>) returns (rval: int)
      modifies this
      ensures stopOnErr == old(stopOnErr)
      ensures rval == if c.Module() != "" && c.Module() in executable then SUCCESS else GENERAL_ERR
      ensures execlist == if rval == SUCCESS then old(execlist) + [Func(c)] else old(execlist)
    {
      if c.Module() == "" || c.Module() !in executable {
        return GENERAL_ERR;
      }
      execlist := execlist + [Func(c)];
      rval := SUCCESS;
    }

    method ProcessShell(c: Command, ev: Event, fx: Effects, pool: Pool) returns (rval: int)
      modifies pool
      ensures rval == ShellStatus(ev)
      ensures pool.area == Performed(c, ev, fx, old(pool.area))
    {
      pool.area := Performed(c, ev, fx, pool.area);
      rval := if ev.exit != 0 then GENERAL_ERR else SUCCESS;
    }

    // Works down the queue; see the lemmas below for what that amounts to.
    method Execute(events: Events, fx: Effects, pool: Pool) returns (status: int)
      modifies this, pool
      ensures execlist == old(execlist)
      ensures var e := Run(execlist, 0, events, fx, Fresh(old(stopOnErr), old(pool.area)));
        status == e.status && stopOnErr == e.stop && pool.area == e.area
    {
      status := SUCCESS;
      ghost var ran: seq<Command> := [];
      ghost var goal := Run(execlist, 0, events, fx, Fresh(stopOnErr, pool.area));
      var i := 0;
      while i < |execlist|
        invariant 0 <= i <= |execlist|
        invariant execlist == old(execlist)
        invariant goal == Run(execlist[i..], i, events, fx, Exec(status, stopOnErr, false, pool.area, ran))
      {
        match execlist[i] {
          case Func(c) =>
            var rval := ProcessShell(c, events(i), fx, pool);
            if status == SUCCESS {
              status := rval;
            }
            ran := ran + [c];
            if stopOnErr && rval != SUCCESS {
              return;
            }
          case ExecParams(s) =>
            if s.Some? {
              stopOnErr := s.value;
            }
        }
        assert execlist[i..][1..] == execlist[i + 1..];
        i := i + 1;
      }
    }
  }

  // ---------------------------------------------------------------------
  // What executing a queue amounts to, said without the queue interpreter.
  // ---------------------------------------------------------------------

  // The stop-on-error flag in force once `items` have been gone through.
  ghost function FlagAfter(items: seq<Item>, stop: bool): bool
  {
    if items == [] then stop
    else
      var last := items[|items| - 1];
      if last.ExecParams? && last.stopOnErr.Some? then last.stopOnErr.value
      else FlagAfter(items[..|items| - 1], stop)
  }

  // Program number j fails while the flag is set.
  ghost predicate GuardedFailure(items: seq<Item>, events: Events, stop: bool, j: nat)
    requires j < |items|
  {
    items[j].Func? && ShellStatus(events(j)) != SUCCESS && FlagAfter(items[..j], stop)
  }

  ghost function Commands(items: seq<Item>): seq<Command>
  {
    if items == [] then []
    else Commands(items[..|items| - 1])
         + (var last := items[|items| - 1]; if last.Func? then [last.command] else [])
  }

  // No failure among the first n items.
  ghost predicate NoFailure(items: seq<Item>, events: Events, n: nat)
    requires n <= |items|
  {
    forall j :: 0 <= j < n ==> items[j].Func? ==> ShellStatus(events(j)) == SUCCESS
  }

  lemma {:induction false} RunSplit(p: seq<Item>, q: seq<Item>, k: nat, events: Events, fx: Effects, e: Exec)
    ensures Run(p + q, k, events, fx, e) == Run(q, k + |p|, events, fx, Run(p, k, events, fx, e))
    decreases |p|
  {
    if p == [] {
      assert p + q == q;
    } else if !e.halted {
      assert (p + q)[1..] == p[1..] + q;
      RunSplit(p[1..], q, k + 1, events, fx, Step(p[0], events(k), fx, e));
    }
  }

  // One item more.
  lemma {:induction false} RunNext(items: seq<Item>, n: nat, events: Events, fx: Effects, e: Exec)
    requires n < |items| && !Run(items[..n], 0, events, fx, e).halted
    ensures Run(items[..n + 1], 0, events, fx, e) == Step(items[n], events(n), fx, Run(items[..n], 0, events, fx, e))
  {
    assert items[..n + 1] == items[..n] + [items[n]];
    RunSplit(items[..n], [items[n]], 0, events, fx, e);
    assert [items[n]][1..] == [];
  }

  // As long as no guarded failure happens, everything runs and nothing is halted.
  lemma {:induction false} RunsThrough(items: seq<Item>, n: nat, events: Events, fx: Effects, stop: bool, a: Area)
    requires n <= |items|
    requires forall j: nat :: j < n ==> !GuardedFailure(items, events, stop, j)
    ensures var e := Run(items[..n], 0, events, fx, Fresh(stop, a));
      !e.halted && e.ran == Commands(items[..n]) && e.stop == FlagAfter(items[..n], stop)
      && (e.status == SUCCESS <==> NoFailure(items, events, n))
      && (e.status != SUCCESS ==> e.status == GENERAL_ERR)
  {
    if n == 0 {
      assert items[..n] == [];
    } else {
      RunsThrough(items, n - 1, events, fx, stop, a);
      RunNext(items, n - 1, events, fx, Fresh(stop, a));
      assert items[..n][..n - 1] == items[..n - 1];
      assert !GuardedFailure(items, events, stop, n - 1);
    }
  }

  // Executing a queue runs exactly the programs up to and including the first
  // one that fails while the stop flag is set, and none after it.  The status
  // is SUCCESS exactly when none of the programs that ran failed.
  lemma {:induction false} ExecuteStopsAtFirstGuardedFailure(items: seq<Item>, events: Events, fx: Effects, stop: bool,
      a: Area, n: nat)
    requires n <= |items|
    requires forall j: nat :: j < n ==> !GuardedFailure(items, events, stop, j)
    requires n < |items| ==> GuardedFailure(items, events, stop, n)
    ensures var e := Run(items, 0, events, fx, Fresh(stop, a));
      && e.ran == Commands(if n < |items| then items[..n + 1] else items)
      && e.halted == (n < |items|)
      && (e.status == SUCCESS <==> n == |items| && NoFailure(items, events, n))
      && (e.status != SUCCESS ==> e.status == GENERAL_ERR)
  {
    RunsThrough(items, n, events, fx, stop, a);
    if n < |items| {
      var p, q, e0 := items[..n], items[n..], Fresh(stop, a);
      assert items == p + q;
      RunSplit(p, q, 0, events, fx, e0);
      HaltsHere(q, n, events, fx, Run(p, 0, events, fx, e0));
      var done := items[..n + 1];
      assert done[..n] == p && done[n] == items[n];
    } else {
      assert items[..n] == items;
    }
  }

  // A failure while the flag is set is the last thing that runs.
  lemma {:induction false} HaltsHere(items: seq<Item>, k: nat, events: Events, fx: Effects, e: Exec)
    requires items != [] && items[0].Func? && !e.halted && e.stop && ShellStatus(events(k)) != SUCCESS
    ensures Run(items, k, events, fx, e) == Step(items[0], events(k), fx, e)
  {
  }
}
