// Checkpointing: the steps of a build, which of them can be resumed, and the
// queue of programs a resumed and/or paused build registers.
module Checkpoints {
  import opened Wrappers
  import opened BuildArea
  import opened Finalizer

  datatype BuildStep = BuildStep(num: nat, name: string)

  // A line of the snapshot listing.  The listing ends with an empty line,
  // which the split keeps.
  datatype Line = Entry(name: string) | Blank
  {
    // The listing entry with the dataset prefix removed.
    function StepName(): string
    {
      match this
      case Entry(name) => name
      case Blank => ""
    }
  }

  function Listing(snaps: seq<Snapshot>): (lines: seq<Line>)
    ensures |lines| == |snaps| + 1
    ensures lines[|snaps|] == Blank
    ensures forall i :: 0 <= i < |snaps| ==> lines[i] == Entry(snaps[i].name)
  {
    seq(|snaps|, i requires 0 <= i < |snaps| => Entry(snaps[i].name)) + [Blank]
  }

  function StepNames(steps: seq<BuildStep>): (names: seq<string>)
    ensures |names| == |steps|
    ensures forall i :: 0 <= i < |steps| ==> names[i] == steps[i].name
  {
    seq(|steps|, i requires 0 <= i < |steps| => steps[i].name)
  }

  // r is the last step such that it and all steps before it have a snapshot;
  // -1 when the first step has none.
  ghost predicate LatestResumable(names: seq<string>, snaps: seq<Snapshot>, r: int)
  {
    && -1 <= r < |names|
    && (forall i :: 0 <= i <= r ==> Holds(snaps, names[i]))
    && (r + 1 < |names| ==> !Holds(snaps, names[r + 1]))
  }

  // The check made of a requested resume step.
  ghost predicate Resumable(names: seq<string>, snaps: seq<Snapshot>, num: int)
  {
    && 0 <= num < |names|
    && (forall i :: 0 <= i <= num ==> Holds(snaps, names[i]))
    && num < |Listing(snaps)|
    && (forall i :: 0 <= i <= num ==> Listing(snaps)[i].StepName() == names[i])
  }

  // The check runs past the end of the listing: the steps up to `num` have
  // snapshots, but fewer lines are listed, and all of them are as expected.
  ghost predicate RunsOut(names: seq<string>, snaps: seq<Snapshot>, num: int)
  {
    && 0 <= num < |names|
    && (forall i :: 0 <= i <= num ==> Holds(snaps, names[i]))
    && |Listing(snaps)| <= num
    && (forall i :: 0 <= i < |Listing(snaps)| ==> Listing(snaps)[i].StepName() == names[i])
  }

  // Accepted, refused with a message, or ended by an index error.
  datatype Verdict = Accepted | Refused | Crashed

  // The scripts that are not skipped for being blank.
  function NonBlank(scripts: seq<string>): seq<string>
  {
    if scripts == [] then []
    else
      var last := scripts[|scripts| - 1];
      NonBlank(scripts[..|scripts| - 1]) + (if last == "" then [] else [last])
  }

  lemma {:induction false} NonBlankLength(scripts: seq<string>)
    ensures |NonBlank(scripts)| <= |scripts|
  {
    if scripts != [] {
      NonBlankLength(scripts[..|scripts| - 1]);
    }
  }

  // All scripts but the blank ones.
  lemma {:induction false} NonBlankIs(scripts: seq<string>)
    ensures multiset(NonBlank(scripts)) == multiset(scripts)["" := 0]
  {
    if scripts != [] {
      var front, last := scripts[..|scripts| - 1], scripts[|scripts| - 1];
      NonBlankIs(front);
      assert scripts == front + [last];
    }
  }

  lemma {:induction false} NonBlankAppend(p: seq<string>, q: seq<string>)
    ensures NonBlank(p + q) == NonBlank(p) + NonBlank(q)
  {
    if q == [] {
      assert p + q == p;
    } else {
      NonBlankAppend(p, q[..|q| - 1]);
      assert (p + q)[..|p + q| - 1] == p + q[..|q| - 1];
    }
  }

  // What step `cur`, whose script is `script`, puts on the queue.
  function StepItems(names: seq<string>, script: string, cur: nat, resume: int, pause: int): seq<Item>
    requires cur < |names|
  {
    if cur == pause then [Func(Checkpoint(names[cur]))]
    else if cur > resume then [Func(Checkpoint(names[cur])), Func(Script(script))]
    else if cur == resume then [Func(Rollback(names[cur])), Func(Script(script))]
    else []
  }

  // What one script puts on the queue.
  function ScriptItems(avail: bool, names: seq<string>, script: string, cur: nat, resume: int, pause: int): seq<Item>
    requires avail ==> cur < |names|
  {
    if avail then StepItems(names, script, cur, resume, pause) else [Func(Script(script))]
  }

  // The queue registered from step `cur` on.  Checkpointing may be
  // unavailable; pausing at a step ends the queue there.
  function QueueFrom(avail: bool, names: seq<string>, scripts: seq<string>, cur: nat, resume: int, pause: int)
    : seq<Item>
    requires avail ==> |scripts| <= |names|
    decreases |scripts| - cur, 1
  {
    if cur >= |scripts| then []
    else ScriptItems(avail, names, scripts[cur], cur, resume, pause)
         + QueueAfter(avail, names, scripts, cur, resume, pause)
  }

  function QueueAfter(avail: bool, names: seq<string>, scripts: seq<string>, cur: nat, resume: int, pause: int)
    : seq<Item>
    requires avail ==> |scripts| <= |names|
    requires cur < |scripts|
    decreases |scripts| - cur, 0
  {
    if avail && cur == pause then [] else QueueFrom(avail, names, scripts, cur + 1, resume, pause)
  }

  lemma {:induction false} NextScript(scripts: seq<string>, i: nat)
    requires i < |scripts|
    ensures var all, k := NonBlank(scripts), |NonBlank(scripts[..i])|;
      && k <= |all|
      && |NonBlank(scripts[..i + 1])| == (if scripts[i] == "" then k else k + 1)
      && (scripts[i] != "" ==> k < |all| && all[k] == scripts[i])
  {
    var one := [scripts[i]];
    assert scripts[..i + 1] == scripts[..i] + one;
    assert scripts == scripts[..i + 1] + scripts[i + 1..];
    NonBlankAppend(scripts[..i], one);
    NonBlankAppend(scripts[..i + 1], scripts[i + 1..]);
    assert one[..0] == [];
  }

  predicate Executable(c: Command, executable: set<string>)
  {
    c.Module() != "" && c.Module() in executable
  }

  // Every program of the queue can be registered.
  ghost predicate Registrable(items: seq<Item>, executable: set<string>)
  {
    items == []
    || (Registrable(items[1..], executable) && (items[0].Func? ==> Executable(items[0].command, executable)))
  }

  lemma {:induction false} RegistrableSplit(p: seq<Item>, q: seq<Item>, executable: set<string>)
    ensures Registrable(p + q, executable) <==> Registrable(p, executable) && Registrable(q, executable)
  {
    if p == [] {
      assert p + q == q;
    } else {
      assert (p + q)[1..] == p[1..] + q;
      RegistrableSplit(p[1..], q, executable);
    }
  }

  lemma {:induction false} RegistrableNext(p: seq<Item>, c: Command, executable: set<string>)
    ensures Registrable(p + [Func(c)], executable) <==> Registrable(p, executable) && Executable(c, executable)
  {
    RegistrableSplit(p, [Func(c)], executable);
    assert [Func(c)][1..] == [];
  }

  // Registration so far: while it went well, the queue is `goal` once `left`
  // is added; and `goal` can be registered if and only if it went well so far
  // and `left` can be registered.
  ghost predicate Progress(goal: seq<Item>, queue: seq<Item>, well: bool, registrable: bool, left: seq<Item>,
      executable: set<string>)
  {
    && (well ==> queue + left == goal)
    && (registrable <==> well && Registrable(left, executable))
  }

  // One script later.
  lemma {:induction false} ProgressStep(goal: seq<Item>, queue: seq<Item>, well: bool, registrable: bool,
      items: seq<Item>, rest: seq<Item>, executable: set<string>, next: seq<Item>, good: bool)
    requires Progress(goal, queue, well, registrable, items + rest, executable)
    requires (good <==> Registrable(items, executable)) && (good ==> next == queue + items)
    ensures Progress(goal, next, well && good, registrable, rest, executable)
  {
    assert queue + (items + rest) == (queue + items) + rest;
    RegistrableSplit(items, rest, executable);
  }

  // Nothing is left, or something went wrong.
  lemma {:induction false} ProgressEnds(goal: seq<Item>, queue: seq<Item>, well: bool, registrable: bool,
      left: seq<Item>, executable: set<string>)
    requires Progress(goal, queue, well, registrable, left, executable) && (left == [] || !well)
    ensures (registrable <==> well) && (well ==> queue == goal)
  {
  }

  class Checkpoints {
    var currentStep: int
    var resumeStep: int
    var pauseStep: int
    var avail: bool
    var stepList: seq<BuildStep>
    var stepNum: nat

    ghost predicate Valid()
      reads this
    {
      && |stepList| == stepNum
      && forall i :: 0 <= i < |stepList| ==> stepList[i].num == i
    }

    ghost function Names(): seq<string>
      reads this
    {
      StepNames(stepList)
    }

    constructor (available: bool)
      ensures Valid() && stepList == [] && avail == available
      ensures currentStep == 0 && resumeStep == -1 && pauseStep == 9999
    {
      currentStep, resumeStep, pauseStep := 0, -1, 9999;
      avail, stepList, stepNum := available, [], 0;
    }

    method StepSetup(name: string)
      requires Valid()
      modifies this`stepList, this`stepNum
      ensures Valid() && Names() == old(Names()) + [name]
    {
      stepList := stepList + [BuildStep(stepNum, name)];
      stepNum := stepNum + 1;
    }

    // One step per listed script, blank or not, named by the manifest.
    method CheckpointSetup(scripts: seq<string>, checkpointName: string -> Option<string>) returns (rval: int)
      requires Valid() && stepList == []
      modifies this`stepList, this`stepNum
      ensures Valid()
      ensures rval == 0 || rval == -1
      ensures rval == 0 <==> forall i :: 0 <= i < |scripts| ==> checkpointName(scripts[i]).Some?
      ensures rval == 0 ==> |Names()| == |scripts|
      ensures rval == 0 ==> forall i :: 0 <= i < |scripts| ==> checkpointName(scripts[i]) == Some(Names()[i])
    {
      for i := 0 to |scripts|
        invariant Valid() && |stepList| == i
        invariant forall j :: 0 <= j < i ==> checkpointName(scripts[j]) == Some(Names()[j])
      {
        match checkpointName(scripts[i]) {
          case None => return -1;
          case Some(name) => StepSetup(name);
        }
      }
      rval := 0;
    }

    method DetermineResumeStep(snaps: seq<Snapshot>) returns (highest: int)
      requires Valid()
      ensures LatestResumable(Names(), snaps, highest)
    {
      highest := -1;
      var snapList := Listing(snaps);
      for i := 0 to |stepList|
        invariant highest == i - 1
        invariant forall j :: 0 <= j < i ==> Holds(snaps, stepList[j].name)
      {
        var found: int := -1;
        for k := 0 to |snapList|
          invariant found == -1
          invariant forall j :: 0 <= j < k ==> snapList[j] != Entry(stepList[i].name)
        {
          if snapList[k] == Entry(stepList[i].name) {
            found := stepList[i].num;
            break;
          }
        }
        if found == -1 {
          return;
        }
        highest := if highest > found then highest else found;
      }
    }

    method VerifyResumeStep(num: int, snaps: seq<Snapshot>) returns (v: Verdict)
      requires Valid() && num >= 0
      ensures v == Accepted <==> Resumable(Names(), snaps, num)
      ensures v == Crashed <==> RunsOut(Names(), snaps, num)
    {
      var last := DetermineResumeStep(snaps);
      if last == -1 || num > last {
        return Refused;
      }
      v := CompareWithListing(num, Listing(snaps));
    }

    // The snapshots are listed in the order of the steps up to `num`.
    method CompareWithListing(num: int, snapList: seq<Line>) returns (v: Verdict)
      requires Valid() && 0 <= num < |stepList|
      ensures v == Accepted <==>
        num < |snapList| && forall i :: 0 <= i <= num ==> snapList[i].StepName() == Names()[i]
      ensures v == Crashed <==>
        |snapList| <= num && forall i :: 0 <= i < |snapList| ==> snapList[i].StepName() == Names()[i]
    {
      for i := 0 to |stepList|
        invariant i <= num + 1 && i <= |snapList|
        invariant forall j :: 0 <= j < i ==> snapList[j].StepName() == Names()[j]
      {
        if stepList[i].num > num {
          break;
        }
        if i >= |snapList| {
          return Crashed;
        }
        if snapList[i].StepName() != stepList[i].name {
          return Refused;
        }
      }
      v := Accepted;
    }

    method QueueUpCheckpointScript(fin: DCFinalizer, executable: set<string>) returns (rval: int)
      requires 0 <= currentStep < |stepList|
      modifies fin
      ensures fin.stopOnErr == old(fin.stopOnErr)
      ensures var c := Checkpoint(Names()[currentStep]);
        && rval == (if Executable(c, executable) then SUCCESS else GENERAL_ERR)
        && fin.execlist == if rval == SUCCESS then old(fin.execlist) + [Func(c)] else old(fin.execlist)
    {
      rval := fin.Register(Checkpoint(stepList[currentStep].name), executable);
    }

    method QueueUpRollbackScript(fin: DCFinalizer, executable: set<string>) returns (rval: int)
      requires 0 <= currentStep < |stepList|
      modifies fin
      ensures fin.stopOnErr == old(fin.stopOnErr)
      ensures var c := Rollback(Names()[currentStep]);
        && rval == (if Executable(c, executable) then SUCCESS else GENERAL_ERR)
        && fin.execlist == if rval == SUCCESS then old(fin.execlist) + [Func(c)] else old(fin.execlist)
    {
      rval := fin.Register(Rollback(stepList[currentStep].name), executable);
    }

    method QueueUpFinalizerScript(fin: DCFinalizer, script: string, executable: set<string>) returns (rval: int)
      modifies this`currentStep, fin
      ensures currentStep == old(currentStep) + 1
      ensures fin.stopOnErr == old(fin.stopOnErr)
      ensures var c := Script(script);
        && rval == (if Executable(c, executable) then SUCCESS else GENERAL_ERR)
        && fin.execlist == if rval == SUCCESS then old(fin.execlist) + [Func(c)] else old(fin.execlist)
    {
      rval := fin.Register(Script(script), executable);
      currentStep := currentStep + 1;
    }

    // One script of the manifest: registers what its step needs.  `done` says
    // that nothing further is to be registered.
    method QueueUpStep(script: string, stop: bool, fin: DCFinalizer, executable: set<string>)
      returns (ret: int, done: bool)
      requires 0 <= currentStep && (avail ==> currentStep < |stepList|)
      modifies this`currentStep, fin
      ensures fin.stopOnErr == old(fin.stopOnErr)
      ensures var cur := old(currentStep);
        var items := ScriptItems(avail, Names(), script, cur, resumeStep, pauseStep);
        && (ret == SUCCESS <==> Registrable(items, executable))
        && (ret == SUCCESS ==> fin.execlist == old(fin.execlist) + items)
        && (done <==> (avail && cur == pauseStep) || (stop && ret != SUCCESS))
        && (!done ==> currentStep == cur + 1)
    {
      ret, done := SUCCESS, false;
      ghost var none: seq<Item> := [];
      if !avail {
        RegistrableNext(none, Script(script), executable);
        ret := QueueUpFinalizerScript(fin, script, executable);
        return ret, stop && ret != SUCCESS;
      }
      if currentStep == pauseStep {
        RegistrableNext(none, Checkpoint(stepList[currentStep].name), executable);
        ret := QueueUpCheckpointScript(fin, executable);
        return ret, true;
      }
      if currentStep < resumeStep {
        currentStep := currentStep + 1;
        return;
      }
      ghost var driver := if currentStep > resumeStep
        then Checkpoint(stepList[currentStep].name) else Rollback(stepList[currentStep].name);
      RegistrableNext(none, driver, executable);
      RegistrableNext([Func(driver)], Script(script), executable);
      assert [Func(driver), Func(Script(script))] == [Func(driver)] + [Func(Script(script))];
      if currentStep > resumeStep {
        ret := QueueUpCheckpointScript(fin, executable);
      } else {
        ret := QueueUpRollbackScript(fin, executable);
      }
      if ret != SUCCESS && stop {
        return ret, true;
      }
      var rval := QueueUpFinalizerScript(fin, script, executable);
      if rval != SUCCESS {
        ret, done := GENERAL_ERR, stop;
      }
    }

    // Registers the scripts of the manifest, with the driver scripts around
    // them.  `stopOnErr` is None when the manifest does not say.
    method AddFinalizerScripts(scripts: seq<string>, stopOnErr: Option<bool>, fin: DCFinalizer, executable: set<string>)
      returns (ret: int)
      requires Valid() && currentStep == 0
      requires avail ==> |scripts| <= |stepList|
      modifies this`currentStep, fin
      ensures fin.stopOnErr == old(fin.stopOnErr)
      ensures avail ==> |NonBlank(scripts)| <= |Names()|
      ensures var q := QueueFrom(avail, Names(), NonBlank(scripts), 0, resumeStep, pauseStep);
        && (ret == SUCCESS || ret == GENERAL_ERR)
        && (ret == SUCCESS <==> Registrable(q, executable))
        && (ret == SUCCESS ==> fin.execlist == old(fin.execlist) + q)
    {
      ret := SUCCESS;
      var stop := if stopOnErr.Some? then stopOnErr.value else true;
      NonBlankLength(scripts);
      ghost var all, names, r, p := NonBlank(scripts), Names(), resumeStep, pauseStep;
      ghost var q := QueueFrom(avail, names, all, 0, r, p);
      ghost var goal, ok := fin.execlist + q, Registrable(q, executable);
      for i := 0 to |scripts|
        invariant currentStep == |NonBlank(scripts[..i])|
        invariant fin.stopOnErr == old(fin.stopOnErr) && (ret == SUCCESS || ret == GENERAL_ERR)
        invariant Progress(goal, fin.execlist, ret == SUCCESS, ok,
                           QueueFrom(avail, names, all, currentStep, r, p), executable)
      {
        NextScript(scripts, i);
        if scripts[i] == "" {
          continue;
        }
        ghost var queue, well, cur := fin.execlist, ret == SUCCESS, currentStep;
        ghost var items := ScriptItems(avail, names, scripts[i], cur, r, p);
        assert QueueFrom(avail, names, all, cur, r, p) == items + QueueAfter(avail, names, all, cur, r, p);
        var rval, done := QueueUpStep(scripts[i], stop, fin, executable);
        if rval != SUCCESS {
          ret := GENERAL_ERR;
        }
        ProgressStep(goal, queue, well, ok, items, QueueAfter(avail, names, all, cur, r, p), executable,
                     fin.execlist, rval == SUCCESS);
        if done {
          ProgressEnds(goal, fin.execlist, ret == SUCCESS, ok, QueueAfter(avail, names, all, cur, r, p), executable);
          return;
        }
      }
      assert scripts[..|scripts|] == scripts;
      ProgressEnds(goal, fin.execlist, ret == SUCCESS, ok, QueueFrom(avail, names, all, currentStep, r, p), executable);
    }
  }
}
