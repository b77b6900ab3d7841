// One build: options, deletion of checkpoints, clean-up, the queue, its execution.
module DistroConst {
  import opened Wrappers
  import opened BuildArea
  import opened Finalizer
  import opened Checkpoints
  import opened Decimal

  datatype Opt = Help | ResumeAt(step: string) | PauseAt(step: string) | ResumeLast | ListSteps

  // 0, 1 and -1 of the option parser, and its usage exception.
  datatype Decision = Proceed | Listed | Failed | Usage

  // The step a name or a number on the command line stands for: a step name
  // first, else a step number.
  ghost predicate Denotes(names: seq<string>, arg: string, num: nat)
  {
    && num < |names|
    && if arg in names then names[num] == arg && forall j :: 0 <= j < num ==> names[j] != arg
       else arg != "" && AllDigits(arg) && Value(arg) == num
  }

  method StepFromName(cp: Checkpoints, name: string) returns (step: Option<BuildStep>)
    requires cp.Valid()
    ensures step.Some? ==> Denotes(cp.Names(), name, step.value.num)
    ensures step.None? ==> forall n: nat :: !Denotes(cp.Names(), name, n)
  {
    for i := 0 to |cp.stepList|
      invariant forall j :: 0 <= j < i ==> cp.Names()[j] != name
    {
      if name == cp.stepList[i].name {
        return Some(cp.stepList[i]);
      }
    }
    if name != "" && AllDigits(name) {
      for i := 0 to |cp.stepList|
        invariant Value(name) >= i
      {
        if Value(name) == cp.stepList[i].num {
          return Some(cp.stepList[i]);
        }
      }
    }
    step := None;
  }

  // Deletes the checkpoints of steps lo..hi-1; `destroyed` says which of the
  // zfs destroy commands took effect.
  function Deletions(a: Area, names: seq<string>, lo: nat, hi: nat, destroyed: nat -> bool): Area
    requires hi <= |names|
    decreases hi - lo
  {
    if lo >= hi then a
    else Deletions(if destroyed(lo) then Destroyed(a, names[lo]) else a, names, lo + 1, hi, destroyed)
  }

  method DeleteCheckpoint(step: BuildStep, destroyed: nat -> bool, pool: Pool)
    modifies pool
    ensures pool.area == if destroyed(step.num) then Destroyed(old(pool.area), step.name) else old(pool.area)
  {
    if destroyed(step.num) {
      pool.area := Destroyed(pool.area, step.name);
    }
  }

  // What the resume step is once the options have been accepted.
  ghost predicate ResumeChosen(names: seq<string>, snaps: seq<Snapshot>, resumeFrom: Option<string>, opts: seq<Opt>,
      resume: int)
  {
    && (forall s :: ResumeAt(s) in opts ==> resume >= 0 && Denotes(names, s, resume))
    && (ResumeLast in opts ==> resume >= 0 && LatestResumable(names, snaps, resume))
    && ((forall s :: ResumeAt(s) !in opts) && ResumeLast !in opts ==> FromManifest(names, resumeFrom, resume))
  }

  // The manifest's resume step; step 0 is taken for no resume step at all.
  ghost predicate FromManifest(names: seq<string>, resumeFrom: Option<string>, resume: int)
  {
    match resumeFrom
    case None => resume == -1
    case Some(s) => if resume == -1 then Denotes(names, s, 0) else resume > 0 && Denotes(names, s, resume)
  }

  ghost predicate PauseChosen(names: seq<string>, opts: seq<Opt>, pause: int)
  {
    && (forall s :: PauseAt(s) in opts ==> pause >= 0 && Denotes(names, s, pause))
    && ((forall s :: PauseAt(s) !in opts) ==> pause == 9999)
  }

  // Which options were given.
  datatype Flags = Flags(stepResume: bool, resume: bool, pause: bool, doList: bool)

  const NO_FLAGS := Flags(false, false, false, false)

  ghost predicate Given(opts: seq<Opt>, f: Flags)
  {
    && (f.stepResume <==> exists s :: ResumeAt(s) in opts)
    && (f.resume <==> ResumeLast in opts)
    && (f.pause <==> exists s :: PauseAt(s) in opts)
    && (f.doList <==> ListSteps in opts)
  }

  // The resume step after the options `opts`; -R and -r together are
  // rejected only later.
  ghost predicate ResumeSoFar(names: seq<string>, snaps: seq<Snapshot>, resumeFrom: Option<string>, opts: seq<Opt>,
      f: Flags, num: int)
  {
    && num >= -1
    && (f.stepResume && !f.resume ==> num >= 0 && forall s :: ResumeAt(s) in opts ==> Denotes(names, s, num))
    && (f.resume && !f.stepResume ==> num >= 0 && LatestResumable(names, snaps, num))
    && (!f.resume && !f.stepResume ==> FromManifest(names, resumeFrom, num))
    && (f.resume || f.stepResume ==> num >= 0)
  }

  // The manifest's resume step exists, if it names one.
  ghost predicate ManifestKnown(names: seq<string>, resumeFrom: Option<string>)
  {
    resumeFrom.Some? ==> Known(names, resumeFrom.value)
  }

  ghost predicate Known(names: seq<string>, arg: string)
  {
    exists n: nat :: Denotes(names, arg, n)
  }

  method ReadManifestResume(cp: Checkpoints, resumeFrom: Option<string>) returns (ok: bool)
    requires cp.Valid() && cp.resumeStep == -1
    modifies cp`resumeStep
    ensures ok ==> FromManifest(cp.Names(), resumeFrom, cp.resumeStep) && cp.resumeStep >= -1
    ensures ok <==> ManifestKnown(cp.Names(), resumeFrom)
  {
    if resumeFrom.Some? {
      var step := StepFromName(cp, resumeFrom.value);
      if step.None? {
        return false;
      }
      if step.value.num != 0 {
        cp.resumeStep := step.value.num;
      }
    }
    ok := true;
  }

  function Noted(f: Flags, o: Opt): Flags
  {
    match o
    case Help => f
    case ResumeAt(_) => f.(stepResume := true)
    case PauseAt(_) => f.(pause := true)
    case ResumeLast => f.(resume := true)
    case ListSteps => f.(doList := true)
  }

  // One option accepted: how it changes the resume and the pause step.
  ghost predicate Taken(names: seq<string>, snaps: seq<Snapshot>, o: Opt, f: Flags, resume: int, resume': int,
      pause: int, pause': int)
  {
    && o != Help
    && (match o
        case ResumeAt(s) => !f.stepResume && resume' >= 0 && Denotes(names, s, resume')
        case ResumeLast => resume' >= 0 && LatestResumable(names, snaps, resume')
        case _ => resume' == resume)
    && (match o
        case PauseAt(s) => !f.pause && pause' >= 0 && Denotes(names, s, pause')
        case _ => pause' == pause)
  }

  // Everything known once the options `opts` have been read.
  ghost predicate ReadSoFar(names: seq<string>, snaps: seq<Snapshot>, resumeFrom: Option<string>, opts: seq<Opt>,
      f: Flags, resume: int, pause: int)
  {
    && Help !in opts
    && Given(opts, f)
    && ResumeSoFar(names, snaps, resumeFrom, opts, f, resume)
    && PauseChosen(names, opts, pause)
  }

  lemma {:induction false} ReadNext(names: seq<string>, snaps: seq<Snapshot>, resumeFrom: Option<string>,
      opts: seq<Opt>, i: nat, f: Flags, resume: int, resume': int, pause: int, pause': int)
    requires i < |opts|
    requires ReadSoFar(names, snaps, resumeFrom, opts[..i], f, resume, pause)
    requires Taken(names, snaps, opts[i], f, resume, resume', pause, pause')
    ensures ReadSoFar(names, snaps, resumeFrom, opts[..i + 1], Noted(f, opts[i]), resume', pause')
  {
    var one, all := opts[..i], opts[..i + 1];
    assert all == one + [opts[i]];
    assert opts[i] in all;
    assert forall x :: x in all ==> x in one || x == opts[i];
    assert forall x :: x in one ==> x in all;
  }

  // The option is accepted after those that `f` notes.
  ghost predicate Readable(names: seq<string>, avail: bool, snaps: seq<Snapshot>, o: Opt, f: Flags)
  {
    && avail
    && match o
       case Help => false
       case ResumeAt(s) => !f.stepResume && Known(names, s)
       case PauseAt(s) => !f.pause && Known(names, s)
       case ResumeLast => !LatestResumable(names, snaps, -1)
       case ListSteps => true
  }

  // Each of the options is, in this order.
  ghost predicate AllReadable(names: seq<string>, avail: bool, snaps: seq<Snapshot>, opts: seq<Opt>, f: Flags)
  {
    || opts == []
    || (Readable(names, avail, snaps, opts[0], f) && AllReadable(names, avail, snaps, opts[1..], Noted(f, opts[0])))
  }

  lemma {:induction false} ReadableNext(names: seq<string>, avail: bool, snaps: seq<Snapshot>, opts: seq<Opt>, i: nat,
      f: Flags)
    requires i < |opts|
    ensures AllReadable(names, avail, snaps, opts[i..], f) <==>
      Readable(names, avail, snaps, opts[i], f) && AllReadable(names, avail, snaps, opts[i + 1..], Noted(f, opts[i]))
  {
    assert opts[i..][1..] == opts[i + 1..];
  }

  // One option.  The code is Proceed when the loop goes on.
  method ReadOption(cp: Checkpoints, opt: Opt, f: Flags, snaps: seq<Snapshot>) returns (code: Decision)
    requires cp.Valid()
    modifies cp`resumeStep, cp`pauseStep
    ensures code == Proceed <==> Readable(cp.Names(), cp.avail, snaps, opt, f)
    ensures code != Listed
    ensures code == Proceed ==>
      Taken(cp.Names(), snaps, opt, f, old(cp.resumeStep), cp.resumeStep, old(cp.pauseStep), cp.pauseStep)
  {
    if opt == Help {
      return Usage;
    }
    if !cp.avail {
      return Failed;
    }
    match opt {
      case ResumeAt(arg) =>
        if f.stepResume {
          return Usage;
        }
        var step := StepFromName(cp, arg);
        if step.None? {
          return Failed;
        }
        cp.resumeStep := step.value.num;
      case PauseAt(arg) =>
        if f.pause {
          return Usage;
        }
        var step := StepFromName(cp, arg);
        if step.None? {
          return Failed;
        }
        cp.pauseStep := step.value.num;
      case ResumeLast =>
        var num := cp.DetermineResumeStep(snaps);
        if num == -1 {
          return Failed;
        }
        cp.resumeStep := num;
      case ListSteps =>
    }
    code := Proceed;
  }

  method ReadOptions(cp: Checkpoints, resumeFrom: Option<string>, opts: seq<Opt>, snaps: seq<Snapshot>)
    returns (code: Decision, f: Flags)
    requires cp.Valid() && cp.pauseStep == 9999 && cp.resumeStep >= -1
    requires FromManifest(cp.Names(), resumeFrom, cp.resumeStep)
    modifies cp`resumeStep, cp`pauseStep
    ensures code == Proceed <==> AllReadable(cp.Names(), cp.avail, snaps, opts, NO_FLAGS)
    ensures code != Listed
    ensures code == Proceed ==>
      && (opts == [] || cp.avail)
      && ReadSoFar(cp.Names(), snaps, resumeFrom, opts, f, cp.resumeStep, cp.pauseStep)
  {
    f := NO_FLAGS;
    ghost var names, avail := cp.Names(), cp.avail;
    ReadingBegins(names, avail, snaps, resumeFrom, opts, cp.resumeStep);
    for i := 0 to |opts|
      invariant Reading(names, avail, snaps, resumeFrom, opts, i, f, cp.resumeStep, cp.pauseStep)
    {
      ghost var resume, pause := cp.resumeStep, cp.pauseStep;
      code := ReadOption(cp, opts[i], f, snaps);
      if code != Proceed {
        ReadingStops(names, avail, snaps, resumeFrom, opts, i, f, resume, pause);
        return;
      }
      ReadingNext(names, avail, snaps, resumeFrom, opts, i, f, resume, cp.resumeStep, pause, cp.pauseStep);
      f := Noted(f, opts[i]);
    }
    ReadingEnds(names, avail, snaps, resumeFrom, opts, f, cp.resumeStep, cp.pauseStep);
    code := Proceed;
  }

  // The first i options have been read, and all are readable exactly when the
  // others are.
  ghost predicate Reading(names: seq<string>, avail: bool, snaps: seq<Snapshot>, resumeFrom: Option<string>,
      opts: seq<Opt>, i: nat, f: Flags, resume: int, pause: int)
    requires i <= |opts|
  {
    && (i == 0 || avail)
    && (AllReadable(names, avail, snaps, opts, NO_FLAGS) <==> AllReadable(names, avail, snaps, opts[i..], f))
    && ReadSoFar(names, snaps, resumeFrom, opts[..i], f, resume, pause)
  }

  lemma {:induction false} ReadingBegins(names: seq<string>, avail: bool, snaps: seq<Snapshot>,
      resumeFrom: Option<string>, opts: seq<Opt>, resume: int)
    requires FromManifest(names, resumeFrom, resume) && resume >= -1
    ensures Reading(names, avail, snaps, resumeFrom, opts, 0, NO_FLAGS, resume, 9999)
  {
    assert opts[0..] == opts;
  }

  lemma {:induction false} ReadingStops(names: seq<string>, avail: bool, snaps: seq<Snapshot>,
      resumeFrom: Option<string>, opts: seq<Opt>, i: nat, f: Flags, resume: int, pause: int)
    requires i < |opts| && Reading(names, avail, snaps, resumeFrom, opts, i, f, resume, pause)
    requires !Readable(names, avail, snaps, opts[i], f)
    ensures !AllReadable(names, avail, snaps, opts, NO_FLAGS)
  {
    ReadableNext(names, avail, snaps, opts, i, f);
  }

  lemma {:induction false} ReadingNext(names: seq<string>, avail: bool, snaps: seq<Snapshot>,
      resumeFrom: Option<string>, opts: seq<Opt>, i: nat, f: Flags, resume: int, resume': int, pause: int, pause': int)
    requires i < |opts| && Reading(names, avail, snaps, resumeFrom, opts, i, f, resume, pause)
    requires Readable(names, avail, snaps, opts[i], f)
    requires Taken(names, snaps, opts[i], f, resume, resume', pause, pause')
    ensures Reading(names, avail, snaps, resumeFrom, opts, i + 1, Noted(f, opts[i]), resume', pause')
  {
    ReadableNext(names, avail, snaps, opts, i, f);
    ReadNext(names, snaps, resumeFrom, opts, i, f, resume, resume', pause, pause');
  }

  lemma {:induction false} ReadingEnds(names: seq<string>, avail: bool, snaps: seq<Snapshot>,
      resumeFrom: Option<string>, opts: seq<Opt>, f: Flags, resume: int, pause: int)
    requires Reading(names, avail, snaps, resumeFrom, opts, |opts|, f, resume, pause)
    ensures AllReadable(names, avail, snaps, opts, NO_FLAGS) && (opts == [] || avail)
    ensures ReadSoFar(names, snaps, resumeFrom, opts, f, resume, pause)
  {
    assert opts[..|opts|] == opts && opts[|opts|..] == [];
  }

  lemma {:induction false} ResumeSettled(names: seq<string>, snaps: seq<Snapshot>, resumeFrom: Option<string>,
      opts: seq<Opt>, f: Flags, num: int)
    requires Given(opts, f) && ResumeSoFar(names, snaps, resumeFrom, opts, f, num)
    requires !(f.resume && f.stepResume) && !f.doList
    ensures ListSteps !in opts
    ensures ResumeChosen(names, snaps, resumeFrom, opts, num)
  {
  }

  // The options are accepted, with this resume and this pause step.
  ghost predicate Acceptable(names: seq<string>, avail: bool, snaps: seq<Snapshot>, resumeFrom: Option<string>,
      opts: seq<Opt>, resume: int, pause: int)
  {
    && ManifestKnown(names, resumeFrom)
    && AllReadable(names, avail, snaps, opts, NO_FLAGS)
    && ListSteps !in opts
    && !(ResumeLast in opts && exists s :: ResumeAt(s) in opts)
    && resume >= -1
    && ResumeChosen(names, snaps, resumeFrom, opts, resume)
    && PauseChosen(names, opts, pause)
    && (resume != -1 ==> Resumable(names, snaps, resume))
    && resume < pause
  }

  // The options are not accepted, whatever resume and pause step one might
  // think of.
  ghost predicate Unacceptable(names: seq<string>, avail: bool, snaps: seq<Snapshot>, resumeFrom: Option<string>,
      opts: seq<Opt>)
  {
    forall r, p :: !Acceptable(names, avail, snaps, resumeFrom, opts, r, p)
  }

  lemma {:induction false} LatestUnique(names: seq<string>, snaps: seq<Snapshot>, r: int, q: int)
    requires LatestResumable(names, snaps, r) && LatestResumable(names, snaps, q)
    ensures r == q
  {
  }

  lemma {:induction false} DenotesUnique(names: seq<string>, arg: string, m: nat, n: nat)
    requires Denotes(names, arg, m) && Denotes(names, arg, n)
    ensures m == n
  {
  }

  // The options leave no choice.
  lemma {:induction false} ChosenUnique(names: seq<string>, snaps: seq<Snapshot>, resumeFrom: Option<string>,
      opts: seq<Opt>, r: int, q: int)
    requires r >= -1 && q >= -1
    requires ResumeChosen(names, snaps, resumeFrom, opts, r) && ResumeChosen(names, snaps, resumeFrom, opts, q)
    ensures r == q
  {
    if s :| ResumeAt(s) in opts {
      DenotesUnique(names, s, r, q);
    } else if ResumeLast in opts {
      LatestUnique(names, snaps, r, q);
    } else if resumeFrom.Some? {
      DenotesUnique(names, resumeFrom.value, if r == -1 then 0 else r, if q == -1 then 0 else q);
    }
  }

  lemma {:induction false} PauseUnique(names: seq<string>, opts: seq<Opt>, p: int, q: int)
    requires PauseChosen(names, opts, p) && PauseChosen(names, opts, q)
    ensures p == q
  {
    if s :| PauseAt(s) in opts {
      DenotesUnique(names, s, p, q);
    }
  }

  ghost predicate RefusedFor(names: seq<string>, snaps: seq<Snapshot>, f: Flags, resume: int, pause: int)
  {
    (f.resume && f.stepResume) || f.doList || (resume != -1 && !Resumable(names, snaps, resume)) || pause <= resume
  }

  // What the options come to is not acceptable: then nothing is.
  lemma {:induction false} NotAcceptable(names: seq<string>, avail: bool, snaps: seq<Snapshot>,
      resumeFrom: Option<string>, opts: seq<Opt>, f: Flags, resume: int, pause: int, r: int, p: int)
    requires ReadSoFar(names, snaps, resumeFrom, opts, f, resume, pause)
    requires RefusedFor(names, snaps, f, resume, pause)
    ensures !Acceptable(names, avail, snaps, resumeFrom, opts, r, p)
  {
    if Acceptable(names, avail, snaps, resumeFrom, opts, r, p) {
      ResumeSettled(names, snaps, resumeFrom, opts, f, resume);
      ChosenUnique(names, snaps, resumeFrom, opts, r, resume);
      PauseUnique(names, opts, p, pause);
      assert false;
    }
  }

  // The steps are listed and nothing is built: that is asked for and nothing
  // else, and the manifest's resume step is in order.
  ghost predicate ListsSteps(names: seq<string>, avail: bool, snaps: seq<Snapshot>, resumeFrom: Option<string>,
      opts: seq<Opt>)
  {
    && ManifestKnown(names, resumeFrom) && avail
    && opts != [] && (forall i :: 0 <= i < |opts| ==> opts[i] == ListSteps)
    && forall r :: FromManifest(names, resumeFrom, r) && r >= 0 ==> Resumable(names, snaps, r)
  }

  lemma {:induction false} ListingReadable(names: seq<string>, snaps: seq<Snapshot>, opts: seq<Opt>, f: Flags)
    requires forall i :: 0 <= i < |opts| ==> opts[i] == ListSteps
    ensures AllReadable(names, true, snaps, opts, f)
    decreases |opts|
  {
    if opts != [] {
      ListingReadable(names, snaps, opts[1..], Noted(f, opts[0]));
    }
  }

  lemma {:induction false} ListsIff(names: seq<string>, avail: bool, snaps: seq<Snapshot>, resumeFrom: Option<string>,
      opts: seq<Opt>, f: Flags, resume: int, pause: int)
    requires ReadSoFar(names, snaps, resumeFrom, opts, f, resume, pause) && ManifestKnown(names, resumeFrom)
    requires opts == [] || avail
    ensures ListsSteps(names, avail, snaps, resumeFrom, opts)
      <==> (resume == -1 || Resumable(names, snaps, resume)) && f.doList && !f.pause && !f.resume && !f.stepResume
  {
    if opts != [] && forall i :: 0 <= i < |opts| ==> opts[i] == ListSteps {
      assert opts[0] in opts;
    }
    if f.doList && !f.pause && !f.resume && !f.stepResume {
      forall i | 0 <= i < |opts|
        ensures opts[i] == ListSteps
      {
        assert opts[i] in opts;
        match opts[i]
        case ResumeAt(s) => assert ResumeAt(s) in opts;
        case PauseAt(s) => assert PauseAt(s) in opts;
        case _ =>
      }
    }
    if FromManifest(names, resumeFrom, resume) {
      forall r | FromManifest(names, resumeFrom, r) && r >= 0
        ensures r == resume
      {
        if resumeFrom.Some? {
          DenotesUnique(names, resumeFrom.value, r, if resume == -1 then 0 else resume);
        }
      }
    }
  }

  // The checks made of the options taken together.
  method CheckChoices(cp: Checkpoints, f: Flags, snaps: seq<Snapshot>) returns (code: Decision)
    requires cp.Valid() && cp.resumeStep >= -1
    ensures code == Proceed <==> !RefusedFor(cp.Names(), snaps, f, cp.resumeStep, cp.pauseStep)
    ensures code == Listed <==>
      && (cp.resumeStep == -1 || Resumable(cp.Names(), snaps, cp.resumeStep))
      && f.doList && !f.pause && !f.resume && !f.stepResume
  {
    if cp.resumeStep != -1 {
      var verdict := cp.VerifyResumeStep(cp.resumeStep, snaps);
      if verdict != Accepted {
        return Failed;
      }
    }
    if (f.resume && f.stepResume) || (f.doList && (f.pause || f.resume || f.stepResume)) {
      return Usage;
    }
    if f.doList {
      return Listed;
    }
    code := if cp.pauseStep <= cp.resumeStep then Usage else Proceed;
  }

  // Decides where the build starts and pauses, if it may start at all.
  method ReadCommandLine(cp: Checkpoints, resumeFrom: Option<string>, opts: seq<Opt>, snaps: seq<Snapshot>)
    returns (code: Decision)
    requires cp.Valid() && cp.resumeStep == -1 && cp.pauseStep == 9999
    modifies cp`resumeStep, cp`pauseStep
    ensures code == Listed <==> ListsSteps(cp.Names(), cp.avail, snaps, resumeFrom, opts)
    ensures code == Proceed ==>
      Acceptable(cp.Names(), cp.avail, snaps, resumeFrom, opts, cp.resumeStep, cp.pauseStep)
    ensures code != Proceed ==> Unacceptable(cp.Names(), cp.avail, snaps, resumeFrom, opts)
  {
    var ok := ReadManifestResume(cp, resumeFrom);
    if !ok {
      return Failed;
    }
    var f: Flags;
    code, f := ReadOptions(cp, resumeFrom, opts, snaps);
    if code != Proceed {
      if ListsSteps(cp.Names(), cp.avail, snaps, resumeFrom, opts) {
        ListingReadable(cp.Names(), snaps, opts, NO_FLAGS);
      }
      return;
    }
    ListsIff(cp.Names(), cp.avail, snaps, resumeFrom, opts, f, cp.resumeStep, cp.pauseStep);
    code := CheckChoices(cp, f, snaps);
    if code == Proceed {
      ResumeSettled(cp.Names(), snaps, resumeFrom, opts, f, cp.resumeStep);
    } else {
      forall r, p
        ensures !Acceptable(cp.Names(), cp.avail, snaps, resumeFrom, opts, r, p)
      {
        NotAcceptable(cp.Names(), cp.avail, snaps, resumeFrom, opts, f, cp.resumeStep, cp.pauseStep, r, p);
      }
    }
  }

  // The same, and deletes the checkpoints of the steps that will run again.
  method ParseCommandLine(cp: Checkpoints, resumeFrom: Option<string>, opts: seq<Opt>, destroyed: nat -> bool,
      pool: Pool) returns (code: Decision)
    requires cp.Valid() && cp.resumeStep == -1 && cp.pauseStep == 9999
    modifies cp`resumeStep, cp`pauseStep, pool
    ensures code != Proceed ==> pool.area == old(pool.area)
    ensures code == Listed <==> ListsSteps(cp.Names(), cp.avail, old(pool.area.snaps), resumeFrom, opts)
    ensures code == Proceed ==>
      Acceptable(cp.Names(), cp.avail, old(pool.area.snaps), resumeFrom, opts, cp.resumeStep, cp.pauseStep)
    ensures code != Proceed ==> Unacceptable(cp.Names(), cp.avail, old(pool.area.snaps), resumeFrom, opts)
    ensures code == Proceed ==>
      && cp.resumeStep >= -1
      && pool.area == Deletions(old(pool.area), cp.Names(), cp.resumeStep + 1, |cp.Names()|, destroyed)
  {
    code := ReadCommandLine(cp, resumeFrom, opts, pool.area.snaps);
    if code == Proceed {
      DeleteCheckpointsFrom(cp, cp.resumeStep + 1, destroyed, pool);
    }
  }

  method DeleteCheckpointsFrom(cp: Checkpoints, first: nat, destroyed: nat -> bool, pool: Pool)
    requires cp.Valid()
    modifies pool
    ensures pool.area == Deletions(old(pool.area), cp.Names(), first, |cp.Names()|, destroyed)
  {
    if first >= |cp.stepList| {
      return;
    }
    for i := first to |cp.stepList|
      invariant Deletions(pool.area, cp.Names(), i, |cp.Names()|, destroyed)
        == Deletions(old(pool.area), cp.Names(), first, |cp.Names()|, destroyed)
    {
      DeleteCheckpoint(cp.stepList[i], destroyed, pool);
    }
  }

  // The outside world's answer to one zfs command of the clean-up: its exit
  // status and whether it took effect.
  datatype Answer = Answer(status: int, took: bool)

  // Answers to a clean-up: whether the area is a zfs dataset, whether listing
  // @empty works, the answers to the commands it may issue, whether the
  // (re)creation of dataset and directories succeeded (it does for a dataset
  // that is still there), and what removing the files of an area without zfs
  // left, errors being ignored.
  datatype Cleanup = Cleanup(zfs: bool, listed: bool, rollback: Answer, destroy: Answer, made: bool,
                             snapshot: Answer, left: BuildData)

  // @empty is found.
  predicate SeesEmpty(a: Area, w: Cleanup)
  {
    a.empty.Some? && w.listed
  }

  // Rolling back to @empty.  Only the exit status -1 counts as a failure.
  function ByRollback(a: Area, w: Cleanup): (int, Area)
  {
    (if w.rollback.status == -1 then -1 else 0, if w.rollback.took then RolledBackToEmpty(a) else a)
  }

  // Destroying and recreating the dataset, and taking @empty of it.
  function ByRecreation(a: Area, w: Cleanup): (int, Area)
  {
    var b := if w.destroy.took then DatasetDestroyed(a) else a;
    if w.destroy.status == -1 || !w.made then (-1, b)
    else (if w.snapshot.status == -1 then -1 else 0, if w.snapshot.took then EmptySnapshotted(b) else b)
  }

  function CleanedUp(a: Area, w: Cleanup): (r: (int, Area))
    ensures r.0 == 0 || r.0 == -1
  {
    if !w.zfs then (if w.made then 0 else -1, a.(live := w.left))
    else if SeesEmpty(a, w) then ByRollback(a, w)
    else ByRecreation(a, w)
  }

  // Makes sure that a full build starts from an empty area.
  method CleanupBuildDataArea(w: Cleanup, pool: Pool) returns (rval: int)
    modifies pool
    ensures (rval, pool.area) == CleanedUp(old(pool.area), w)
    ensures !w.zfs ==> rval == (if w.made then 0 else -1) && pool.area == old(pool.area).(live := w.left)
    ensures w.zfs && old(pool.area.empty).Some? && w.listed ==> (rval == -1 <==> w.rollback.status == -1)
    ensures w.zfs && !(old(pool.area.empty).Some? && w.listed) ==>
      (rval == -1 <==> w.destroy.status == -1 || !w.made || w.snapshot.status == -1)
  {
    if !w.zfs {
      pool.area := pool.area.(live := w.left);
      return if w.made then 0 else -1;
    }
    if SeesEmpty(pool.area, w) {
      if w.rollback.took {
        pool.area := RolledBackToEmpty(pool.area);
      }
      if w.rollback.status == -1 {
        return -1;
      }
    } else {
      if w.destroy.took {
        pool.area := DatasetDestroyed(pool.area);
      }
      if w.destroy.status == -1 {
        return -1;
      }
      if !w.made {
        return -1;
      }
      if w.snapshot.took {
        pool.area := EmptySnapshotted(pool.area);
      }
      if w.snapshot.status == -1 {
        return -1;
      }
    }
    rval := 0;
  }

  // What precedes the queue: a resumed build is not cleaned up.
  function Readied(a: Area, resume: int, w: Cleanup): (int, Area)
  {
    if resume == -1 then CleanedUp(a, w) else (0, a)
  }

  // The result of that, and the build area, once the later checkpoints have
  // been deleted.
  function Prepared(a: Area, names: seq<string>, resume: int, destroyed: nat -> bool, w: Cleanup): (int, Area)
    requires resume >= -1
  {
    Readied(Deletions(a, names, resume + 1, |names|, destroyed), resume, w)
  }

  function FullQueue(stop: Option<bool>, avail: bool, names: seq<string>, scripts: seq<string>, resume: int, pause: int)
    : seq<Item>
    requires avail ==> |scripts| <= |names|
  {
    [ExecParams(stop)] + QueueFrom(avail, names, scripts, 0, resume, pause)
  }

  // The end of a build whose clean-up returned rval and left `start`: the
  // queue is executed if all of it can be registered.
  ghost predicate Ended(q: seq<Item>, executable: set<string>, events: Events, fx: Effects, rval: int, start: Area,
      status: int, area: Area)
  {
    if rval == 0 && Registrable(q, executable)
    then var e := Run(q, 0, events, fx, Fresh(false, start)); status == e.status && area == e.area
    else status == GENERAL_ERR && area == start
  }

  // A whole build.  `names` are the checkpoint names of `scripts`, one each.
  method Build(cp: Checkpoints, scripts: seq<string>, checkpointName: string -> Option<string>,
      resumeFrom: Option<string>, opts: seq<Opt>, stopOnErr: Option<bool>, executable: set<string>,
      destroyed: nat -> bool, w: Cleanup, events: Events, fx: Effects, pool: Pool) returns (code: Decision, status: int)
    requires cp.Valid() && cp.stepList == [] && cp.resumeStep == -1 && cp.pauseStep == 9999 && cp.currentStep == 0
    modifies cp, pool
    ensures cp.avail == old(cp.avail)
    ensures code != Proceed ==> (status == SUCCESS <==> code == Listed)
    ensures code != Proceed ==> pool.area == old(pool.area)
    ensures code == Proceed ==>
      && Acceptable(cp.Names(), cp.avail, old(pool.area.snaps), resumeFrom, opts, cp.resumeStep, cp.pauseStep)
      && (cp.avail ==> |NonBlank(scripts)| <= |cp.Names()|)
    ensures code != Proceed ==>
      || (cp.avail && exists i :: 0 <= i < |scripts| && checkpointName(scripts[i]).None?)
      || Unacceptable(cp.Names(), cp.avail, old(pool.area.snaps), resumeFrom, opts)
    ensures code == Proceed ==>
      var q := FullQueue(stopOnErr, cp.avail, cp.Names(), NonBlank(scripts), cp.resumeStep, cp.pauseStep);
      var (rval, start) := Prepared(old(pool.area), cp.Names(), cp.resumeStep, destroyed, w);
      Ended(q, executable, events, fx, rval, start, status, pool.area)
  {
    if cp.avail {
      var rval := cp.CheckpointSetup(scripts, checkpointName);
      if rval != 0 {
        return Failed, GENERAL_ERR;
      }
    }
    code, status :=
      BuildWithSteps(cp, scripts, resumeFrom, opts, stopOnErr, executable, destroyed, w, events, fx, pool);
  }

  // The part of a build that follows the set-up of the steps.
  method BuildWithSteps(cp: Checkpoints, scripts: seq<string>, resumeFrom: Option<string>, opts: seq<Opt>,
      stopOnErr: Option<bool>, executable: set<string>, destroyed: nat -> bool, w: Cleanup, events: Events, fx: Effects,
      pool: Pool) returns (code: Decision, status: int)
    requires cp.Valid() && cp.resumeStep == -1 && cp.pauseStep == 9999 && cp.currentStep == 0
    requires cp.avail ==> |scripts| <= |cp.stepList|
    modifies cp`resumeStep, cp`pauseStep, cp`currentStep, pool
    ensures code != Proceed ==>
      && (status == SUCCESS <==> code == Listed) && pool.area == old(pool.area)
      && Unacceptable(cp.Names(), cp.avail, old(pool.area.snaps), resumeFrom, opts)
    ensures code == Proceed ==>
      && Acceptable(cp.Names(), cp.avail, old(pool.area.snaps), resumeFrom, opts, cp.resumeStep, cp.pauseStep)
      && (cp.avail ==> |NonBlank(scripts)| <= |cp.Names()|)
    ensures code == Proceed ==>
      var q := FullQueue(stopOnErr, cp.avail, cp.Names(), NonBlank(scripts), cp.resumeStep, cp.pauseStep);
      var (rval, start) := Prepared(old(pool.area), cp.Names(), cp.resumeStep, destroyed, w);
      Ended(q, executable, events, fx, rval, start, status, pool.area)
  {
    code := ParseCommandLine(cp, resumeFrom, opts, destroyed, pool);
    if code != Proceed {
      return code, if code == Listed then SUCCESS else GENERAL_ERR;
    }
    status := RunQueue(cp, scripts, stopOnErr, executable, w, events, fx, pool);
  }

  const LOGGER_NAME := "dc_logger"

  // The part of a build that follows the options: clean-up, queue, execution.
  method RunQueue(cp: Checkpoints, scripts: seq<string>, stopOnErr: Option<bool>, executable: set<string>, w: Cleanup,
      events: Events, fx: Effects, pool: Pool) returns (status: int)
    requires cp.Valid() && cp.currentStep == 0
    requires cp.avail ==> |scripts| <= |cp.stepList|
    modifies cp`currentStep, pool
    ensures cp.avail ==> |NonBlank(scripts)| <= |cp.Names()|
    ensures var q := FullQueue(stopOnErr, cp.avail, cp.Names(), NonBlank(scripts), cp.resumeStep, cp.pauseStep);
      var (rval, start) := Readied(old(pool.area), cp.resumeStep, w);
      Ended(q, executable, events, fx, rval, start, status, pool.area)
  {
    if cp.resumeStep == -1 {
      var rval := CleanupBuildDataArea(w, pool);
      if rval != 0 {
        NonBlankLength(scripts);
        return GENERAL_ERR;
      }
    }
    var fin := new DCFinalizer();
    var _ := fin.ChangeExecParams(None, None, stopOnErr, Some(LOGGER_NAME));
    status := cp.AddFinalizerScripts(scripts, stopOnErr, fin, executable);
    ghost var q := QueueFrom(cp.avail, cp.Names(), NonBlank(scripts), 0, cp.resumeStep, cp.pauseStep);
    assert ([ExecParams(stopOnErr)] + q)[1..] == q;
    if status != SUCCESS {
      return;
    }
    status := fin.Execute(events, fx, pool);
  }
}
