/** The same bookkeeping where the main thread submits the jobs of a tuple
    itself, on every system but a Mac (mk/linux/symbolstore.py:525-554): when the
    end of a tuple is noticed, and when its counter stays behind. */
module PlainJobs {
  import opened SymbolJobs

  /** Some counter of the file is reset after a job of it was counted. */
  ghost predicate ResetLate(s: State, es: seq<Event>, f: File)
    decreases |es|
  {
    es != [] && Enabled(s, es[0]) && (LateNow(s, es[0], f) || ResetLate(Do(s, es[0]), es[1..], f))
  }

  ghost predicate LateNow(s: State, e: Event, f: File) {
    e == MainStep && s.main.At? && s.main.sub.Reset? && s.main.sub.file == f && Tally(s, f) > 0
  }

  // ---- where a tuple stands

  predicate Submitting(s: State, f: File) {
    s.main.At? && SubFile(s.main.sub) == f
  }

  /** The counter is the tally of the jobs called back, or less once it was reset
      late; so it reaches their number, and the end is noticed, only if it never
      was. */
  ghost predicate Stands(s: State, f: File, late: bool) {
    if Submitting(s, f) then
      && s.cleaned[f] == 0 && s.callback != After(f) && BookedBelow(s, f, NextArch(s.main.sub))
      && if s.main.sub == Reset(f, 0) then !late && Tally(s, f) == 0 && s.callback != Check(f) else Kept(s, f, late)
    else if NoneFrom(s, f, 0) then
      Tally(s, f) == 0 && s.cleaned[f] == 0 && s.callback != Check(f) && s.callback != After(f) && !late
    else
      && BookedBelow(s, f, s.archs)
      && if s.callback == After(f) then !late && Tally(s, f) == s.archs && s.cleaned[f] == 0 && f !in s.filesRecord
         else if s.callback == Check(f) || Tally(s, f) < s.archs || late then Kept(s, f, late) && s.cleaned[f] == 0
         else s.cleaned[f] == 1 && f !in s.filesRecord
  }

  ghost predicate Kept(s: State, f: File, late: bool) {
    && f in s.filesRecord
    && if late then 0 <= s.filesRecord[f] < Tally(s, f) else s.filesRecord[f] == Tally(s, f)
  }

  ghost predicate Plain(s: State) {
    Inv(s) && !s.mac && CountedOk(s)
  }

  /** Callbacks submit nothing here. */
  lemma NoMac(s: State)
    requires Plain(s)
    ensures !s.callback.MacAt? && !s.callback.MacUnbook?
    ensures s.callback.Unbook? ==> s.callback.job.Dump?
  {
    hide Counts;
    if s.callback.MacAt? || s.callback.MacUnbook? {
      CallbackMeansMac(s, s.callback.file);
    }
  }

  /** The jobs counted are among those of the tuple. */
  lemma CountedAre(s: State, f: File)
    requires Plain(s)
    ensures Of(s.counted, f) <= Dumps(f, s.archs) && Tally(s, f) <= s.archs
  {
    hide Counts, PlacedJob;
    forall j | j in Of(s.counted, f) ensures j in Dumps(f, s.archs) {
    }
    Smaller(Of(s.counted, f), Dumps(f, s.archs));
  }

  /** While jobs are still being submitted, not all can be counted. */
  lemma NotAllYet(s: State, f: File)
    requires Plain(s) && Submitting(s, f)
    ensures Tally(s, f) < s.archs
  {
    hide Counts;
    var sub := s.main.sub;
    var a := if sub.Reset? then sub.arch else sub.job.arch;
    if sub.Give? {
      assert PlacedJob(s, sub.job);
    }
    forall j | j in Of(s.counted, f) ensures j in Dumps(f, a) {
    }
    Smaller(Of(s.counted, f), Dumps(f, a));
  }

  // ---- what every step does to it

  lemma StandsElse(s: State, t: State, f: File, late: bool)
    requires Stands(s, f, late) && t.counted == s.counted && t.cleaned == s.cleaned && t.archs == s.archs
    requires t.callback == s.callback || (t.callback != After(f) && t.callback != Check(f) && s.callback != After(f) && s.callback != Check(f))
    requires f in s.filesRecord <==> f in t.filesRecord
    requires f in s.filesRecord ==> t.filesRecord[f] == s.filesRecord[f]
    requires forall a: nat :: Dump(f, a) in s.booked <==> Dump(f, a) in t.booked
    requires Submitting(s, f) <==> Submitting(t, f)
    requires Submitting(s, f) ==> t.main == s.main
    ensures Stands(t, f, late)
  {
    assert NoneFrom(s, f, 0) == NoneFrom(t, f, 0) by {
      forall j: Job | j.Dump? && j.file == f ensures j in s.booked <==> j in t.booked {
        assert j == Dump(f, j.arch);
      }
    }
  }

  lemma StandsMain(s: State, f: File, late: bool)
    requires Plain(s) && Stands(s, f, late) && Enabled(s, MainStep)
    ensures Stands(DoMain(s), f, late || LateNow(s, MainStep, f))
  {
    hide Counts, Placed;
    var t := DoMain(s);
    if Submitting(s, f) {
      StandsSub(s, f, late);
    } else if Submitting(t, f) {
      assert s.main == Ready && f == s.todo[0];
      NoneOf(s, f);
    } else {
      StandsElse(s, t, f, late);
    }
  }

  lemma StandsSub(s: State, f: File, late: bool)
    requires Plain(s) && Stands(s, f, late) && Submitting(s, f)
    ensures Stands(DoMain(s), f, late || LateNow(s, MainStep, f))
  {
    hide Counts, Placed;
    var t, sub := DoMain(s), s.main.sub;
    NotAllYet(s, f);
    match sub
    case Reset(g, a) =>
    case Book(j) =>
      assert j == Dump(f, NextArch(sub));
      assert BookedBelow(t, f, NextArch(sub));
    case Give(j) =>
      if t.main == Ready {
        assert j == Dump(f, s.archs - 1) && Dump(f, 0) in t.booked;
        assert !NoneFrom(t, f, 0);
      }
  }

  lemma StandsTake(s: State, j: Job, f: File, late: bool)
    requires Plain(s) && Stands(s, f, late) && Enabled(s, Take(j))
    ensures Stands(Do(s, Take(j)), f, late)
  {
    hide Counts;
    assert PlacedJob(s, j);
    StandsElse(s, Do(s, Take(j)), f, late);
  }

  lemma StandsCallback(s: State, f: File, late: bool)
    requires Plain(s) && Stands(s, f, late) && Enabled(s, CallbackStep)
    ensures Stands(DoCallback(s), f, late)
  {
    hide Counts, Placed, Fresh, Plain, Stands;
    NoMac(s);
    match s.callback
    case Unbook(j) => StandsElse(s, DoCallback(s), f, late);
    case CountUp(j) =>
      if j.file == f {
        StandsCount(s, j, late);
      } else {
        assert Of(s.counted + {j}, f) == Of(s.counted, f);
        StandsOther(s, f, late);
      }
    case Check(g) =>
      if g == f { StandsCheck(s, f, late); } else { StandsOther(s, f, late); }
    case After(g) =>
      if g == f { StandsAfter(s, f, late); } else { StandsOther(s, f, late); }
  }

  /** A callback for another file. */
  lemma StandsOther(s: State, f: File, late: bool)
    requires Stands(s, f, late) && Enabled(s, CallbackStep)
    requires match s.callback
      case CountUp(j) => j.file != f && Of(s.counted + {j}, f) == Of(s.counted, f)
      case Check(g) => g != f
      case After(g) => g != f
      case _ => false
    ensures Stands(DoCallback(s), f, late)
  {
    var t := DoCallback(s);
    assert NoneFrom(t, f, 0) == NoneFrom(s, f, 0);
  }

  lemma OneMoreCounted(s: State, j: Job)
    requires Plain(s) && s.callback == CountUp(j)
    ensures Of(s.counted + {j}, j.file) == Of(s.counted, j.file) + {j} && Tally(s, j.file) < s.archs
    ensures !NoneFrom(s, j.file, 0) && j !in s.counted
  {
    hide Counts;
    var f := j.file;
    CountedAre(s, f);
    assert Of(s.counted, f) + {j} <= Dumps(f, s.archs);
    Smaller(Of(s.counted, f) + {j}, Dumps(f, s.archs));
  }

  /** The first reset comes before any job. */
  lemma FirstReset(s: State, f: File)
    requires Plain(s) && s.main == At(Reset(f, 0))
    ensures NoneFrom(s, f, 0)
  {
    hide Counts, Placed;
  }

  lemma StandsCount(s: State, j: Job, late: bool)
    requires Plain(s) && Stands(s, j.file, late) && s.callback == CountUp(j) && Enabled(s, CallbackStep)
    ensures Stands(DoCallback(s), j.file, late)
  {
    hide Counts, Placed, Fresh, Plain, CountedOk;
    OneMoreCounted(s, j);
    if s.main == At(Reset(j.file, 0)) {
      FirstReset(s, j.file);
    }
    var t, f := DoCallback(s), j.file;
    assert NoneFrom(t, f, 0) == NoneFrom(s, f, 0);
    assert Tally(t, f) == Tally(s, f) + 1;
  }

  lemma StandsCheck(s: State, f: File, late: bool)
    requires Plain(s) && Stands(s, f, late) && s.callback == Check(f) && Enabled(s, CallbackStep)
    ensures Stands(DoCallback(s), f, late)
  {
    hide Counts, Placed;
    CountedAre(s, f);
    var t := DoCallback(s);
    assert NoneFrom(t, f, 0) == NoneFrom(s, f, 0);
    if Submitting(s, f) {
      NotAllYet(s, f);
    }
  }

  lemma StandsAfter(s: State, f: File, late: bool)
    requires Plain(s) && Stands(s, f, late) && s.callback == After(f)
    ensures Stands(DoCallback(s), f, late)
  {
    hide Counts, Placed, Fresh;
    var t := DoCallback(s);
    assert NoneFrom(t, f, 0) == NoneFrom(s, f, 0);
  }

  /** No callback meets a counter that is not there. */
  lemma KeyIsThere(s: State)
    requires Plain(s) && s.callback != Free && forall f :: Stands(s, f, true) || Stands(s, f, false)
    ensures Enabled(s, CallbackStep)
  {
    hide Counts, Placed;
    NoMac(s);
    if s.callback.CountUp? {
      OneMoreCounted(s, s.callback.job);
      assert Stands(s, s.callback.job.file, true) || Stands(s, s.callback.job.file, false);
    } else if s.callback.Check? {
      assert Stands(s, s.callback.file, true) || Stands(s, s.callback.file, false);
    }
  }

  // ---- over whole runs

  lemma CountedMain(s: State)
    requires CountedOk(s) && Enabled(s, MainStep)
    ensures CountedOk(DoMain(s))
  {
  }

  lemma CountedStep(s: State, e: Event)
    requires Plain(s) && Enabled(s, e)
    ensures CountedOk(Do(s, e))
  {
    hide Counts, DoMain;
    NoMac(s);
    if e == MainStep {
      CountedMain(s);
    } else if e.Take? {
      assert PlacedJob(s, e.job);
    } else if s.callback.Unbook? {
      assert PlacedJob(s, s.callback.job);
    }
  }

  lemma StandsStep(s: State, e: Event, f: File, late: bool)
    requires Plain(s) && Stands(s, f, late) && Enabled(s, e)
    ensures Plain(Do(s, e)) && Stands(Do(s, e), f, late || LateNow(s, e, f))
  {
    hide Inv, Stands, CountedOk, DoMain, DoCallback, NoneFrom;
    InvStep(s, e);
    CountedStep(s, e);
    SameDumper(s, e);
    match e
    case MainStep => StandsMain(s, f, late);
    case Complete(j) => StandsElse(s, Do(s, e), f, late);
    case Take(j) => StandsTake(s, j, f, late);
    case CallbackStep => StandsCallback(s, f, late);
  }

  lemma {:induction false} StandsRun(s: State, es: seq<Event>, t: State, f: File, late: bool)
    requires Plain(s) && Stands(s, f, late) && Run(s, es, t)
    ensures Plain(t) && Stands(t, f, late || ResetLate(s, es, f))
    decreases |es|
  {
    hide Plain, Stands, Do, Enabled, LateNow;
    if es != [] {
      StandsStep(s, es[0], f, late);
      StandsRun(Do(s, es[0]), es[1..], t, f, late || LateNow(s, es[0], f));
    }
  }

  lemma InitStands(archs: nat, files: seq<File>, f: File)
    requires archs > 0 && Distinct(files)
    ensures Plain(Init(archs, false, files)) && Stands(Init(archs, false, files), f, false)
  {
    hide Inv;
    InitIsInv(archs, false, files);
    assert Of(Init(archs, false, files).counted, f) == {};
  }

  /** The run is over: Finish is past its wait, and no callback is at work. */
  ghost predicate Ends(s: State, es: seq<Event>, t: State) {
    Run(s, es, t) && t.main == Left && t.callback == Free
  }

  /** The last job of the file was noticed as such: this is where a cleanup runs,
      if there is one, and where the counter goes. */
  predicate Noticed(t: State, f: File) {
    t.cleaned[f] == 1 && f !in t.filesRecord
  }

  /** When all is over all jobs are counted. */
  lemma AllCounted(s: State, f: File)
    requires Plain(s) && s.main == Left && s.callback == Free && Outstanding(s) == {}
    requires BookedBelow(s, f, s.archs)
    ensures Tally(s, f) == s.archs
  {
    hide Counts, Placed, Fresh;
    CountedAre(s, f);
    forall j | j in Dumps(f, s.archs) ensures j in Of(s.counted, f) {
      assert j == Dump(f, j.arch) && j in s.booked;
      assert j !in Outstanding(s);
    }
    assert Of(s.counted, f) == Dumps(f, s.archs);
  }

  /** In every run that is over, the end of a file's jobs was noticed if and only
      if its counter was never reset after a callback had added to it; otherwise
      the counter is still there, short of the number of jobs. */
  lemma NoticedUnlessLate(archs: nat, files: seq<File>, es: seq<Event>, t: State, f: File)
    requires archs > 0 && Distinct(files) && f in files && Ends(Init(archs, false, files), es, t)
    ensures Noticed(t, f) <==> !ResetLate(Init(archs, false, files), es, f)
    ensures !Noticed(t, f) ==> t.cleaned[f] == 0 && f in t.filesRecord && t.filesRecord[f] < archs
  {
    hide Run, ResetLate, Inv, Counts, CountedOk, Outstanding;
    var s := Init(archs, false, files);
    InitStands(archs, files, f);
    StandsRun(s, es, t, f, false);
    FinishIsSafe(archs, false, files, es, t);
    BegunRun(s, es, t, files);
    assert BegunOne(t, f);
    assert Dump(f, 0) in t.booked && !NoneFrom(t, f, 0);
    AllCounted(t, f);
  }

  // ---- runs can be completed

  function SubWork(s: State, sub: Sub): int {
    match sub
    case Reset(f, a) => 9 * (s.archs - a)
    case Book(j) => if j.Dump? then 9 * (s.archs - j.arch) - 1 else 0
    case Give(j) => if j.Dump? then 9 * (s.archs - j.arch) - 2 else 0
  }

  function MainWork(s: State): int {
    match s.main
    case Ready => 2
    case At(sub) => 2 + SubWork(s, sub)
    case Waiting => 1
    case Left => 0
  }

  function CallbackWork(s: State): int {
    match s.callback
    case Unbook(j) => 4
    case CountUp(j) => 3
    case Check(f) => 2
    case After(f) => 1
    case _ => 0
  }

  /** What is to do for n more files. */
  function FileWork(n: nat, archs: nat): nat { n * (9 * archs + 1) }

  /** How many steps are left at most. */
  function Work(s: State): int {
    FileWork(|s.todo|, s.archs) + MainWork(s) + CallbackWork(s) + 6 * |s.submitted| + 5 * |s.completed|
  }

  lemma SubmitsDumps(s: State)
    requires Plain(s) && s.main.At?
    ensures match s.main.sub
      case Reset(f, a) => a < s.archs
      case Book(j) => j.Dump? && j.arch < s.archs
      case Give(j) => j.Dump? && j.arch < s.archs
  {
    hide Counts, Placed;
  }

  lemma WorkIsLeft(s: State)
    requires Plain(s)
    ensures Work(s) >= 0
  {
    hide Plain, FileWork;
    if s.main.At? {
      SubmitsDumps(s);
    }
  }

  lemma OneFileLess(n: nat, archs: nat)
    requires n > 0
    ensures FileWork(n - 1, archs) == FileWork(n, archs) - 9 * archs - 1
  {
  }

  lemma SubWorks(s: State)
    requires Plain(s) && s.main.At?
    ensures Work(DoMain(s)) < Work(s)
  {
    hide Plain, FileWork, Started;
    SubmitsDumps(s);
    match s.main.sub
    case Reset(f, a) =>
    case Book(j) =>
    case Give(j) => assert |s.submitted + {j}| <= |s.submitted| + 1;
  }

  lemma MainWorks(s: State)
    requires Plain(s) && Enabled(s, MainStep)
    ensures Work(DoMain(s)) < Work(s)
  {
    if s.main.At? {
      SubWorks(s);
    } else {
      hide Plain, FileWork, Submit, NextSub;
      if s.main == Ready && s.todo != [] {
        OneFileLess(|s.todo|, s.archs);
      }
    }
  }

  lemma PoolWorks(s: State, j: Job)
    requires j in s.submitted
    ensures Work(Do(s, Complete(j))) < Work(s)
  {
    hide FileWork;
    assert |s.submitted - {j}| == |s.submitted| - 1 && |s.completed + {j}| <= |s.completed| + 1;
  }

  lemma TakeWorks(s: State, j: Job)
    requires j in s.completed && s.callback == Free && j.Dump?
    ensures Work(Do(s, Take(j))) < Work(s)
  {
    hide FileWork;
    assert |s.completed - {j}| == |s.completed| - 1;
  }

  lemma CallbackWorks(s: State)
    requires Enabled(s, CallbackStep) && !s.callback.MacAt? && !s.callback.MacUnbook?
    ensures Work(DoCallback(s)) < Work(s)
  {
    hide FileWork;
  }

  lemma PoolHasDumps(s: State, j: Job)
    requires Plain(s) && j in s.completed
    ensures j.Dump?
  {
    hide Counts;
    assert PlacedJob(s, j);
  }

  /** Every step is one towards the end. */
  lemma Works(s: State, e: Event)
    requires Plain(s) && Enabled(s, e)
    ensures Work(Do(s, e)) < Work(s)
  {
    hide Plain, Work, DoMain, DoCallback;
    match e
    case MainStep => MainWorks(s);
    case Complete(j) => PoolWorks(s, j);
    case Take(j) => PoolHasDumps(s, j); TakeWorks(s, j);
    case CallbackStep => NoMac(s); CallbackWorks(s);
  }

  /** So there are no endless runs. */
  lemma {:induction false} RunIsBounded(s: State, es: seq<Event>, t: State, f: File, late: bool)
    requires Plain(s) && Stands(s, f, late) && Run(s, es, t)
    ensures |es| <= Work(s)
    decreases |es|
  {
    hide Plain, Stands, Do, Enabled, LateNow, Work;
    if es == [] {
      WorkIsLeft(s);
    } else {
      StandsStep(s, es[0], f, late);
      Works(s, es[0]);
      RunIsBounded(Do(s, es[0]), es[1..], t, f, late || LateNow(s, es[0], f));
    }
  }

  ghost predicate AllStand(s: State) {
    Plain(s) && Over(s) && forall f :: Stands(s, f, true) || Stands(s, f, false)
  }

  lemma AllStandStep(s: State, e: Event)
    requires AllStand(s) && Enabled(s, e)
    ensures AllStand(Do(s, e))
  {
    hide Inv, Stands, Do, Enabled, LateNow, CountedOk;
    OverStep(s, e);
    assert Plain(Do(s, e)) by { StandsStep(s, e, "", Stands(s, "", true)); }
    forall f ensures Stands(Do(s, e), f, true) || Stands(Do(s, e), f, false) {
      StandsStep(s, e, f, Stands(s, f, true));
    }
  }

  /** While a run is not over, some thread can go on. */
  lemma NoDeadlock(s: State) returns (e: Event)
    requires AllStand(s) && !(s.main == Left && s.callback == Free)
    ensures Enabled(s, e)
  {
    hide Stands, Counts, PlacedJob, Fresh, CountedOk;
    if s.callback != Free {
      KeyIsThere(s);
      e := CallbackStep;
    } else if s.main != Waiting {
      e := MainStep;
    } else if j :| j in s.completed {
      e := Take(j);
    } else if j :| j in s.submitted {
      e := Complete(j);
    } else {
      AllBack(s);
      e := MainStep;
    }
  }

  lemma AllBack(s: State)
    requires Plain(s) && s.callback == Free && s.main == Waiting && s.completed == {} && s.submitted == {}
    ensures |s.jobsRecord| == 0
  {
    hide Counts, Fresh;
    forall j ensures j !in Outstanding(s) {
      assert PlacedJob(s, j);
    }
    CountsNothing(s.jobsRecord, Outstanding(s));
  }

  /** Every run can be completed. */
  lemma {:induction false} Completed(s: State) returns (es: seq<Event>, t: State)
    requires AllStand(s)
    ensures Ends(s, es, t)
    decreases Work(s)
  {
    hide AllStand, Do, Enabled, Work;
    PlainOf(s);
    WorkIsLeft(s);
    if s.main == Left && s.callback == Free {
      es, t := [], s;
    } else {
      var e := NoDeadlock(s);
      AllStandStep(s, e);
      Works(s, e);
      PlainOf(Do(s, e));
      WorkIsLeft(Do(s, e));
      var rest;
      rest, t := Completed(Do(s, e));
      es := [e] + rest;
      assert es[1..] == rest;
    }
  }

  lemma PlainOf(s: State)
    requires AllStand(s)
    ensures Plain(s)
  {
  }

  // ---- when there is one architecture, and when there are more

  lemma {:induction false} NeverLate(s: State, es: seq<Event>, t: State, f: File)
    requires Plain(s) && Stands(s, f, false) && s.archs == 1 && Run(s, es, t)
    ensures !ResetLate(s, es, f)
    decreases |es|
  {
    hide Plain, Stands, Do, Enabled;
    if es != [] {
      OnlyFirst(s, es[0], f);
      StandsStep(s, es[0], f, false);
      SameDumper(s, es[0]);
      NeverLate(Do(s, es[0]), es[1..], t, f);
    }
  }

  /** With one architecture a counter is reset before the only job. */
  lemma OnlyFirst(s: State, e: Event, f: File)
    requires Plain(s) && Stands(s, f, false) && s.archs == 1
    ensures !LateNow(s, e, f)
  {
    hide Counts, Placed;
  }

  lemma {:induction false} RunsJoin(s: State, es: seq<Event>, u: State, ds: seq<Event>, t: State, f: File)
    requires Run(s, es, u) && Run(u, ds, t)
    ensures Run(s, es + ds, t) && (ResetLate(u, ds, f) ==> ResetLate(s, es + ds, f))
    decreases |es|
  {
    hide Do, Enabled, LateNow;
    if es == [] {
      assert es + ds == ds;
    } else {
      assert (es + ds)[1..] == es[1..] + ds;
      RunsJoin(Do(s, es[0]), es[1..], u, ds, t, f);
    }
  }

  lemma Then(s: State, es: seq<Event>, t: State, e: Event) returns (es': seq<Event>, t': State)
    requires Run(s, es, t) && Enabled(t, e)
    ensures es' == es + [e] && t' == Do(t, e) && Run(s, es', t')
  {
    hide Do, Enabled;
    es', t' := es + [e], Do(t, e);
    assert [e][1..] == [];
    RunsJoin(s, es, t, [e], t', "");
  }

  /** The first job of the first file is with the pool. */
  function FirstGiven(archs: nat, files: seq<File>): State
    requires files != []
  {
    var f := files[0];
    Init(archs, false, files).(todo := files[1..], main := At(Reset(f, 1)), filesRecord := map[f := 0],
      jobsRecord := map[f := 1], booked := {Dump(f, 0)}, submitted := {Dump(f, 0)})
  }

  lemma FirstJobGiven(archs: nat, files: seq<File>) returns (es: seq<Event>)
    requires archs >= 2 && files != []
    ensures Run(Init(archs, false, files), es, FirstGiven(archs, files))
  {
    hide Run;
    var s, t := Init(archs, false, files), Init(archs, false, files);
    es := [];
    Itself(s);
    es, t := Then(s, es, t, MainStep);
    es, t := Then(s, es, t, MainStep);
    es, t := Then(s, es, t, MainStep);
    es, t := Then(s, es, t, MainStep);
    assert t == FirstGiven(archs, files);
  }

  /** It can be called back before the second is submitted. */
  lemma FirstJobDone(archs: nat, files: seq<File>) returns (es: seq<Event>, t: State)
    requires archs >= 2 && files != []
    ensures Run(Init(archs, false, files), es, t)
    ensures LateNow(t, MainStep, files[0]) && Enabled(t, MainStep)
  {
    hide Run;
    var s, d := Init(archs, false, files), Dump(files[0], 0);
    es := FirstJobGiven(archs, files);
    t := FirstGiven(archs, files);
    es, t := Then(s, es, t, Complete(d));
    assert d in t.completed;
    es, t := Then(s, es, t, Take(d));
    es, t := Then(s, es, t, CallbackStep);
    es, t := Then(s, es, t, CallbackStep);
    assert d in Of(t.counted, files[0]);
  }

  lemma Itself(s: State)
    ensures Run(s, [], s)
  {
  }

  lemma InitAllStand(archs: nat, files: seq<File>)
    requires archs > 0 && Distinct(files)
    ensures AllStand(Init(archs, false, files))
  {
    hide Plain, Stands;
    forall f ensures Plain(Init(archs, false, files)) && Stands(Init(archs, false, files), f, false) {
      InitStands(archs, files, f);
    }
    InitStands(archs, files, "");
  }

  lemma {:induction false} AllStandRun(s: State, es: seq<Event>, t: State)
    requires AllStand(s) && Run(s, es, t)
    ensures AllStand(t)
    decreases |es|
  {
    hide AllStand, Do, Enabled;
    if es != [] {
      AllStandStep(s, es[0]);
      AllStandRun(Do(s, es[0]), es[1..], t);
    }
  }

  lemma FromLate(u: State, rest: seq<Event>, t: State, f: File)
    requires Enabled(u, MainStep) && LateNow(u, MainStep, f) && Run(Do(u, MainStep), rest, t)
    ensures Run(u, [MainStep] + rest, t) && ResetLate(u, [MainStep] + rest, f)
  {
    hide Do, Enabled, LateNow;
    assert ([MainStep] + rest)[1..] == rest;
  }

  /** With more architectures, for any files, some run misses the end of the first
      file's jobs. */
  lemma SomeRunMisses(archs: nat, files: seq<File>) returns (es: seq<Event>, t: State)
    requires archs >= 2 && Distinct(files) && files != []
    ensures Ends(Init(archs, false, files), es, t) && !Noticed(t, files[0])
  {
    hide Run, Init, AllStand, Do, Enabled, LateNow;
    var s, f := Init(archs, false, files), files[0];
    var first, u := FirstJobDone(archs, files);
    InitAllStand(archs, files);
    AllStandRun(s, first, u);
    AllStandStep(u, MainStep);
    var rest;
    rest, t := Completed(Do(u, MainStep));
    var last := [MainStep] + rest;
    FromLate(u, rest, t, f);
    es := first + last;
    RunsJoin(s, first, u, last, t, f);
    NoticedUnlessLate(archs, files, es, t, f);
  }

  /** In all runs the end of every file's jobs is noticed, if and only if there is
      one architecture. */
  lemma AlwaysNoticedIff(archs: nat, files: seq<File>)
    requires archs > 0 && Distinct(files) && files != []
    ensures (forall es, t, f :: Ends(Init(archs, false, files), es, t) && f in files ==> Noticed(t, f)) <==> archs == 1
  {
    hide Run, Init, Noticed;
    var s := Init(archs, false, files);
    if archs == 1 {
      forall es, t, f | Ends(s, es, t) && f in files ensures Noticed(t, f) {
        InitStands(archs, files, f);
        OneArch(archs, files);
        NeverLate(s, es, t, f);
        NoticedUnlessLate(archs, files, es, t, f);
      }
    } else {
      var es, t := SomeRunMisses(archs, files);
      assert Ends(s, es, t) && files[0] in files && !Noticed(t, files[0]);
    }
  }

  lemma OneArch(archs: nat, files: seq<File>)
    ensures Init(archs, false, files).archs == archs
  {
  }

  /** From the start, on a Mac or not: no callback meets a missing counter. */
  lemma CallbacksGoOn(archs: nat, mac: bool, files: seq<File>, es: seq<Event>, t: State)
    requires archs > 0 && Distinct(files) && Run(Init(archs, mac, files), es, t) && t.callback != Free
    ensures Enabled(t, CallbackStep)
  {
    hide Run, Init, Enabled, Stands, Plain, Cleans, Inv;
    var s := Init(archs, mac, files);
    if mac {
      InitIsInv(archs, mac, files);
      InitCleans(archs, files);
      CleansOnce(s, es, t);
      NoKeyError(t);
    } else {
      InitAllStand(archs, files);
      AllStandRun(s, es, t);
      KeyIsThere(t);
    }
  }
}
