/** The bookkeeping of asynchronous jobs in the symbol store: what the main
    thread, the pool and its callback thread do, step by step
    (mk/linux/symbolstore.py:386-404, 485-554, 797-808). */
module SymbolJobs {
  type File = string

  /** A job, with the file it is booked under: pre-processing on a Mac, or dumping
      the symbols of one architecture. */
  datatype Job = Pre(file: File) | Dump(file: File, arch: nat)

  // ---- the two dictionaries

  /** JobStarted */
  function Started(rec: map<File, int>, k: File): map<File, int> {
    rec[k := Value(rec, k) + 1]
  }

  /** JobFinished */
  function Finished(rec: map<File, int>, k: File): map<File, int> {
    if Value(rec, k) - 1 == 0 then rec - {k} else rec[k := Value(rec, k) - 1]
  }

  /** A dictionary whose values are 0 by default. */
  function Value(rec: map<File, int>, k: File): int {
    if k in rec then rec[k] else 0
  }

  function Of(jobs: set<Job>, k: File): set<Job> {
    set j | j in jobs && j.file == k
  }

  /** The dictionary says how many of these jobs there are for every file. */
  ghost predicate Counts(rec: map<File, int>, jobs: set<Job>) {
    forall k: File :: CountsFor(rec, jobs, k)
  }

  ghost predicate CountsFor(rec: map<File, int>, jobs: set<Job>, k: File) {
    if Of(jobs, k) == {} then k !in rec else k in rec && rec[k] == |Of(jobs, k)|
  }

  lemma CountsStarted(rec: map<File, int>, jobs: set<Job>, j: Job)
    requires Counts(rec, jobs) && j !in jobs
    ensures Counts(Started(rec, j.file), jobs + {j})
  {
    forall k: File ensures CountsFor(Started(rec, j.file), jobs + {j}, k) {
      assert CountsFor(rec, jobs, k);
      if k == j.file {
        assert Of(jobs + {j}, k) == Of(jobs, k) + {j};
      } else {
        assert Of(jobs + {j}, k) == Of(jobs, k);
      }
    }
  }

  lemma CountsFinished(rec: map<File, int>, jobs: set<Job>, j: Job)
    requires Counts(rec, jobs) && j in jobs
    ensures Counts(Finished(rec, j.file), jobs - {j})
  {
    forall k: File ensures CountsFor(Finished(rec, j.file), jobs - {j}, k) {
      assert CountsFor(rec, jobs, k);
      if k == j.file {
        assert Of(jobs - {j}, k) == Of(jobs, k) - {j} && j in Of(jobs, k);
        assert |Of(jobs, k) - {j}| == |Of(jobs, k)| - 1;
        assert |Of(jobs, k)| > 1 ==> Of(jobs, k) - {j} != {};
      } else {
        assert Of(jobs - {j}, k) == Of(jobs, k);
      }
    }
  }

  lemma CountsNothing(rec: map<File, int>, jobs: set<Job>)
    requires Counts(rec, jobs)
    ensures |rec| == 0 <==> jobs == {}
  {
    if j :| j in jobs {
      assert CountsFor(rec, jobs, j.file) && j in Of(jobs, j.file);
      assert j.file in rec;
    }
    if k :| k in rec {
      assert CountsFor(rec, jobs, k);
      var j :| j in Of(jobs, k);
      assert j in jobs;
    }
  }

  /** The methods that keep the dictionaries, each one atomic: what they do under
      their lock, or in one step of the callback thread. */
  class Dumper {
    const archs: nat
    var jobsRecord: map<File, int>
    var filesRecord: map<File, int>

    constructor (archs: nat)
      ensures this.archs == archs && jobsRecord == map[] && filesRecord == map[]
    {
      this.archs, jobsRecord, filesRecord := archs, map[], map[];
    }

    method JobStarted(key: File)
      modifies this`jobsRecord
      ensures jobsRecord == Started(old(jobsRecord), key)
    {
      if key !in jobsRecord { jobsRecord := jobsRecord[key := 0]; }
      jobsRecord := jobsRecord[key := jobsRecord[key] + 1];
    }

    method JobFinished(key: File)
      modifies this`jobsRecord
      ensures jobsRecord == Finished(old(jobsRecord), key)
    {
      if key !in jobsRecord { jobsRecord := jobsRecord[key := 0]; }
      jobsRecord := jobsRecord[key := jobsRecord[key] - 1];
      if jobsRecord[key] == 0 { jobsRecord := jobsRecord - {key}; }
    }
  }

  // ---- who does what

  /** Submitting: the tuple's counter is reset, the job is booked, and it is given
      to the pool. */
  datatype Sub = Reset(file: File, arch: nat) | Book(job: Job) | Give(job: Job)

  /** The main thread: about to process the next file, or submitting, or waiting
      in Finish, or past its wait. */
  datatype Main = Ready | At(sub: Sub) | Waiting | Left

  /** The callback thread: free, or in ProcessFilesFinished, or in
      ProcessFilesMacFinished, where it submits jobs itself. */
  datatype Callback =
    | Free
    | Unbook(job: Job)
    | CountUp(job: Job)
    | Check(file: File)
    | After(file: File)
    | MacAt(file: File, sub: Sub)
    | MacUnbook(file: File)

  datatype State = State(
    archs: nat, mac: bool, todo: seq<File>, main: Main, callback: Callback,
    jobsRecord: map<File, int>, filesRecord: map<File, int>,
    // given to the pool; and done there, its callback still to come
    submitted: set<Job>, completed: set<Job>,
    // all that were ever booked; unbooked; counted for their tuple; and tuples cleaned up
    booked: set<Job>, unbooked: set<Job>, counted: set<Job>, cleaned: multiset<File>)

  /** One step of one thread. */
  datatype Event = MainStep | Complete(job: Job) | Take(job: Job) | CallbackStep

  /** What a step of submitting does to the dictionaries, the pool and the books. */
  function Submit(s: State, sub: Sub): State {
    match sub
    case Reset(f, a) => s.(filesRecord := s.filesRecord[f := 0])
    case Book(j) => s.(jobsRecord := Started(s.jobsRecord, j.file), booked := s.booked + {j})
    case Give(j) => s.(submitted := s.submitted + {j})
  }

  /** The next step of submitting, if there is one: one job per architecture. */
  function NextSub(s: State, sub: Sub): (next: seq<Sub>)
    ensures |next| <= 1
  {
    match sub
    case Reset(f, a) => [Book(Dump(f, a))]
    case Book(j) => [Give(j)]
    case Give(j) => if j.Dump? && j.arch + 1 < s.archs then [Reset(j.file, j.arch + 1)] else []
  }

  predicate Enabled(s: State, e: Event) {
    match e
    case MainStep => s.main != Left && (s.main == Waiting ==> |s.jobsRecord| == 0)
    case Complete(j) => j in s.submitted
    case Take(j) => s.callback == Free && j in s.completed
    case CallbackStep =>
      && s.callback != Free
      && (s.callback.CountUp? ==> s.callback.job.file in s.filesRecord)
      && (s.callback.Check? ==> s.callback.file in s.filesRecord)
  }

  function Do(s: State, e: Event): State
    requires Enabled(s, e)
  {
    match e
    case MainStep => DoMain(s)
    case Complete(j) => s.(submitted := s.submitted - {j}, completed := s.completed + {j})
    case Take(j) =>
      s.(completed := s.completed - {j}, callback := if j.Pre? then MacAt(j.file, Reset(j.file, 0)) else Unbook(j))
    case CallbackStep => DoCallback(s)
  }

  function DoMain(s: State): State
    requires Enabled(s, MainStep)
  {
    match s.main
    case Ready =>
      if s.todo == [] then s.(main := Waiting)
      else s.(todo := s.todo[1..], main := At(if s.mac then Book(Pre(s.todo[0])) else Reset(s.todo[0], 0)))
    case At(sub) =>
      var next := NextSub(s, sub);
      Submit(s, sub).(main := if next == [] then Ready else At(next[0]))
    case Waiting => s.(main := Left)
  }

  function DoCallback(s: State): State
    requires Enabled(s, CallbackStep)
  {
    match s.callback
    case Unbook(j) =>
      s.(jobsRecord := Finished(s.jobsRecord, j.file), unbooked := s.unbooked + {j}, callback := CountUp(j))
    case CountUp(j) =>
      s.(filesRecord := s.filesRecord[j.file := s.filesRecord[j.file] + 1], counted := s.counted + {j}, callback := Check(j.file))
    case Check(f) =>
      if s.filesRecord[f] == s.archs then s.(filesRecord := s.filesRecord - {f}, callback := After(f)) else s.(callback := Free)
    case After(f) => s.(cleaned := s.cleaned + multiset{f}, callback := Free)
    case MacAt(f, sub) =>
      var next := NextSub(s, sub);
      Submit(s, sub).(callback := if next == [] then MacUnbook(f) else MacAt(f, next[0]))
    case MacUnbook(f) =>
      s.(jobsRecord := Finished(s.jobsRecord, f), unbooked := s.unbooked + {Pre(f)}, callback := Free)
  }

  // ---- what every step keeps

  /** The main thread is about to give the job to the pool. */
  predicate InMain(s: State, j: Job) {
    s.main == At(Give(j))
  }

  /** The callback thread is about to give the job to the pool, or has not unbooked
      it yet. */
  predicate InCallback(s: State, j: Job) {
    match s.callback
    case Free => false
    case Unbook(k) => j == k
    case CountUp(k) => false
    case Check(f) => false
    case After(f) => false
    case MacAt(f, sub) => j == Pre(f) || sub == Give(j)
    case MacUnbook(f) => j == Pre(f)
  }

  /** Submitted, and not yet called back. */
  function Outstanding(s: State): set<Job> { s.booked - s.unbooked }

  function One(b: bool): nat { if b then 1 else 0 }

  /** Every outstanding job is in one place: on its way into the pool, in the pool,
      done there, or in its callback. */
  ghost predicate Placed(s: State) {
    s.unbooked <= s.booked && forall j :: PlacedJob(s, j)
  }

  ghost predicate PlacedJob(s: State, j: Job) {
    One(InMain(s, j)) + One(InCallback(s, j)) + One(j in s.submitted) + One(j in s.completed) == One(j in Outstanding(s))
  }

  /** From architecture a on no job has been booked for the file. */
  ghost predicate NoneFrom(s: State, f: File, a: nat) {
    forall j :: j in s.booked && j.Dump? && j.file == f ==> j.arch < a
  }

  /** The jobs of a tuple are submitted in order. */
  ghost predicate SubOk(s: State, sub: Sub) {
    match sub
    case Reset(f, a) => a < s.archs && NoneFrom(s, f, a)
    case Book(j) => j.Dump? && j.arch < s.archs && NoneFrom(s, j.file, j.arch)
    case Give(j) => j.Dump? && j.arch < s.archs && NoneFrom(s, j.file, j.arch + 1)
  }

  function SubFile(sub: Sub): File {
    match sub
    case Reset(f, a) => f
    case Book(j) => j.file
    case Give(j) => j.file
  }

  /** Files are distinct, and jobs are booked once. */
  ghost predicate Fresh(s: State) {
    && s.archs > 0 && (s.main == Waiting || s.main == Left ==> s.todo == [])
    && (forall i, j :: 0 <= i < j < |s.todo| ==> s.todo[i] != s.todo[j])
    && (forall j :: j in s.booked ==> j.file !in s.todo && (j.Dump? ==> j.arch < s.archs) && (j.Pre? ==> s.mac))
    && (s.main.At? ==> SubFile(s.main.sub) !in s.todo)
    && (s.main.At? && !s.mac ==> SubOk(s, s.main.sub))
    && (s.main.At? && s.mac ==> match s.main.sub
        case Reset(f, a) => false
        case Book(j) => j.Pre? && Of(s.booked, j.file) == {}
        case Give(j) => j.Pre?)
    && (s.callback.MacAt? ==> SubOk(s, s.callback.sub) && SubFile(s.callback.sub) == s.callback.file)
    && (forall f :: PreWaits(s, f) ==> NoneFrom(s, f, 0))
  }

  /** Pre-processing of the file is under way, but its callback has not begun. */
  predicate PreWaits(s: State, f: File) {
    InMain(s, Pre(f)) || Pre(f) in s.submitted || Pre(f) in s.completed
  }

  ghost predicate Inv(s: State) {
    Counts(s.jobsRecord, Outstanding(s)) && Placed(s) && Fresh(s)
  }

  function Init(archs: nat, mac: bool, files: seq<File>): State {
    State(archs, mac, files, Ready, Free, map[], map[], {}, {}, {}, {}, {}, multiset{})
  }

  predicate Distinct(files: seq<File>) {
    forall i, j :: 0 <= i < j < |files| ==> files[i] != files[j]
  }

  lemma InitIsInv(archs: nat, mac: bool, files: seq<File>)
    requires archs > 0 && Distinct(files)
    ensures Inv(Init(archs, mac, files))
  {
    var s := Init(archs, mac, files);
    forall k: File ensures CountsFor(s.jobsRecord, Outstanding(s), k) {
      assert Of(Outstanding(s), k) == {};
    }
  }

  lemma NotBooked(s: State, sub: Sub)
    requires sub.Book? && (SubOk(s, sub) || (sub.job.Pre? && Of(s.booked, sub.job.file) == {}))
    ensures sub.job !in s.booked
  {
    assert sub.job in s.booked ==> sub.job in Of(s.booked, sub.job.file);
  }

  lemma InvMain(s: State)
    requires Inv(s) && Enabled(s, MainStep)
    ensures Inv(DoMain(s))
  {
    hide Counts, Placed, Fresh;
    match s.main
    case Ready => MainReady(s);
    case At(sub) =>
      match sub {
        case Reset(f, a) => MainReset(s);
        case Book(j) => MainBook(s);
        case Give(j) => MainGive(s);
      }
    case Waiting => MainLeaves(s);
  }

  lemma MainReady(s: State)
    requires Inv(s) && s.main == Ready
    ensures Inv(DoMain(s))
  {
    hide Counts;
    if s.todo != [] {
      NoneOf(s, s.todo[0]);
    }
    SamePlaces(s, DoMain(s));
  }

  /** A step that moves no job keeps all of them placed. */
  lemma SamePlaces(s: State, t: State)
    requires Placed(s) && (forall f :: PreWaits(s, f) ==> NoneFrom(s, f, 0))
    requires t.booked == s.booked && t.unbooked == s.unbooked && t.submitted == s.submitted && t.completed == s.completed
    requires forall j :: InMain(t, j) == InMain(s, j) && InCallback(t, j) == InCallback(s, j)
    ensures Placed(t) && forall f :: PreWaits(t, f) ==> NoneFrom(t, f, 0)
  {
    forall j ensures PlacedJob(t, j) { assert PlacedJob(s, j); }
    forall f | PreWaits(t, f) ensures NoneFrom(t, f, 0) { assert PreWaits(s, f); }
  }

  /** A file still to come has no jobs. */
  lemma NoneOf(s: State, f: File)
    requires Fresh(s) && f in s.todo
    ensures Of(s.booked, f) == {} && NoneFrom(s, f, 0)
  {
  }

  lemma MainReset(s: State)
    requires Inv(s) && s.main.At? && s.main.sub.Reset?
    ensures Inv(DoMain(s))
  {
    hide Counts;
    SamePlaces(s, DoMain(s));
  }

  lemma MainLeaves(s: State)
    requires Inv(s) && s.main == Waiting
    ensures Inv(s.(main := Left))
  {
    hide Counts;
    SamePlaces(s, s.(main := Left));
  }

  lemma MainGive(s: State)
    requires Inv(s) && s.main.At? && s.main.sub.Give?
    ensures Inv(DoMain(s))
  {
    hide Counts;
    var t := DoMain(s);
    forall k ensures PlacedJob(t, k) { assert PlacedJob(s, k); }
    forall f | PreWaits(t, f) ensures NoneFrom(t, f, 0) { assert PreWaits(s, f); }
  }

  lemma MainBook(s: State)
    requires Inv(s) && s.main.At? && s.main.sub.Book?
    ensures Inv(DoMain(s))
  {
    hide Counts, Placed, Fresh;
    var j := s.main.sub.job;
    BookOk(s);
    NotBooked(s, s.main.sub);
    CountsStarted(s.jobsRecord, Outstanding(s), j);
    MainBookPlaced(s, j);
    MainBookFresh(s, j);
  }

  lemma BookOk(s: State)
    requires Fresh(s) && s.main.At? && s.main.sub.Book?
    ensures SubOk(s, s.main.sub) || (s.main.sub.job.Pre? && Of(s.booked, s.main.sub.job.file) == {})
  {
  }

  lemma MainBookPlaced(s: State, j: Job)
    requires Placed(s) && s.main == At(Book(j)) && j !in s.booked
    ensures Placed(DoMain(s)) && Outstanding(DoMain(s)) == Outstanding(s) + {j}
  {
    var t := DoMain(s);
    forall k ensures PlacedJob(t, k) {
      assert PlacedJob(s, k);
    }
  }

  lemma PreMeansMac(s: State, f: File)
    requires Placed(s) && Fresh(s) && PreWaits(s, f)
    ensures s.mac
  {
    assert PlacedJob(s, Pre(f));
  }

  /** Only on a Mac do callbacks submit jobs. */
  lemma CallbackMeansMac(s: State, f: File)
    requires Placed(s) && Fresh(s) && InCallback(s, Pre(f))
    ensures s.mac
  {
    assert PlacedJob(s, Pre(f));
  }

  lemma MainBookFresh(s: State, j: Job)
    requires Fresh(s) && Placed(s) && s.main == At(Book(j)) && j !in s.booked
    ensures Fresh(DoMain(s))
  {
    var t := DoMain(s);
    if s.callback.MacAt? {
      CallbackMeansMac(s, s.callback.file);
    }
    if !s.mac {
      assert NoneFrom(t, j.file, j.arch + 1);
    }
    forall f | PreWaits(t, f) ensures NoneFrom(t, f, 0) {
      if Pre(f) == j {
        OnlyPre(s, f);
      } else {
        PreMeansMac(s, f);
      }
    }
  }

  lemma OnlyPre(s: State, f: File)
    requires Of(s.booked, f) == {}
    ensures NoneFrom(s, f, 0)
  {
    assert forall j :: j in s.booked && j.file == f ==> j in Of(s.booked, f);
  }

  lemma InvComplete(s: State, j: Job)
    requires Inv(s) && j in s.submitted
    ensures Inv(Do(s, Complete(j)))
  {
    hide Counts;
    var t := Do(s, Complete(j));
    forall k ensures PlacedJob(t, k) { assert PlacedJob(s, k); }
    forall f | PreWaits(t, f) ensures NoneFrom(t, f, 0) { assert PreWaits(s, f); }
  }

  lemma InvTake(s: State, j: Job)
    requires Inv(s) && Enabled(s, Take(j))
    ensures Inv(Do(s, Take(j)))
  {
    hide Counts;
    var t := Do(s, Take(j));
    forall k ensures PlacedJob(t, k) { assert PlacedJob(s, k); }
    forall f | PreWaits(t, f) ensures NoneFrom(t, f, 0) { assert PreWaits(s, f); }
    if j.Pre? {
      assert PreWaits(s, j.file);
    }
  }

  lemma InvCallback(s: State)
    requires Inv(s) && Enabled(s, CallbackStep)
    ensures Inv(DoCallback(s))
  {
    hide Counts, Placed, Fresh;
    match s.callback
    case Unbook(j) => Unbooks(s, j, CountUp(j));
    case CountUp(j) => Keeps(s);
    case Check(f) => Keeps(s);
    case After(f) => Keeps(s);
    case MacAt(f, sub) =>
      match sub {
        case Reset(g, a) => MacReset(s);
        case Book(j) => MacBook(s, j);
        case Give(j) => MacGive(s, j);
      }
    case MacUnbook(f) => Unbooks(s, Pre(f), Free);
  }

  lemma Keeps(s: State)
    requires Inv(s) && Enabled(s, CallbackStep) && (s.callback.CountUp? || s.callback.Check? || s.callback.After?)
    ensures Inv(DoCallback(s))
  {
    hide Counts;
    SamePlaces(s, DoCallback(s));
  }

  lemma Unbooks(s: State, j: Job, next: Callback)
    requires Inv(s) && ((s.callback == Unbook(j) && next == CountUp(j)) || (s.callback == MacUnbook(j.file) && j.Pre? && next == Free))
    ensures Inv(DoCallback(s))
  {
    hide Counts;
    var t := DoCallback(s);
    assert PlacedJob(s, j);
    CountsFinished(s.jobsRecord, Outstanding(s), j);
    assert Outstanding(t) == Outstanding(s) - {j};
    forall k ensures PlacedJob(t, k) { assert PlacedJob(s, k); }
    forall f | PreWaits(t, f) ensures NoneFrom(t, f, 0) { assert PreWaits(s, f); }
  }

  lemma MacReset(s: State)
    requires Inv(s) && s.callback.MacAt? && s.callback.sub.Reset?
    ensures Inv(DoCallback(s))
  {
    hide Counts;
    SamePlaces(s, DoCallback(s));
  }

  lemma MacGive(s: State, j: Job)
    requires Inv(s) && s.callback.MacAt? && s.callback.sub == Give(j)
    ensures Inv(DoCallback(s))
  {
    hide Counts;
    var t := DoCallback(s);
    forall k ensures PlacedJob(t, k) { assert PlacedJob(s, k); }
    forall f | PreWaits(t, f) ensures NoneFrom(t, f, 0) { assert PreWaits(s, f); }
  }

  lemma MacBook(s: State, j: Job)
    requires Inv(s) && s.callback.MacAt? && s.callback.sub == Book(j)
    ensures Inv(DoCallback(s))
  {
    hide Counts;
    var t := DoCallback(s);
    NotBooked(s, s.callback.sub);
    CountsStarted(s.jobsRecord, Outstanding(s), j);
    assert Outstanding(t) == Outstanding(s) + {j};
    forall k ensures PlacedJob(t, k) { assert PlacedJob(s, k); }
    CallbackMeansMac(s, s.callback.file);
    MacBookFresh(s, j);
  }

  lemma MacBookFresh(s: State, j: Job)
    requires Fresh(s) && Placed(s) && s.mac && s.callback.MacAt? && s.callback.sub == Book(j) && j !in s.booked
    ensures Fresh(DoCallback(s))
  {
    var t, f := DoCallback(s), s.callback.file;
    assert PlacedJob(s, Pre(f));
    assert f !in s.todo;
    assert NoneFrom(t, f, j.arch + 1);
    forall g | PreWaits(t, g) ensures NoneFrom(t, g, 0) {
      assert PreWaits(s, g) && PlacedJob(s, Pre(g));
    }
  }

  lemma InvStep(s: State, e: Event)
    requires Inv(s) && Enabled(s, e)
    ensures Inv(Do(s, e))
  {
    hide Inv, DoMain, DoCallback;
    match e
    case MainStep => InvMain(s);
    case Complete(j) => InvComplete(s, j);
    case Take(j) => InvTake(s, j);
    case CallbackStep => InvCallback(s);
  }

  // ---- what Finish can rely on

  /** Past its wait there is no job left, and there never will be. */
  ghost predicate Over(s: State) {
    s.main == Left ==> Outstanding(s) == {}
  }

  lemma OverStep(s: State, e: Event)
    requires Inv(s) && Over(s) && Enabled(s, e)
    ensures Over(Do(s, e)) && (s.main == Left ==> Do(s, e).main == Left && Do(s, e).booked == s.booked)
  {
    hide Fresh, Counts, PlacedJob;
    if s.main == Waiting && e == MainStep {
      CountsNothing(s.jobsRecord, Outstanding(s));
    }
    if s.callback.MacAt? {
      StillOut(s, s.callback.file);
    }
  }

  lemma StillOut(s: State, f: File)
    requires Placed(s) && s.callback.MacAt? && s.callback.file == f
    ensures Outstanding(s) != {}
  {
    assert PlacedJob(s, Pre(f));
  }

  /** A run of steps, in any order the threads may take them. */
  ghost predicate Run(s: State, es: seq<Event>, t: State)
    decreases |es|
  {
    if es == [] then s == t else Enabled(s, es[0]) && Run(Do(s, es[0]), es[1..], t)
  }

  /** In every run the record counts the jobs submitted and not yet called back, for
      each file; and Finish leaves its wait only when there are none, with all
      files processed. */
  lemma {:induction false} FinishWaitsForAll(s: State, es: seq<Event>, t: State)
    requires Inv(s) && Over(s) && Run(s, es, t)
    ensures Inv(t) && Over(t)
    ensures forall k: File :: CountsFor(t.jobsRecord, Outstanding(t), k)
    ensures t.main == Left ==> t.todo == [] && t.jobsRecord == map[] && t.submitted == {} && t.completed == {}
    decreases |es|
  {
    hide Do, Enabled, Placed;
    if es == [] {
      if t.main == Left {
        NothingLeft(t);
      }
    } else {
      InvStep(s, es[0]);
      OverStep(s, es[0]);
      FinishWaitsForAll(Do(s, es[0]), es[1..], t);
    }
  }

  /** From the start, in every run. */
  lemma FinishIsSafe(archs: nat, mac: bool, files: seq<File>, es: seq<Event>, t: State)
    requires archs > 0 && Distinct(files) && Run(Init(archs, mac, files), es, t)
    ensures Inv(t)
    ensures forall k: File :: CountsFor(t.jobsRecord, Outstanding(t), k)
    ensures t.main == Left ==> t.todo == [] && Outstanding(t) == {} && t.jobsRecord == map[]
    ensures t.main == Left ==> t.submitted == {} && t.completed == {}
  {
    hide Inv, Run;
    InitIsInv(archs, mac, files);
    FinishWaitsForAll(Init(archs, mac, files), es, t);
  }

  lemma NothingLeft(s: State)
    requires Inv(s) && Outstanding(s) == {}
    ensures s.jobsRecord == map[] && s.submitted == {} && s.completed == {}
  {
    hide Fresh, Counts;
    CountsNothing(s.jobsRecord, Outstanding(s));
    forall j ensures j !in s.submitted && j !in s.completed {
      assert PlacedJob(s, j);
    }
  }

  // ---- cleaning up after a Mac bundle

  /** Below architecture a every job of the file has been booked. */
  ghost predicate BookedBelow(s: State, f: File, a: nat) {
    forall b: nat :: b < a ==> Dump(f, b) in s.booked
  }

  function NextArch(sub: Sub): nat {
    match sub
    case Reset(f, a) => a
    case Book(j) => if j.Dump? then j.arch else 0
    case Give(j) => if j.Dump? then j.arch + 1 else 0
  }

  predicate Submits(s: State, f: File) {
    s.callback.MacAt? && s.callback.file == f
  }

  function Tally(s: State, f: File): nat { |Of(s.counted, f)| }

  /** Where a tuple of files stands: its jobs are being submitted, or none has
      been, or all have. Then the counter says how many are counted, until it
      reaches their number and the cleanup follows. */
  ghost predicate TupleOk(s: State, f: File) {
    if Submits(s, f) then
      Tally(s, f) == 0 && s.cleaned[f] == 0 && BookedBelow(s, f, NextArch(s.callback.sub)) &&
      (s.callback.sub != Reset(f, 0) ==> f in s.filesRecord && s.filesRecord[f] == 0)
    else if NoneFrom(s, f, 0) then
      Tally(s, f) == 0 && s.cleaned[f] == 0 && s.callback != Check(f) && s.callback != After(f)
    else
      BookedBelow(s, f, s.archs) && Tally(s, f) <= s.archs &&
      if s.callback == After(f) then Tally(s, f) == s.archs && s.cleaned[f] == 0
      else if s.callback == Check(f) || Tally(s, f) < s.archs then
        f in s.filesRecord && s.filesRecord[f] == Tally(s, f) && s.cleaned[f] == 0
      else s.cleaned[f] == 1
  }

  /** Jobs called back are counted, one after the other. */
  ghost predicate CountedOk(s: State) {
    && (forall j :: j in s.counted ==> j.Dump? && j in s.unbooked && s.callback != CountUp(j))
    && (forall j :: j in s.unbooked && j.Dump? ==> j in s.counted || s.callback == CountUp(j))
    && (s.callback.Unbook? ==> s.callback.job.Dump?)
    && (s.callback.CountUp? ==> s.callback.job.Dump? && s.callback.job in s.unbooked)
    && (forall f :: Pre(f) in s.unbooked || s.callback == MacUnbook(f) ==> BookedBelow(s, f, s.archs))
  }

  ghost predicate Cleans(s: State) {
    s.mac && CountedOk(s) && forall f :: TupleOk(s, f)
  }

  /** The jobs of a tuple. */
  function Dumps(f: File, n: nat): (r: set<Job>)
    ensures |r| == n && forall j :: j in r <==> j.Dump? && j.file == f && j.arch < n
  {
    if n == 0 then {} else Dumps(f, n - 1) + {Dump(f, n - 1)}
  }

  lemma InitCleans(archs: nat, files: seq<File>)
    ensures Cleans(Init(archs, true, files))
  {
    var s := Init(archs, true, files);
    forall f ensures TupleOk(s, f) {
      assert Of(s.counted, f) == {};
    }
  }

  lemma CleansMain(s: State)
    requires Inv(s) && Cleans(s) && Enabled(s, MainStep)
    ensures Cleans(DoMain(s))
  {
    hide Counts, Placed;
    var t := DoMain(s);
    forall f ensures TupleOk(t, f) {
      assert TupleOk(s, f);
      SameTuple(s, t, f);
    }
  }

  /** What else happens does not touch the tuple. */
  lemma SameTuple(s: State, t: State, f: File)
    requires TupleOk(s, f) && t.callback == s.callback && t.counted == s.counted && t.cleaned == s.cleaned && t.archs == s.archs
    requires f in s.filesRecord ==> f in t.filesRecord && t.filesRecord[f] == s.filesRecord[f]
    requires forall j: Job :: j.Dump? ==> (j in s.booked <==> j in t.booked)
    ensures TupleOk(t, f)
  {
  }

  lemma CleansComplete(s: State, j: Job)
    requires Cleans(s) && j in s.submitted
    ensures Cleans(Do(s, Complete(j)))
  {
    var t := Do(s, Complete(j));
    forall f ensures TupleOk(t, f) {
      assert TupleOk(s, f);
      SameTuple(s, t, f);
    }
  }

  lemma CleansTake(s: State, j: Job)
    requires Inv(s) && Cleans(s) && Enabled(s, Take(j))
    ensures Cleans(Do(s, Take(j)))
  {
    hide Counts;
    var t := Do(s, Take(j));
    assert PlacedJob(s, j);
    forall f ensures TupleOk(t, f) {
      assert TupleOk(s, f);
      assert j == Pre(f) ==> PreWaits(s, f);
    }
  }

  lemma CleansUnbook(s: State, j: Job)
    requires Inv(s) && Cleans(s) && s.callback == Unbook(j)
    ensures Cleans(DoCallback(s))
  {
    hide Counts;
    var t := DoCallback(s);
    assert PlacedJob(s, j);
    forall f ensures TupleOk(t, f) {
      assert TupleOk(s, f);
    }
  }

  /** A job that is being counted was booked for a tuple that is not full. */
  lemma OneMore(s: State, j: Job)
    requires Inv(s) && Cleans(s) && s.callback == CountUp(j)
    ensures Of(s.counted + {j}, j.file) == Of(s.counted, j.file) + {j} && Tally(s, j.file) < s.archs
    ensures !NoneFrom(s, j.file, 0) && j.file in s.filesRecord && s.filesRecord[j.file] == Tally(s, j.file)
  {
    hide Counts;
    var f := j.file;
    assert TupleOk(s, f);
    assert j in s.booked;
    assert forall k :: k in Of(s.counted, f) + {j} ==> k in Dumps(f, s.archs);
    assert Of(s.counted, f) + {j} <= Dumps(f, s.archs);
    Smaller(Of(s.counted, f) + {j}, Dumps(f, s.archs));
  }

  lemma Smaller(a: set<Job>, b: set<Job>)
    requires a <= b
    ensures |a| <= |b|
    ensures |a| == |b| ==> a == b
  {
    var c := b - a;
    assert b == a + c && a !! c;
  }

  lemma CleansCountUp(s: State, j: Job)
    requires Inv(s) && Cleans(s) && s.callback == CountUp(j) && Enabled(s, CallbackStep)
    ensures Cleans(DoCallback(s))
  {
    hide Counts, Placed;
    var t := DoCallback(s);
    OneMore(s, j);
    forall f ensures TupleOk(t, f) {
      assert TupleOk(s, f);
      if f != j.file {
        assert Of(t.counted, f) == Of(s.counted, f);
      }
    }
  }

  lemma CleansCheck(s: State, f: File)
    requires Inv(s) && Cleans(s) && s.callback == Check(f) && Enabled(s, CallbackStep)
    ensures Cleans(DoCallback(s))
  {
    hide Counts, Placed, Fresh;
    var t := DoCallback(s);
    forall g ensures TupleOk(t, g) {
      assert TupleOk(s, g);
    }
  }

  lemma CleansAfter(s: State, f: File)
    requires Inv(s) && Cleans(s) && s.callback == After(f)
    ensures Cleans(DoCallback(s))
  {
    hide Counts, Placed, Fresh;
    var t := DoCallback(s);
    forall g ensures TupleOk(t, g) {
      assert TupleOk(s, g);
    }
  }

  lemma CleansMacUnbook(s: State, f: File)
    requires Inv(s) && Cleans(s) && s.callback == MacUnbook(f)
    ensures Cleans(DoCallback(s))
  {
    hide Counts, Placed, Fresh;
    var t := DoCallback(s);
    forall g ensures TupleOk(t, g) {
      assert TupleOk(s, g);
    }
  }

  lemma CleansMacAt(s: State, f: File, sub: Sub)
    requires Inv(s) && Cleans(s) && s.callback == MacAt(f, sub)
    ensures Cleans(DoCallback(s))
  {
    hide Counts, Placed;
    var t := DoCallback(s);
    assert TupleOk(s, f);
    if sub.Book? {
      assert sub.job == Dump(f, NextArch(sub));
      assert BookedBelow(t, f, NextArch(sub) + 1);
    }
    if sub.Give? && t.callback == MacUnbook(f) {
      MacDone(s, f, sub);
    }
    forall g ensures TupleOk(t, g) {
      assert TupleOk(s, g);
    }
  }

  lemma MacDone(s: State, f: File, sub: Sub)
    requires Inv(s) && Cleans(s) && s.callback == MacAt(f, sub) && sub.Give? && NextSub(s, sub) == []
    ensures BookedBelow(s, f, s.archs) && !NoneFrom(s, f, 0) && Tally(s, f) == 0 && s.archs > 0
  {
    hide Counts, Placed;
    assert TupleOk(s, f);
    assert Dump(f, 0) in s.booked;
  }

  /** No callback on a Mac meets a counter that is not there. */
  lemma NoKeyError(s: State)
    requires Inv(s) && Cleans(s) && s.callback != Free
    ensures Enabled(s, CallbackStep)
  {
    hide Counts, Placed, Fresh;
    match s.callback
    case Unbook(j) =>
    case CountUp(j) => OneMore(s, j);
    case Check(f) => assert TupleOk(s, f);
    case After(f) =>
    case MacAt(f, sub) =>
    case MacUnbook(f) =>
  }

  lemma CleansStep(s: State, e: Event)
    requires Inv(s) && Cleans(s) && Enabled(s, e)
    ensures Cleans(Do(s, e))
  {
    hide Inv, Cleans, DoMain, DoCallback;
    match e
    case MainStep => CleansMain(s);
    case Complete(j) => CleansComplete(s, j);
    case Take(j) => CleansTake(s, j);
    case CallbackStep =>
      match s.callback {
        case Free =>
        case Unbook(j) => CleansUnbook(s, j);
        case CountUp(j) => CleansCountUp(s, j);
        case Check(f) => CleansCheck(s, f);
        case After(f) => CleansAfter(s, f);
        case MacAt(f, sub) => CleansMacAt(s, f, sub);
        case MacUnbook(f) => CleansMacUnbook(s, f);
      }
  }

  /** On a Mac, in every run: a tuple's cleanup runs at most once, and only after
      all of its jobs were called back; and when Finish has left its wait and the
      callback thread is free, it has run for every file that was pre-processed. */
  lemma {:induction false} CleansOnce(s: State, es: seq<Event>, t: State)
    requires Inv(s) && Cleans(s) && Run(s, es, t)
    ensures Inv(t) && Cleans(t)
    ensures forall f :: t.cleaned[f] <= 1
    ensures forall f, a :: t.cleaned[f] == 1 && 0 <= a < t.archs ==> Dump(f, a) in t.unbooked
    ensures t.callback == Free && Outstanding(t) == {} ==> forall f :: Pre(f) in t.booked ==> t.cleaned[f] == 1
    decreases |es|
  {
    hide Inv, Cleans, Do, Enabled, TupleOk;
    if es == [] {
      forall f ensures t.cleaned[f] <= 1 && (t.cleaned[f] == 1 ==> forall a :: 0 <= a < t.archs ==> Dump(f, a) in t.unbooked) {
        CleanedAfterAll(t, f);
      }
      if t.callback == Free && Outstanding(t) == {} {
        forall f | Pre(f) in t.booked ensures t.cleaned[f] == 1 {
          AllCleaned(t, f);
        }
      }
    } else {
      InvStep(s, es[0]);
      CleansStep(s, es[0]);
      CleansOnce(Do(s, es[0]), es[1..], t);
    }
  }

  lemma CleanedAfterAll(s: State, f: File)
    requires Inv(s) && Cleans(s)
    ensures s.cleaned[f] <= 1
    ensures s.cleaned[f] == 1 ==> forall a :: 0 <= a < s.archs ==> Dump(f, a) in s.unbooked
  {
    hide Counts;
    assert TupleOk(s, f);
    if s.cleaned[f] == 1 {
      TallyIsAll(s, f);
      forall a: nat | a < s.archs ensures Dump(f, a) in s.unbooked {
        assert Dump(f, a) in Dumps(f, s.archs);
      }
    }
  }

  /** A full tally is that of all jobs. */
  lemma TallyIsAll(s: State, f: File)
    requires Inv(s) && Cleans(s)
    ensures Tally(s, f) <= s.archs && (Tally(s, f) == s.archs <==> Of(s.counted, f) == Dumps(f, s.archs))
  {
    hide Counts;
    assert forall k :: k in Of(s.counted, f) ==> k in Dumps(f, s.archs);
    Smaller(Of(s.counted, f), Dumps(f, s.archs));
  }

  lemma AllCleaned(s: State, f: File)
    requires Inv(s) && Cleans(s) && s.callback == Free && Outstanding(s) == {} && Pre(f) in s.booked
    ensures s.cleaned[f] == 1
  {
    hide Counts, Placed;
    assert TupleOk(s, f);
    assert forall k :: k in s.booked && k !in s.unbooked ==> k in Outstanding(s);
    assert Pre(f) in s.unbooked && BookedBelow(s, f, s.archs);
    assert Dump(f, 0) in s.booked;
    forall k | k in Dumps(f, s.archs) ensures k in Of(s.counted, f) {
      assert k == Dump(f, k.arch) && k in s.booked;
    }
    Smaller(Dumps(f, s.archs), Of(s.counted, f));
    TallyIsAll(s, f);
    assert !NoneFrom(s, f, 0) && Tally(s, f) == s.archs;
  }

  // ---- no file is forgotten

  function FirstOf(s: State, f: File): Job { if s.mac then Pre(f) else Dump(f, 0) }

  /** The file is still to come, or its first job is being booked, or was. */
  predicate BegunOne(s: State, f: File) {
    || f in s.todo || (!s.mac && s.main == At(Reset(f, 0)))
    || s.main == At(Book(FirstOf(s, f))) || FirstOf(s, f) in s.booked
  }

  ghost predicate Begun(s: State, files: seq<File>) {
    forall f :: f in files ==> BegunOne(s, f)
  }

  lemma BegunStep(s: State, e: Event, files: seq<File>)
    requires Enabled(s, e) && Begun(s, files)
    ensures Begun(Do(s, e), files)
  {
    forall f | f in files ensures BegunOne(Do(s, e), f) {
      assert BegunOne(s, f);
      if f in s.todo && e == MainStep && s.main == Ready {
        assert s.todo == [s.todo[0]] + s.todo[1..];
      }
    }
  }

  lemma {:induction false} BegunRun(s: State, es: seq<Event>, t: State, files: seq<File>)
    requires Begun(s, files) && Run(s, es, t)
    ensures Begun(t, files) && t.mac == s.mac && t.archs == s.archs
    decreases |es|
  {
    hide Begun, Enabled;
    if es != [] {
      hide Do;
      BegunStep(s, es[0], files);
      SameDumper(s, es[0]);
      BegunRun(Do(s, es[0]), es[1..], t, files);
    }
  }

  lemma SameDumper(s: State, e: Event)
    requires Enabled(s, e)
    ensures Do(s, e).mac == s.mac && Do(s, e).archs == s.archs
  {
  }

  /** From the start, in every run on a Mac: once Finish is past its wait and the
      callback thread is free, the cleanup of every file has run, and only once. */
  lemma EveryFileCleaned(archs: nat, files: seq<File>, es: seq<Event>, t: State)
    requires archs > 0 && Distinct(files) && Run(Init(archs, true, files), es, t)
    ensures forall f :: t.cleaned[f] <= 1
    ensures forall f, a :: t.cleaned[f] == 1 && 0 <= a < archs ==> Dump(f, a) in t.unbooked
    ensures t.main == Left && t.callback == Free ==> forall f :: f in files ==> t.cleaned[f] == 1
  {
    hide Inv, Cleans, Run, Outstanding, Counts;
    var s := Init(archs, true, files);
    InitIsInv(archs, true, files);
    InitCleans(archs, files);
    CleansOnce(s, es, t);
    BegunRun(s, es, t, files);
    FinishIsSafe(archs, true, files, es, t);
    if t.main == Left && t.callback == Free {
      TodoDone(t);
      forall f | f in files ensures t.cleaned[f] == 1 {
        assert BegunOne(t, f);
        assert Pre(f) in t.booked;
      }
    }
  }

  lemma TodoDone(s: State)
    requires Inv(s) && s.main == Left
    ensures s.todo == []
  {
    hide Counts, Placed;
  }
}
