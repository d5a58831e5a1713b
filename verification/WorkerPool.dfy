/** The test driver of simulation/test.py as a protocol.

    One main thread puts jobs and then one poison pill per worker into a FIFO,
    collects exactly as many results as it dispatched jobs, joins the workers
    and turns its counters into an exit status.  Every atomic action of the
    main thread, of a worker and of the interrupt handler is one `Event`;
    a run is any interleaving of enabled events.  */
module WorkerPool {

  /** A `Job` object.  `tag` stands for the object's identity: objects are
      numbered in the order in which the main thread creates them.  A fresh
      job's return code is `False`, which Python compares equal to 0.  */
  datatype Job = Job(tag: nat, isBreak: bool, isSkip: bool, returncode: int)

  /** Where a worker thread stands in the body of its loop. */
  datatype Worker =
    | Idle                   // blocked in, or about to call, input_queue.get()
    | Holding(job: Job)      // has a job and has not looked at it yet
    | Running(job: Job)      // executing the job's command
    | Delivering(job: Job)   // about to put the job on the output queue
    | Exited(job: Job)       // returned because of this pill

  datatype Main =
    | Dispatching
    | Poisoning
    | Collecting
    | Joining(joined: nat)
    | Finished(status: int)

  /** The counters printed at the end; interrupted jobs are not counted. */
  datatype Tally = Tally(passed: nat, skipped: nat, failed: nat, crashed: nat, valgrind: nat)

  datatype State = State(
    suite: seq<Job>,       // the jobs to dispatch, in dispatch order
    created: nat,          // number of objects put on the input queue so far
    input: seq<Job>,
    output: seq<Job>,
    workers: seq<Worker>,
    threadExit: bool,
    collected: seq<Job>,   // results received by main, in order of arrival
    tally: Tally,
    main: Main)

  datatype Event =
    | MainStep
    | Take(worker: nat)
    | Examine(worker: nat)
    | Complete(worker: nat, code: int)
    | Deliver(worker: nat)
    | Signal

  // ---------------------------------------------------------------- the steps

  function Pill(tag: nat): Job {
    Job(tag, true, false, 0)
  }

  /** The object main creates as number `tag`. */
  function ObjectAt(suite: seq<Job>, tag: nat): Job {
    if tag < |suite| then suite[tag] else Pill(tag)
  }

  /** What main does to its counters for one result that was not interrupted. */
  function Record(tally: Tally, job: Job): Tally {
    if job.isBreak then tally
    else if job.isSkip then tally.(skipped := tally.skipped + 1)
    else if job.returncode == 0 then tally.(passed := tally.passed + 1)
    else if job.returncode == 1 then tally.(failed := tally.failed + 1)
    else if job.returncode == 2 then tally.(valgrind := tally.valgrind + 1)
    else tally.(crashed := tally.crashed + 1)
  }

  function ExitStatus(tally: Tally, total: nat): int {
    if tally.passed + tally.skipped == total then 0 else 1
  }

  predicate Enabled(s: State, e: Event) {
    match e
    case MainStep =>
      (match s.main
       case Dispatching => true
       case Poisoning => true
       case Collecting => |s.collected| == |s.suite| || s.output != []
       case Joining(j) => j >= |s.workers| || s.workers[j].Exited?
       case Finished(_) => false)
    case Take(w) => w < |s.workers| && s.workers[w].Idle? && s.input != []
    case Examine(w) => w < |s.workers| && s.workers[w].Holding?
    case Complete(w, _) => w < |s.workers| && s.workers[w].Running?
    case Deliver(w) => w < |s.workers| && s.workers[w].Delivering?
    case Signal => !s.threadExit   // a second interrupt changes nothing
  }

  function MainNext(s: State): State
    requires Enabled(s, MainStep)
  {
    match s.main
    case Dispatching =>
      if s.created < |s.suite| then
        s.(input := s.input + [ObjectAt(s.suite, s.created)], created := s.created + 1)
      else s.(main := Poisoning)
    case Poisoning =>
      if s.created < |s.suite| + |s.workers| then
        s.(input := s.input + [ObjectAt(s.suite, s.created)], created := s.created + 1)
      else s.(main := Collecting)
    case Collecting =>
      if |s.collected| == |s.suite| then s.(main := Joining(0))
      else s.(output := s.output[1..], collected := s.collected + [s.output[0]],
              tally := Record(s.tally, s.output[0]))
    case Joining(j) =>
      if j < |s.workers| then s.(main := Joining(j + 1))
      else s.(main := Finished(ExitStatus(s.tally, |s.suite|)))
  }

  /** What a worker does once it looks at the job it holds. */
  function Examined(job: Job, threadExit: bool): Worker {
    if job.isBreak then Exited(job)
    else if threadExit then Delivering(job.(isBreak := true))
    else if job.isSkip then Delivering(job)
    else Running(job)
  }

  function Next(s: State, e: Event): State
    requires Enabled(s, e)
  {
    match e
    case MainStep => MainNext(s)
    case Take(w) => s.(input := s.input[1..], workers := s.workers[w := Holding(s.input[0])])
    case Examine(w) => s.(workers := s.workers[w := Examined(s.workers[w].job, s.threadExit)])
    case Complete(w, code) =>
      s.(workers := s.workers[w := Delivering(s.workers[w].job.(returncode := code))])
    case Deliver(w) =>
      s.(output := s.output + [s.workers[w].job], workers := s.workers[w := Idle])
    case Signal => s.(threadExit := true)
  }

  /** Jobs as `run_tests` creates them. */
  ghost predicate FreshSuite(suite: seq<Job>) {
    forall i :: 0 <= i < |suite| ==>
      suite[i].tag == i && !suite[i].isBreak && suite[i].returncode == 0
  }

  function Start(suite: seq<Job>, processors: nat): State {
    State(suite, 0, [], [], seq(processors, _ => Idle), false, [], Tally(0, 0, 0, 0, 0), Dispatching)
  }

  // ------------------------------------------------------- places of an object

  function One(b: bool): nat {
    if b then 1 else 0
  }

  /** How often object `t` occurs in a queue. */
  function Copies(q: seq<Job>, t: nat): nat {
    if q == [] then 0 else One(q[0].tag == t) + Copies(q[1..], t)
  }

  predicate Holds(w: Worker, t: nat) {
    !w.Idle? && w.job.tag == t
  }

  /** How many workers have object `t` in hand. */
  function Holders(ws: seq<Worker>, t: nat): nat {
    if ws == [] then 0 else One(Holds(ws[0], t)) + Holders(ws[1..], t)
  }

  function Busy(ws: seq<Worker>): (n: nat)
    ensures n <= |ws|
  {
    if ws == [] then 0 else One(!ws[0].Idle?) + Busy(ws[1..])
  }

  /** Number of places, of all kinds, at which object `t` is. */
  function Places(s: State, t: nat): nat {
    Copies(s.input, t) + Holders(s.workers, t) + Copies(s.output, t) + Copies(s.collected, t)
  }

  function InSystem(s: State): nat {
    |s.input| + Busy(s.workers) + |s.output| + |s.collected|
  }

  /** Number of workers whose last job was a pill. */
  function PillHolders(ws: seq<Worker>, jobs: nat): (n: nat)
    ensures n <= |ws|
  {
    if ws == [] then 0
    else One(HoldsPill(ws[0], jobs)) + PillHolders(ws[1..], jobs)
  }

  predicate HoldsPill(w: Worker, jobs: nat) {
    !w.Idle? && w.job.tag >= jobs
  }

  function Interrupted(q: seq<Job>): nat {
    if q == [] then 0
    else Interrupted(q[..|q| - 1]) + One(q[|q| - 1].isBreak)
  }

  function TallyOf(q: seq<Job>): Tally {
    if q == [] then Tally(0, 0, 0, 0, 0) else Record(TallyOf(q[..|q| - 1]), q[|q| - 1])
  }

  // ------------------------------------------------------------- the invariant

  /** `job` is the suite's job number `job.tag`, possibly interrupted or run. */
  ghost predicate IsResult(s: State, job: Job) {
    && job.tag < |s.suite|
    && job.isSkip == s.suite[job.tag].isSkip
    && (job.isSkip ==> job.returncode == 0)
    && (job.isBreak ==> s.threadExit && job.returncode == 0)
  }

  ghost predicate WorkerOk(s: State, w: Worker) {
    match w
    case Idle => true
    case Holding(job) => job.tag < s.created - |s.input| && job == ObjectAt(s.suite, job.tag)
    case Running(job) => job.tag < |s.suite| && job == s.suite[job.tag] && !job.isSkip
    case Delivering(job) => IsResult(s, job)
    case Exited(job) => job.tag >= |s.suite| && job == Pill(job.tag)
  }

  ghost predicate PhaseOk(s: State) {
    match s.main
    case Dispatching => s.created <= |s.suite|
    case Poisoning => |s.suite| <= s.created
    case Collecting => s.created == |s.suite| + |s.workers|
    case Joining(j) =>
      && s.created == |s.suite| + |s.workers|
      && |s.collected| == |s.suite|
      && j <= |s.workers|
      && forall i :: 0 <= i < j ==> s.workers[i].Exited?
    case Finished(status) =>
      && s.created == |s.suite| + |s.workers|
      && |s.collected| == |s.suite|
      && (forall i :: 0 <= i < |s.workers| ==> s.workers[i].Exited?)
      && status == ExitStatus(s.tally, |s.suite|)
  }

  ghost predicate QueueOk(s: State) {
    && |s.input| <= s.created <= |s.suite| + |s.workers|
    && forall i :: 0 <= i < |s.input| ==> s.input[i] == ObjectAt(s.suite, s.created - |s.input| + i)
  }

  /** Every object created so far is in exactly one place. */
  ghost predicate PlacesOk(s: State) {
    && (forall t: nat :: Places(s, t) == One(t < s.created))
    && InSystem(s) == s.created
    && PillHolders(s.workers, |s.suite|) == Excess(s.created - |s.input|, |s.suite|)
  }

  ghost predicate JobsOk(s: State) {
    && (forall i :: 0 <= i < |s.workers| ==> WorkerOk(s, s.workers[i]))
    && (forall i :: 0 <= i < |s.output| ==> IsResult(s, s.output[i]))
    && (forall i :: 0 <= i < |s.collected| ==> IsResult(s, s.collected[i]))
    && s.tally == TallyOf(s.collected)
  }

  ghost predicate Inv(s: State) {
    FreshSuite(s.suite) && QueueOk(s) && PlacesOk(s) && JobsOk(s) && PhaseOk(s)
  }

  function Excess(a: int, b: int): int {
    if a > b then a - b else 0
  }

  // ------------------------------------------------------------ helper lemmas

  lemma {:induction false} HoldersUpdate(ws: seq<Worker>, i: nat, w: Worker, jobs: nat, t: nat)
    requires i < |ws|
    ensures Holders(ws[i := w], t) + One(Holds(ws[i], t)) == Holders(ws, t) + One(Holds(w, t))
    ensures Busy(ws[i := w]) + One(!ws[i].Idle?) == Busy(ws) + One(!w.Idle?)
    ensures PillHolders(ws[i := w], jobs) + One(HoldsPill(ws[i], jobs))
         == PillHolders(ws, jobs) + One(HoldsPill(w, jobs))
  {
    var vs := ws[i := w];
    if i == 0 {
      assert vs[1..] == ws[1..];
    } else {
      HoldersUpdate(ws[1..], i - 1, w, jobs, t);
      assert vs[1..] == ws[1..][i - 1 := w];
    }
  }

  lemma {:induction false} AllPillHolders(ws: seq<Worker>, jobs: nat, i: nat)
    requires PillHolders(ws, jobs) == |ws| && i < |ws|
    ensures HoldsPill(ws[i], jobs)
  {
    if i == 0 {
    } else {
      AllPillHolders(ws[1..], jobs, i - 1);
    }
  }

  lemma {:induction false} EveryoneHoldsPill(ws: seq<Worker>, jobs: nat)
    requires forall i :: 0 <= i < |ws| ==> HoldsPill(ws[i], jobs)
    ensures PillHolders(ws, jobs) == |ws| && Busy(ws) == |ws|
  {
    if ws == [] {
    } else {
      EveryoneHoldsPill(ws[1..], jobs);
    }
  }

  lemma {:induction false} CopiesAppend(q: seq<Job>, job: Job, t: nat)
    ensures Copies(q + [job], t) == Copies(q, t) + One(job.tag == t)
  {
    var r := q + [job];
    if q == [] {
      assert r == [job] && r[1..] == [];
    } else {
      CopiesAppend(q[1..], job, t);
      assert r[1..] == q[1..] + [job];
    }
  }

  lemma {:induction false} IdleHoldsNothing(processors: nat, ws: seq<Worker>, jobs: nat, t: nat)
    requires ws == seq(processors, _ => Idle)
    ensures Holders(ws, t) == 0 && Busy(ws) == 0 && PillHolders(ws, jobs) == 0
  {
    if processors == 0 {
    } else {
      assert ws[1..] == seq(processors - 1, _ => Idle);
      IdleHoldsNothing(processors - 1, ws[1..], jobs, t);
    }
  }

  // ----------------------------------------------- every step keeps the invariant

  lemma InvStart(suite: seq<Job>, processors: nat)
    requires FreshSuite(suite)
    ensures Inv(Start(suite, processors))
  {
    var s := Start(suite, processors);
    forall t: nat ensures Places(s, t) == 0 && InSystem(s) == 0 && PillHolders(s.workers, |suite|) == 0 {
      IdleHoldsNothing(processors, s.workers, |suite|, t);
    }
    assert Places(s, 0) == 0;
  }

  lemma PutPlaces(s: State)
    requires PlacesOk(s) && |s.input| <= s.created && FreshSuite(s.suite)
    ensures PlacesOk(s.(input := s.input + [ObjectAt(s.suite, s.created)], created := s.created + 1))
  {
    var u := s.(input := s.input + [ObjectAt(s.suite, s.created)], created := s.created + 1);
    forall t: nat ensures Places(u, t) == One(t < u.created) {
      CopiesAppend(s.input, ObjectAt(s.suite, s.created), t);
      assert Places(s, t) == One(t < s.created);
    }
  }

  lemma CollectPlaces(s: State, u: State)
    requires PlacesOk(s) && s.output != [] && |s.input| <= s.created
    requires u == s.(output := s.output[1..], collected := s.collected + [s.output[0]], tally := u.tally)
    ensures PlacesOk(u)
  {
    forall t: nat ensures Places(u, t) == One(t < u.created) {
      CopiesAppend(s.collected, s.output[0], t);
      assert Places(s, t) == One(t < s.created);
    }
  }

  /** A main step that leaves the queues and counters alone. */
  predicate TurnsPage(s: State) {
    match s.main
    case Dispatching => s.created >= |s.suite|
    case Poisoning => s.created >= |s.suite| + |s.workers|
    case Collecting => |s.collected| == |s.suite|
    case _ => true
  }

  lemma InvTurnPage(s: State)
    requires Inv(s) && Enabled(s, MainStep) && TurnsPage(s)
    ensures Inv(MainNext(s))
  {
    var u := MainNext(s);
    SamePlaces(s, u);
    SameJobs(s, u);
    assert QueueOk(u);
  }

  lemma InvPut(s: State)
    requires Inv(s) && (s.main.Dispatching? || s.main.Poisoning?) && !TurnsPage(s)
    ensures Inv(MainNext(s))
  {
    var u := MainNext(s);
    PutPlaces(s);
    SameJobs(s, u);
    assert QueueOk(u);
  }

  lemma InvCollect(s: State)
    requires Inv(s) && s.main.Collecting? && s.output != [] && !TurnsPage(s)
    ensures Inv(MainNext(s))
  {
    var u := MainNext(s);
    CollectPlaces(s, u);
    assert u.collected[..|u.collected| - 1] == s.collected;
    forall i | 0 <= i < |s.workers| ensures WorkerOk(u, s.workers[i]) {
      assert WorkerOk(s, s.workers[i]);
    }
    assert QueueOk(u);
  }

  lemma InvMain(s: State)
    requires Inv(s) && Enabled(s, MainStep)
    ensures Inv(MainNext(s))
  {
    if TurnsPage(s) {
      InvTurnPage(s);
    } else if s.main.Collecting? {
      InvCollect(s);
    } else {
      InvPut(s);
    }
  }

  lemma SameJobs(s: State, u: State)
    requires JobsOk(s) && |u.input| - u.created == |s.input| - s.created
    requires u == s.(main := u.main, threadExit := u.threadExit, input := u.input, created := u.created)
    requires s.threadExit ==> u.threadExit
    ensures JobsOk(u)
  {
    forall i | 0 <= i < |s.workers| ensures WorkerOk(u, s.workers[i]) {
      assert WorkerOk(s, s.workers[i]);
    }
  }

  lemma SamePlaces(s: State, u: State)
    requires PlacesOk(s)
    requires u == s.(main := u.main, threadExit := u.threadExit)
    ensures PlacesOk(u)
  {
    forall t: nat ensures Places(u, t) == One(t < u.created) {
      assert Places(s, t) == One(t < s.created);
    }
  }

  /** A worker that keeps its job in hand moves nothing. */
  lemma KeepPlaces(s: State, i: nat, w: Worker)
    requires PlacesOk(s) && i < |s.workers| && !s.workers[i].Idle? && !w.Idle?
    requires w.job.tag == s.workers[i].job.tag
    ensures PlacesOk(s.(workers := s.workers[i := w]))
  {
    var u := s.(workers := s.workers[i := w]);
    forall t: nat ensures Places(u, t) == One(t < u.created) {
      HoldersUpdate(s.workers, i, w, |s.suite|, t);
      assert Places(s, t) == One(t < s.created);
    }
    HoldersUpdate(s.workers, i, w, |s.suite|, 0);
  }

  lemma TakePlaces(s: State, i: nat)
    requires PlacesOk(s) && QueueOk(s) && FreshSuite(s.suite) && Enabled(s, Take(i))
    ensures PlacesOk(Next(s, Take(i)))
  {
    var u := Next(s, Take(i));
    forall t: nat ensures Places(u, t) == One(t < u.created) {
      HoldersUpdate(s.workers, i, Holding(s.input[0]), |s.suite|, t);
      assert Places(s, t) == One(t < s.created);
    }
    HoldersUpdate(s.workers, i, Holding(s.input[0]), |s.suite|, 0);
  }

  lemma DeliverPlaces(s: State, i: nat)
    requires PlacesOk(s) && Enabled(s, Deliver(i)) && s.workers[i].job.tag < |s.suite|
    ensures PlacesOk(Next(s, Deliver(i)))
  {
    var u := Next(s, Deliver(i));
    forall t: nat ensures Places(u, t) == One(t < u.created) {
      HoldersUpdate(s.workers, i, Idle, |s.suite|, t);
      CopiesAppend(s.output, s.workers[i].job, t);
      assert Places(s, t) == One(t < s.created);
    }
    HoldersUpdate(s.workers, i, Idle, |s.suite|, 0);
  }

  lemma InvTake(s: State, i: nat)
    requires Inv(s) && Enabled(s, Take(i))
    ensures Inv(Next(s, Take(i)))
  {
    TakePlaces(s, i);
    JobsTransfer(s, Next(s, Take(i)), i);
    assert QueueOk(Next(s, Take(i)));
  }

  lemma InvExamine(s: State, i: nat)
    requires Inv(s) && Enabled(s, Examine(i))
    ensures Inv(Next(s, Examine(i)))
  {
    assert WorkerOk(s, s.workers[i]);
    KeepPlaces(s, i, Examined(s.workers[i].job, s.threadExit));
    JobsTransfer(s, Next(s, Examine(i)), i);
    assert QueueOk(Next(s, Examine(i)));
  }

  lemma InvComplete(s: State, i: nat, code: int)
    requires Inv(s) && Enabled(s, Complete(i, code))
    ensures Inv(Next(s, Complete(i, code)))
  {
    assert WorkerOk(s, s.workers[i]);
    KeepPlaces(s, i, Delivering(s.workers[i].job.(returncode := code)));
    JobsTransfer(s, Next(s, Complete(i, code)), i);
    assert QueueOk(Next(s, Complete(i, code)));
  }

  lemma InvDeliver(s: State, i: nat)
    requires Inv(s) && Enabled(s, Deliver(i))
    ensures Inv(Next(s, Deliver(i)))
  {
    assert WorkerOk(s, s.workers[i]);
    DeliverPlaces(s, i);
    JobsTransfer(s, Next(s, Deliver(i)), i);
    assert QueueOk(Next(s, Deliver(i)));
  }

  /** A step of worker `i` is none of the other workers' business. */
  lemma JobsTransfer(s: State, u: State, i: nat)
    requires JobsOk(s) && i < |s.workers| == |u.workers|
    requires WorkerOk(u, u.workers[i]) && u.workers == s.workers[i := u.workers[i]]
    requires u.created - |u.input| >= s.created - |s.input|
    requires u == s.(workers := u.workers, input := u.input, output := u.output)
    requires u.output == s.output
          || (s.workers[i].Delivering? && u.output == s.output + [s.workers[i].job])
    ensures JobsOk(u)
  {
    assert WorkerOk(s, s.workers[i]);
    forall k | 0 <= k < |u.workers| ensures WorkerOk(u, u.workers[k]) {
      assert WorkerOk(s, s.workers[k]);
    }
  }

  lemma InvNext(s: State, e: Event)
    requires Inv(s) && Enabled(s, e)
    ensures Inv(Next(s, e))
  {
    match e
    case MainStep => InvMain(s);
    case Take(i) => InvTake(s, i);
    case Examine(i) => InvExamine(s, i);
    case Complete(i, code) => InvComplete(s, i, code);
    case Deliver(i) => InvDeliver(s, i);
    case Signal =>
      SamePlaces(s, Next(s, e));
      SameJobs(s, Next(s, e));
  }

  // ------------------------------------------------------------ safety

  lemma {:induction false} SomePillHolder(ws: seq<Worker>, jobs: nat, i: nat)
    requires i < |ws| && HoldsPill(ws[i], jobs)
    ensures PillHolders(ws, jobs) > 0
  {
    if i == 0 {
    } else {
      SomePillHolder(ws[1..], jobs, i - 1);
    }
  }

  /** No worker has a pill, or has left, while a real job is still queued. */
  lemma NoPillOvertakes(s: State, i: nat, k: nat)
    requires Inv(s) && i < |s.workers| && k < |s.input|
    requires s.workers[i].Exited? || HoldsPill(s.workers[i], |s.suite|)
    ensures s.input[k].isBreak && s.input[k].tag >= |s.suite|
  {
    assert WorkerOk(s, s.workers[i]);
    SomePillHolder(s.workers, |s.suite|, i);
  }

  /** In every reachable state a dispatched job is in one place only, and
      what is there is the job that was dispatched.  */
  lemma EachJobInOnePlace(s: State, t: nat)
    requires Inv(s) && t < s.created
    ensures Copies(s.input, t) + Holders(s.workers, t) + Copies(s.output, t) + Copies(s.collected, t) == 1
  {
    assert Places(s, t) == One(t < s.created);
  }

  // ------------------------------------------------------------ progress

  /** Something other than an interrupt can always happen until main is
      done, provided there is a worker or nothing to do.  */
  lemma NoDeadlock(s: State) returns (e: Event)
    requires Inv(s) && !s.main.Finished? && (s.workers != [] || s.suite == [])
    ensures Enabled(s, e) && !e.Signal?
  {
    if Enabled(s, MainStep) {
      return MainStep;
    }
    if i: nat :| i < |s.workers| && !s.workers[i].Exited? && (!s.workers[i].Idle? || s.input != []) {
      var w := s.workers[i];
      e := if w.Idle? then Take(i) else if w.Holding? then Examine(i)
           else if w.Running? then Complete(i, 0) else Deliver(i);
      return;
    }
    AllWaiting(s);
    assert false;
    e := MainStep;
  }

  /** With every worker gone or waiting on an empty queue, main can move. */
  lemma AllWaiting(s: State)
    requires Inv(s) && !s.main.Finished? && (s.workers != [] || s.suite == [])
    requires forall i :: 0 <= i < |s.workers| ==>
      s.workers[i].Exited? || (s.workers[i].Idle? && s.input == [])
    ensures Enabled(s, MainStep)
  {
    if !s.main.Dispatching? && !s.main.Poisoning? {
      var n := |s.suite|;
      forall i | 0 <= i < |s.workers| ensures HoldsPill(s.workers[i], n) {
        assert WorkerOk(s, s.workers[i]);
        if s.input == [] {
          AllPillHolders(s.workers, n, i);
        }
      }
      EveryoneHoldsPill(s.workers, n);
    }
  }

  /** A bound on the number of events still to come. */
  function Weight(w: Worker): nat {
    match w
    case Idle => 0
    case Holding(_) => 4
    case Running(_) => 3
    case Delivering(_) => 2
    case Exited(_) => 0
  }

  function Work(ws: seq<Worker>): nat {
    if ws == [] then 0 else Weight(ws[0]) + Work(ws[1..])
  }

  function PhaseCost(s: State): int {
    match s.main
    case Dispatching => |s.workers| + 4
    case Poisoning => |s.workers| + 3
    case Collecting => |s.workers| + 2
    case Joining(j) => |s.workers| + 1 - j
    case Finished(_) => 0
  }

  function Cost(s: State): int {
    6 * (|s.suite| + |s.workers| - s.created) + 5 * |s.input| + Work(s.workers) + |s.output|
    + PhaseCost(s) + One(!s.threadExit)
  }

  lemma {:induction false} WorkUpdate(ws: seq<Worker>, i: nat, w: Worker)
    requires i < |ws|
    ensures Work(ws[i := w]) + Weight(ws[i]) == Work(ws) + Weight(w)
  {
    var vs := ws[i := w];
    if i == 0 {
      assert vs[1..] == ws[1..];
    } else {
      WorkUpdate(ws[1..], i - 1, w);
      assert vs[1..] == ws[1..][i - 1 := w];
    }
  }

  lemma WorkerCost(s: State, e: Event)
    requires Enabled(s, e) && (e.Take? || e.Examine? || e.Complete? || e.Deliver?)
    ensures Cost(Next(s, e)) < Cost(s)
  {
    var w := Next(s, e).workers[e.worker];
    WorkUpdate(s.workers, e.worker, w);
    assert Next(s, e).workers == s.workers[e.worker := w];
  }

  lemma CostNonNegative(s: State)
    requires QueueOk(s) && PhaseOk(s)
    ensures Cost(s) >= 0
  {
  }

  /** Every event uses up some of the bound, and the bound is never used up too early. */
  lemma CostDecreases(s: State, e: Event)
    requires Inv(s) && Enabled(s, e)
    ensures 0 <= Cost(Next(s, e)) < Cost(s)
  {
    hide Enabled, Next, Cost, JobsOk, PlacesOk, QueueOk, PhaseOk;
    InvNext(s, e);
    CostNonNegative(Next(s, e));
    if e.Take? || e.Examine? || e.Complete? || e.Deliver? {
      WorkerCost(s, e);
    } else if e.MainStep? {
      MainCost(s);
    } else {
      SignalCost(s);
    }
  }

  lemma MainCost(s: State)
    requires QueueOk(s) && PhaseOk(s) && Enabled(s, MainStep)
    ensures Cost(Next(s, MainStep)) < Cost(s)
  {
    hide Work;
  }

  lemma SignalCost(s: State)
    requires Enabled(s, Signal)
    ensures Cost(Next(s, Signal)) < Cost(s)
  {
    hide Work;
  }

  // ------------------------------------------------------------ whole runs

  ghost predicate Legal(s: State, es: seq<Event>)
    decreases |es|
  {
    es == [] || (Enabled(s, es[0]) && Legal(Next(s, es[0]), es[1..]))
  }

  ghost function After(s: State, es: seq<Event>): State
    requires Legal(s, es)
    decreases |es|
  {
    if es == [] then s else After(Next(s, es[0]), es[1..])
  }

  /** Nothing can happen any more, except an interrupt. */
  ghost predicate Stuck(s: State) {
    forall e: Event :: Enabled(s, e) ==> e.Signal?
  }

  lemma SameSize(s: State, e: Event)
    requires Enabled(s, e)
    ensures Next(s, e).suite == s.suite && |Next(s, e).workers| == |s.workers|
  {
  }

  lemma {:induction false} RunKeeps(s: State, es: seq<Event>)
    requires Inv(s) && Legal(s, es)
    ensures Inv(After(s, es)) && Cost(s) >= Cost(After(s, es)) + |es| && Cost(After(s, es)) >= 0
    ensures After(s, es).suite == s.suite && |After(s, es).workers| == |s.workers|
    decreases |es|
  {
    if es == [] {
      CostNonNegative(s);
    } else {
      InvNext(s, es[0]);
      CostDecreases(s, es[0]);
      SameSize(s, es[0]);
      RunKeeps(Next(s, es[0]), es[1..]);
    }
  }

  lemma {:induction false} NoWork(processors: nat, ws: seq<Worker>)
    requires ws == seq(processors, _ => Idle)
    ensures Work(ws) == 0
  {
    if processors == 0 {
    } else {
      assert ws[1..] == seq(processors - 1, _ => Idle);
      NoWork(processors - 1, ws[1..]);
    }
  }

  /** No run is longer than this, whatever the interleaving and the interrupts. */
  lemma RunsAreBounded(suite: seq<Job>, processors: nat, es: seq<Event>)
    requires FreshSuite(suite) && Legal(Start(suite, processors), es)
    ensures |es| <= 6 * |suite| + 7 * processors + 5
  {
    var s := Start(suite, processors);
    InvStart(suite, processors);
    RunKeeps(s, es);
    NoWork(processors, s.workers);
  }

  /** Without workers, the driver gets stuck as soon as there is a job. */
  lemma NoWorkersStuck(suite: seq<Job>)
    requires FreshSuite(suite) && suite != []
    ensures exists es :: Legal(Start(suite, 0), es) && Stuck(After(Start(suite, 0), es))
                         && !After(Start(suite, 0), es).main.Finished?
  {
    var es := DispatchAll(Start(suite, 0));
    var u := After(Start(suite, 0), es);
    assert u.workers == [];
  }

  /** Main alone puts everything on the queue and starts to wait. */
  lemma {:induction false} DispatchAll(s: State) returns (es: seq<Event>)
    requires s.workers == [] && s.output == [] && s.collected == [] && s.suite != []
    requires s.created <= |s.suite| && (s.main.Dispatching? || (s.main.Poisoning? && s.created == |s.suite|))
    ensures Legal(s, es)
    ensures var u := After(s, es); u.main.Collecting? && u.workers == [] && u.output == [] && u.collected == []
                                   && u.suite == s.suite
    decreases |s.suite| - s.created, s.main.Dispatching?
  {
    var u := MainNext(s);
    assert Next(s, MainStep) == u;
    if s.main.Poisoning? {
      es := [MainStep];
      assert es[1..] == [];
    } else {
      var rest := DispatchAll(u);
      es := [MainStep] + rest;
      assert es[1..] == rest;
    }
  }

  /** The exact condition under which a run can get stuck before main is done. */
  lemma StuckOnlyWithoutWorkers(suite: seq<Job>, processors: nat)
    requires FreshSuite(suite)
    ensures (exists es :: Legal(Start(suite, processors), es) && Stuck(After(Start(suite, processors), es))
                          && !After(Start(suite, processors), es).main.Finished?)
            <==> processors == 0 && suite != []
  {
    var s := Start(suite, processors);
    if processors == 0 && suite != [] {
      NoWorkersStuck(suite);
    }
    forall es | Legal(s, es) && Stuck(After(s, es)) && !After(s, es).main.Finished?
      ensures processors == 0 && suite != []
    {
      InvStart(suite, processors);
      RunKeeps(s, es);
      if processors > 0 || suite == [] {
        var e := NoDeadlock(After(s, es));
      }
    }
  }

  // ------------------------------------------------------------ what a finished run means

  /** The counters account for every result. */
  lemma {:induction false} TallyAddsUp(q: seq<Job>)
    ensures var t := TallyOf(q);
            t.passed + t.skipped + t.failed + t.crashed + t.valgrind + Interrupted(q) == |q|
  {
    if q == [] {
    } else {
      TallyAddsUp(q[..|q| - 1]);
    }
  }

  /** A result that counts towards success. */
  predicate Good(job: Job) {
    !job.isBreak && (job.isSkip || job.returncode == 0)
  }

  lemma {:induction false} SuccessMeansAllGood(q: seq<Job>)
    ensures var t := TallyOf(q);
            t.passed + t.skipped <= |q|
            && (t.passed + t.skipped == |q| <==> forall i :: 0 <= i < |q| ==> Good(q[i]))
  {
    if q == [] {
    } else {
      var p := q[..|q| - 1];
      SuccessMeansAllGood(p);
      assert forall i :: 0 <= i < |p| ==> p[i] == q[i];
    }
  }

  lemma {:induction false} UninterruptedCount(q: seq<Job>)
    requires forall i :: 0 <= i < |q| ==> !q[i].isBreak
    ensures Interrupted(q) == 0
  {
    if q == [] {
    } else {
      UninterruptedCount(q[..|q| - 1]);
    }
  }

  lemma {:induction false} NobodyHolds(ws: seq<Worker>, t: nat)
    requires forall i :: 0 <= i < |ws| ==> !Holds(ws[i], t)
    ensures Holders(ws, t) == 0
  {
    if ws == [] {
    } else {
      NobodyHolds(ws[1..], t);
    }
  }

  /** When main is done it has received each dispatched job exactly once and
      nothing is left anywhere; the counters add up to the number of tests;
      and it reports success exactly if every result was skipped or returned
      0 and none was interrupted.  */
  lemma FinishedState(s: State)
    requires Inv(s) && s.main.Finished?
    ensures s.input == [] && s.output == [] && |s.collected| == |s.suite|
    ensures forall i :: 0 <= i < |s.workers| ==> s.workers[i].Exited?
    ensures forall t: nat :: t < |s.suite| ==> Copies(s.collected, t) == 1
    ensures forall i :: 0 <= i < |s.collected| ==> IsResult(s, s.collected[i])
    ensures s.tally.passed + s.tally.skipped + s.tally.failed + s.tally.crashed + s.tally.valgrind
            + Interrupted(s.collected) == |s.suite|
    ensures s.main.status == 0 <==> forall i :: 0 <= i < |s.collected| ==> Good(s.collected[i])
    ensures !s.threadExit ==> Interrupted(s.collected) == 0
  {
    var n := |s.suite|;
    forall i | 0 <= i < |s.workers| ensures HoldsPill(s.workers[i], n) {
      assert WorkerOk(s, s.workers[i]);
    }
    EveryoneHoldsPill(s.workers, n);
    TallyAddsUp(s.collected);
    SuccessMeansAllGood(s.collected);
    forall t: nat | t < n ensures Copies(s.collected, t) == 1 {
      NobodyHolds(s.workers, t);
      EachJobInOnePlace(s, t);
    }
    if !s.threadExit {
      UninterruptedCount(s.collected);
    }
  }

  /** Every run that cannot be continued ends with main done, so all of
      `FinishedState` holds of it.  */
  lemma MaximalRunFinishes(suite: seq<Job>, processors: nat, es: seq<Event>)
    requires FreshSuite(suite) && (processors > 0 || suite == [])
    requires Legal(Start(suite, processors), es) && Stuck(After(Start(suite, processors), es))
    ensures var u := After(Start(suite, processors), es);
            Inv(u) && u.suite == suite && |u.workers| == processors && u.main.Finished?
  {
    var s := Start(suite, processors);
    InvStart(suite, processors);
    RunKeeps(s, es);
    if !After(s, es).main.Finished? {
      var e := NoDeadlock(After(s, es));
    }
  }

  // ------------------------------------------------------------ what really happened to a job

  /** This very object is a result: a worker is about to deliver it, it is on
      the output queue, or main has it.  */
  ghost predicate Reported(s: State, job: Job) {
    || (exists i :: 0 <= i < |s.workers| && s.workers[i] == Delivering(job))
    || job in s.output
    || job in s.collected
  }

  /** The event ends the command of job `t` with `code`. */
  predicate Runs(s: State, e: Event, t: nat, code: int)
    requires Enabled(s, e)
  {
    e.Complete? && e.code == code && s.workers[e.worker].job.tag == t
  }

  /** The event is a worker's look at job `t` after the interrupt. */
  predicate Cancels(s: State, e: Event, t: nat)
    requires Enabled(s, e)
  {
    e.Examine? && s.threadExit && !s.workers[e.worker].job.isBreak && s.workers[e.worker].job.tag == t
  }

  /** In this run job `t`'s command ended with `code`. */
  ghost predicate Ran(s: State, es: seq<Event>, t: nat, code: int)
    requires Legal(s, es)
    decreases |es|
  {
    es != [] && (Runs(s, es[0], t, code) || Ran(Next(s, es[0]), es[1..], t, code))
  }

  /** In this run a worker looked at job `t` only after the interrupt. */
  ghost predicate Cancelled(s: State, es: seq<Event>, t: nat)
    requires Legal(s, es)
    decreases |es|
  {
    es != [] && (Cancels(s, es[0], t) || Cancelled(Next(s, es[0]), es[1..], t))
  }

  lemma ReportedStays(s: State, e: Event, job: Job)
    requires Enabled(s, e) && Reported(s, job)
    ensures Reported(Next(s, e), job)
  {
    var u := Next(s, e);
    if i :| 0 <= i < |s.workers| && s.workers[i] == Delivering(job) {
      if e == Deliver(i) {
        assert u.output[|u.output| - 1] == job;
      } else {
        assert u.workers[i] == s.workers[i];
      }
    } else if job in s.output {
      var i :| 0 <= i < |s.output| && s.output[i] == job;
      if |u.collected| == |s.collected| {
        assert u.output[i] == job;
      } else if i == 0 {
        assert u.collected[|u.collected| - 1] == job;
      } else {
        assert u.output[i - 1] == job;
      }
    } else {
      var i :| 0 <= i < |s.collected| && s.collected[i] == job;
      assert u.collected[i] == job;
    }
  }

  lemma {:induction false} ReportedToTheEnd(s: State, es: seq<Event>, job: Job)
    requires Legal(s, es) && Reported(s, job)
    ensures Reported(After(s, es), job)
    decreases |es|
  {
    if es == [] {
    } else {
      ReportedStays(s, es[0], job);
      ReportedToTheEnd(Next(s, es[0]), es[1..], job);
    }
  }

  lemma QueuedBefore(s: State, e: Event, job: Job)
    requires Enabled(s, e)
    ensures job in Next(s, e).output ==>
      job in s.output || (e.Deliver? && s.workers[e.worker] == Delivering(job))
    ensures job in Next(s, e).collected ==> job in s.collected || job in s.output
  {
  }

  /** A result that is new after a step is the job in the acting worker's hand. */
  lemma NewResult(s: State, e: Event, job: Job)
    requires Enabled(s, e) && Reported(Next(s, e), job) && !Reported(s, job)
    ensures (e.Complete? || e.Examine?) && Next(s, e).workers[e.worker] == Delivering(job)
  {
    var u := Next(s, e);
    QueuedBefore(s, e, job);
    var i :| 0 <= i < |u.workers| && u.workers[i] == Delivering(job);
    assert i < |s.workers| && u.workers[i] != s.workers[i];
  }

  /** Where a result can come from: an interrupt, a skip, or its own command. */
  predicate Explained(suite: seq<Job>, job: Job, ran: bool, cancelled: bool) {
    && job.tag < |suite| && job.isSkip == suite[job.tag].isSkip
    && (job.isBreak ==> cancelled)
    && (!job.isBreak && !job.isSkip ==> ran)
  }

  lemma StepExplains(s: State, e: Event, job: Job)
    requires Inv(s) && Enabled(s, e) && Reported(Next(s, e), job) && !Reported(s, job)
    ensures Explained(s.suite, job, Runs(s, e, job.tag, job.returncode), Cancels(s, e, job.tag))
  {
    NewResult(s, e, job);
    assert WorkerOk(s, s.workers[e.worker]);
  }

  /** No result appears from nowhere: each that a run adds was interrupted or
      skipped in that run, or its command ended with exactly the code it shows.  */
  lemma {:induction false} ResultsAreReal(s: State, es: seq<Event>, job: Job)
    requires Inv(s) && Legal(s, es) && Reported(After(s, es), job) && !Reported(s, job)
    ensures Explained(s.suite, job, Ran(s, es, job.tag, job.returncode), Cancelled(s, es, job.tag))
    decreases |es|
  {
    hide Inv, Reported, Next, Enabled;
    if es == [] {
    } else {
      var u := Next(s, es[0]);
      InvNext(s, es[0]);
      SameSize(s, es[0]);
      if Reported(u, job) {
        StepExplains(s, es[0], job);
      } else {
        ResultsAreReal(u, es[1..], job);
      }
    }
  }

  /** If job `t`'s command ends with `code`, the result with that code is kept. */
  lemma {:induction false} CodeIsReported(s: State, es: seq<Event>, t: nat, code: int)
    requires Inv(s) && Legal(s, es) && Ran(s, es, t, code)
    ensures t < |s.suite| && Reported(After(s, es), s.suite[t].(returncode := code))
    decreases |es|
  {
    hide Inv, Reported, Next, Enabled;
    var u := Next(s, es[0]);
    InvNext(s, es[0]);
    SameSize(s, es[0]);
    if Runs(s, es[0], t, code) {
      RunReports(s, es[0], t, code);
      ReportedToTheEnd(u, es[1..], s.suite[t].(returncode := code));
    } else {
      CodeIsReported(u, es[1..], t, code);
    }
  }

  lemma RunReports(s: State, e: Event, t: nat, code: int)
    requires Inv(s) && Enabled(s, e) && Runs(s, e, t, code)
    ensures t < |s.suite| && !s.suite[t].isSkip && !s.suite[t].isBreak && s.suite[t].tag == t
    ensures Reported(Next(s, e), s.suite[t].(returncode := code))
  {
    assert WorkerOk(s, s.workers[e.worker]);
    assert Next(s, e).workers[e.worker] == Delivering(s.suite[t].(returncode := code));
  }

  /** A job that is cancelled is reported as interrupted. */
  lemma {:induction false} CancelIsReported(s: State, es: seq<Event>, t: nat)
    requires Inv(s) && Legal(s, es) && Cancelled(s, es, t)
    ensures t < |s.suite| && Reported(After(s, es), s.suite[t].(isBreak := true))
    decreases |es|
  {
    hide Inv, Reported, Next, Enabled;
    var u := Next(s, es[0]);
    InvNext(s, es[0]);
    SameSize(s, es[0]);
    if Cancels(s, es[0], t) {
      CancelReports(s, es[0], t);
      ReportedToTheEnd(u, es[1..], s.suite[t].(isBreak := true));
    } else {
      CancelIsReported(u, es[1..], t);
    }
  }

  lemma CancelReports(s: State, e: Event, t: nat)
    requires Inv(s) && Enabled(s, e) && Cancels(s, e, t)
    ensures t < |s.suite| && Reported(Next(s, e), s.suite[t].(isBreak := true))
  {
    assert WorkerOk(s, s.workers[e.worker]);
    assert Next(s, e).workers[e.worker] == Delivering(s.suite[t].(isBreak := true));
  }

  lemma {:induction false} OneCopy(q: seq<Job>, t: nat, i: nat, j: nat)
    requires Copies(q, t) <= 1 && i < |q| && j < |q| && q[i].tag == t && q[j].tag == t
    ensures i == j
  {
    if i == 0 || j == 0 {
      NoOtherCopy(q, t, if i == 0 then j else i);
    } else {
      OneCopy(q[1..], t, i - 1, j - 1);
    }
  }

  lemma NoOtherCopy(q: seq<Job>, t: nat, k: nat)
    requires Copies(q, t) <= 1 && k < |q| && q[0].tag == t && q[k].tag == t
    ensures k == 0
  {
    if k > 0 {
      SomeCopy(q[1..], t, k - 1);
    }
  }

  lemma {:induction false} SomeCopy(q: seq<Job>, t: nat, k: nat)
    requires k < |q| && q[k].tag == t
    ensures Copies(q, t) > 0
  {
    if k == 0 {
    } else {
      SomeCopy(q[1..], t, k - 1);
    }
  }

  lemma {:induction false} CopyExists(q: seq<Job>, t: nat) returns (i: nat)
    requires Copies(q, t) > 0
    ensures i < |q| && q[i].tag == t
  {
    if q[0].tag == t {
      i := 0;
    } else {
      i := CopyExists(q[1..], t);
      i := i + 1;
    }
  }

  /** In a finished run main has one result per job, and it is the true one:
      interrupted exactly if a worker looked at the job after the interrupt,
      and otherwise, unless the job is a skip, with the code its command
      ended with; so every such command ran, and ran once.  */
  lemma OutcomeOfJob(suite: seq<Job>, processors: nat, es: seq<Event>, t: nat) returns (job: Job)
    requires FreshSuite(suite) && Legal(Start(suite, processors), es) && t < |suite|
    requires After(Start(suite, processors), es).main.Finished?
    ensures var s := Start(suite, processors);
      && job in After(s, es).collected && job.tag == t && job.isSkip == suite[t].isSkip
      && (job.isBreak <==> Cancelled(s, es, t))
      && (forall code :: Ran(s, es, t, code) <==> !job.isBreak && !job.isSkip && code == job.returncode)
  {
    var s := Start(suite, processors);
    var u := After(s, es);
    InvStart(suite, processors);
    RunKeeps(s, es);
    FinishedState(u);
    hide Inv, Start, FreshSuite;
    var i := CopyExists(u.collected, t);
    job := u.collected[i];
    NothingReported(suite, processors, job);
    ResultsAreReal(s, es, job);
    if Cancelled(s, es, t) {
      CancelIsReported(s, es, t);
      OnlyResult(u, t, i, suite[t].(isBreak := true));
    }
    forall code | Ran(s, es, t, code) ensures !job.isBreak && !job.isSkip && code == job.returncode {
      CodeIsReported(s, es, t, code);
      OnlyResult(u, t, i, suite[t].(returncode := code));
      RanIsNoSkip(s, es, t, code);
    }
  }

  lemma NothingReported(suite: seq<Job>, processors: nat, job: Job)
    ensures !Reported(Start(suite, processors), job)
  {
  }

  lemma {:induction false} RanIsNoSkip(s: State, es: seq<Event>, t: nat, code: int)
    requires Inv(s) && Legal(s, es) && Ran(s, es, t, code)
    ensures t < |s.suite| && !s.suite[t].isSkip && !s.suite[t].isBreak
    decreases |es|
  {
    hide Next, Enabled;
    InvNext(s, es[0]);
    SameSize(s, es[0]);
    if Runs(s, es[0], t, code) {
      RunReports(s, es[0], t, code);
    } else {
      RanIsNoSkip(Next(s, es[0]), es[1..], t, code);
    }
  }

  /** When main is done, what is reported of a job is what main received. */
  lemma OnlyResult(u: State, t: nat, i: nat, job: Job)
    requires Inv(u) && u.main.Finished? && t < |u.suite| && i < |u.collected| && u.collected[i].tag == t
    requires Reported(u, job) && job.tag == t
    ensures u.collected[i] == job
  {
    FinishedState(u);
    var j :| 0 <= j < |u.collected| && u.collected[j] == job;
    OneCopy(u.collected, t, i, j);
  }

  /** In this run no job was first looked at after the interrupt, and the
      command of every job that is not a skip was run and returned 0.  */
  ghost predicate AllSucceeded(s: State, es: seq<Event>)
    requires Legal(s, es)
  {
    forall t: nat :: t < |s.suite| ==> !Cancelled(s, es, t) && (s.suite[t].isSkip || Ran(s, es, t, 0))
  }

  /** The exit status tells the truth about the whole run. */
  lemma StatusTellsTheTruth(suite: seq<Job>, processors: nat, es: seq<Event>)
    requires FreshSuite(suite) && Legal(Start(suite, processors), es)
    requires After(Start(suite, processors), es).main.Finished?
    ensures After(Start(suite, processors), es).main.status == 0 <==> AllSucceeded(Start(suite, processors), es)
  {
    var s := Start(suite, processors);
    var u := After(s, es);
    InvStart(suite, processors);
    RunKeeps(s, es);
    FinishedState(u);
    hide Inv, FreshSuite, Legal, After, Ran, Cancelled, IsResult;
    if u.main.status == 0 {
      forall t: nat | t < |suite| ensures !Cancelled(s, es, t) && (suite[t].isSkip || Ran(s, es, t, 0)) {
        var job := OutcomeOfJob(suite, processors, es, t);
        assert Good(job);
        assert Ran(s, es, t, 0) <==> !job.isBreak && !job.isSkip && 0 == job.returncode;
      }
    }
    forall i | 0 <= i < |u.collected| && AllSucceeded(s, es) ensures Good(u.collected[i]) {
      ResultIsGood(suite, processors, es, i);
    }
  }

  lemma ResultIsGood(suite: seq<Job>, processors: nat, es: seq<Event>, i: nat)
    requires FreshSuite(suite) && Legal(Start(suite, processors), es)
    requires var u := After(Start(suite, processors), es); u.main.Finished? && i < |u.collected|
    requires AllSucceeded(Start(suite, processors), es)
    ensures Good(After(Start(suite, processors), es).collected[i])
  {
    var s := Start(suite, processors);
    var u := After(s, es);
    InvStart(suite, processors);
    RunKeeps(s, es);
    FinishedState(u);
    assert IsResult(u, u.collected[i]);
    var t := u.collected[i].tag;
    hide Inv, FreshSuite, Legal, After, Ran, Cancelled, IsResult;
    var job := OutcomeOfJob(suite, processors, es, t);
    var j :| 0 <= j < |u.collected| && u.collected[j] == job;
    OneCopy(u.collected, t, i, j);
    assert suite[t].isSkip || Ran(s, es, t, 0);
  }

  // ------------------------------------------------------------ both queues are FIFOs

  /** The objects that workers take from the input queue in this run, in order. */
  ghost function Taken(s: State, es: seq<Event>): seq<Job>
    requires Legal(s, es)
    decreases |es|
  {
    if es == [] then []
    else (if es[0].Take? then [s.input[0]] else []) + Taken(Next(s, es[0]), es[1..])
  }

  /** The results that workers put on the output queue in this run, in order. */
  ghost function Delivered(s: State, es: seq<Event>): seq<Job>
    requires Legal(s, es)
    decreases |es|
  {
    if es == [] then []
    else (if es[0].Deliver? then [s.workers[es[0].worker].job] else []) + Delivered(Next(s, es[0]), es[1..])
  }

  /** Objects number `lo` to `hi`, as main creates them. */
  function Objects(suite: seq<Job>, lo: nat, hi: nat): (r: seq<Job>)
    requires lo <= hi
    ensures |r| == hi - lo && forall i :: 0 <= i < |r| ==> r[i] == ObjectAt(suite, lo + i)
  {
    seq(hi - lo, i requires 0 <= i < hi - lo => ObjectAt(suite, lo + i))
  }

  lemma QueueStep(s: State, e: Event)
    requires Enabled(s, e)
    ensures s.created <= Next(s, e).created <= s.created + 1 && Next(s, e).suite == s.suite
    ensures e.Take? ==> s.input != []
    ensures s.input + Objects(s.suite, s.created, Next(s, e).created)
         == (if e.Take? then [s.input[0]] else []) + Next(s, e).input
    ensures s.collected + s.output + (if e.Deliver? then [s.workers[e.worker].job] else [])
         == Next(s, e).collected + Next(s, e).output
  {
  }

  lemma ObjectsJoin(suite: seq<Job>, a: nat, b: nat, c: nat)
    requires a <= b <= c
    ensures Objects(suite, a, c) == Objects(suite, a, b) + Objects(suite, b, c)
  {
  }

  /** Workers take the objects in the order in which main created them ... */
  lemma {:induction false} TakenInOrder(s: State, es: seq<Event>)
    requires Legal(s, es)
    ensures s.created <= After(s, es).created
    ensures Taken(s, es) + After(s, es).input == s.input + Objects(s.suite, s.created, After(s, es).created)
    decreases |es|
  {
    hide Next, Enabled, Objects;
    if es == [] {
      assert Objects(s.suite, s.created, s.created) == [];
    } else {
      var u, v := Next(s, es[0]), After(s, es);
      QueueStep(s, es[0]);
      TakenInOrder(u, es[1..]);
      ObjectsJoin(s.suite, s.created, u.created, v.created);
      var first := if es[0].Take? then [s.input[0]] else [];
      Regroup(first, Taken(u, es[1..]), v.input, u.input, Objects(s.suite, u.created, v.created));
      assert s.input + (Objects(s.suite, s.created, u.created) + Objects(s.suite, u.created, v.created))
          == s.input + Objects(s.suite, s.created, u.created) + Objects(s.suite, u.created, v.created);
    }
  }

  lemma Regroup<T>(a: seq<T>, b: seq<T>, c: seq<T>, d: seq<T>, e: seq<T>)
    requires b + c == d + e
    ensures (a + b) + c == (a + d) + e
  {
    assert (a + b) + c == a + (b + c) && (a + d) + e == a + (d + e);
  }

  /** ... and main receives the results in the order in which they were delivered. */
  lemma {:induction false} DeliveredInOrder(s: State, es: seq<Event>)
    requires Legal(s, es)
    ensures After(s, es).collected + After(s, es).output == s.collected + s.output + Delivered(s, es)
    decreases |es|
  {
    hide Next, Enabled, Objects;
    if es == [] {
    } else {
      QueueStep(s, es[0]);
      DeliveredInOrder(Next(s, es[0]), es[1..]);
    }
  }

  /** A whole run: the objects were taken in the order of their numbers, and a
      finished run's results are those delivered, in order.  */
  lemma FirstInFirstOut(suite: seq<Job>, processors: nat, es: seq<Event>)
    requires FreshSuite(suite) && Legal(Start(suite, processors), es)
    ensures forall i :: 0 <= i < |Taken(Start(suite, processors), es)| ==>
      Taken(Start(suite, processors), es)[i] == ObjectAt(suite, i)
    ensures After(Start(suite, processors), es).collected <= Delivered(Start(suite, processors), es)
    ensures After(Start(suite, processors), es).main.Finished? ==>
      After(Start(suite, processors), es).collected == Delivered(Start(suite, processors), es)
  {
    hide Next, Enabled, Inv;
    var s := Start(suite, processors);
    var u := After(s, es);
    TakenInOrder(s, es);
    DeliveredInOrder(s, es);
    var all := Objects(suite, 0, u.created);
    assert Taken(s, es) + u.input == all && u.collected + u.output == Delivered(s, es);
    forall i | 0 <= i < |Taken(s, es)| ensures Taken(s, es)[i] == ObjectAt(suite, i) {
      assert (Taken(s, es) + u.input)[i] == all[i];
    }
    if u.main.Finished? {
      InvStart(suite, processors);
      RunKeeps(s, es);
      FinishedState(u);
    }
  }

  // ------------------------------------------------------------ what the counters count

  predicate Passed(job: Job) {
    !job.isBreak && !job.isSkip && job.returncode == 0
  }

  predicate Failed(job: Job) {
    !job.isBreak && !job.isSkip && job.returncode == 1
  }

  predicate Leaked(job: Job) {
    !job.isBreak && !job.isSkip && job.returncode == 2
  }

  predicate Crashed(job: Job) {
    !job.isBreak && !job.isSkip && job.returncode != 0 && job.returncode != 1 && job.returncode != 2
  }

  predicate Skipped(job: Job) {
    !job.isBreak && job.isSkip
  }

  /** The objects in a queue of which `p` holds. */
  function Tags(q: seq<Job>, p: Job -> bool): set<nat> {
    set job | job in q && p(job) :: job.tag
  }

  predicate DistinctTags(q: seq<Job>) {
    forall i, j :: 0 <= i < j < |q| ==> q[i].tag != q[j].tag
  }

  lemma TagsAppend(q: seq<Job>, job: Job, p: Job -> bool)
    ensures Tags(q + [job], p) == Tags(q, p) + (if p(job) then {job.tag} else {})
  {
    forall t: nat ensures t in Tags(q + [job], p) <==> t in Tags(q, p) || (p(job) && t == job.tag) {
      assert job in q + [job];
      if k :| k in q && p(k) && k.tag == t {
        assert k in q + [job];
      }
    }
  }

  lemma NewTag(q: seq<Job>, job: Job, p: Job -> bool)
    requires DistinctTags(q + [job])
    ensures job.tag !in Tags(q, p)
  {
    forall k | k in q ensures k.tag != job.tag {
      var i :| 0 <= i < |q| && q[i] == k;
      assert (q + [job])[i] == k && (q + [job])[|q|] == job;
    }
  }

  lemma TagsStep(q: seq<Job>, p: Job -> bool)
    requires q != [] && DistinctTags(q)
    ensures |Tags(q, p)| == |Tags(q[..|q| - 1], p)| + One(p(q[|q| - 1]))
  {
    hide Tags, DistinctTags;
    var before, job := q[..|q| - 1], q[|q| - 1];
    assert q == before + [job];
    TagsAppend(before, job, p);
    NewTag(before, job, p);
  }

  /** Every counter is the number of objects of its kind. */
  lemma {:induction false} TallyCounts(q: seq<Job>)
    requires DistinctTags(q)
    ensures TallyOf(q).passed == |Tags(q, Passed)| && TallyOf(q).skipped == |Tags(q, Skipped)|
    ensures TallyOf(q).failed == |Tags(q, Failed)| && TallyOf(q).crashed == |Tags(q, Crashed)|
    ensures TallyOf(q).valgrind == |Tags(q, Leaked)|
  {
    if q == [] {
      NoTags(Passed);
      NoTags(Skipped);
      NoTags(Failed);
      NoTags(Crashed);
      NoTags(Leaked);
    } else {
      TallyCounts(q[..|q| - 1]);
      TagsStep(q, Passed);
      TagsStep(q, Skipped);
      TagsStep(q, Failed);
      TagsStep(q, Crashed);
      TagsStep(q, Leaked);
    }
  }

  lemma NoTags(p: Job -> bool)
    ensures Tags([], p) == {}
  {
  }

  /** The jobs whose command ended with `code` in this run. */
  ghost function JobsWithCode(s: State, es: seq<Event>, code: int): set<nat>
    requires Legal(s, es)
  {
    set t: nat | t < |s.suite| && Ran(s, es, t, code)
  }

  ghost predicate RanBadly(s: State, es: seq<Event>, t: nat)
    requires Legal(s, es)
  {
    exists code :: Ran(s, es, t, code) && code != 0 && code != 1 && code != 2
  }

  /** The jobs whose command ended with any other code than 0, 1 and 2. */
  ghost function JobsCrashed(s: State, es: seq<Event>): set<nat>
    requires Legal(s, es)
  {
    set t: nat | t < |s.suite| && RanBadly(s, es, t)
  }

  /** The skips that a worker looked at before the interrupt, if any. */
  ghost function JobsSkipped(s: State, es: seq<Event>): set<nat>
    requires Legal(s, es)
  {
    set t: nat | t < |s.suite| && s.suite[t].isSkip && !Cancelled(s, es, t)
  }

  /** What the summary line says, in terms of what happened in the run. */
  ghost predicate CountersTrue(s: State, es: seq<Event>, tally: Tally)
    requires Legal(s, es)
  {
    && tally.passed == |JobsWithCode(s, es, 0)|
    && tally.failed == |JobsWithCode(s, es, 1)|
    && tally.valgrind == |JobsWithCode(s, es, 2)|
    && tally.crashed == |JobsCrashed(s, es)|
    && tally.skipped == |JobsSkipped(s, es)|
  }

  lemma ResultsAreDistinct(u: State)
    requires Inv(u) && u.main.Finished?
    ensures DistinctTags(u.collected)
  {
    FinishedState(u);
    forall i, j | 0 <= i < j < |u.collected| ensures u.collected[i].tag != u.collected[j].tag {
      if u.collected[i].tag == u.collected[j].tag {
        OneCopy(u.collected, u.collected[i].tag, i, j);
      }
    }
  }

  /** What main received for job `t` has property `p` exactly if `t` is among the tags with it. */
  lemma TagOf(u: State, t: nat, job: Job, p: Job -> bool)
    requires Inv(u) && u.main.Finished? && job in u.collected && job.tag == t
    ensures t in Tags(u.collected, p) <==> p(job)
  {
    ResultsAreDistinct(u);
    if other :| other in u.collected && p(other) && other.tag == t {
      var i :| 0 <= i < |u.collected| && u.collected[i] == job;
      var j :| 0 <= j < |u.collected| && u.collected[j] == other;
      assert i == j;
    }
  }

  /** The five kinds of results of job `t`, in terms of the run. */
  ghost predicate KindsAgree(s: State, es: seq<Event>, q: seq<Job>, t: nat)
    requires Legal(s, es) && t < |s.suite|
  {
    && (t in Tags(q, Passed) <==> Ran(s, es, t, 0))
    && (t in Tags(q, Failed) <==> Ran(s, es, t, 1))
    && (t in Tags(q, Leaked) <==> Ran(s, es, t, 2))
    && (t in Tags(q, Crashed) <==> RanBadly(s, es, t))
    && (t in Tags(q, Skipped) <==> s.suite[t].isSkip && !Cancelled(s, es, t))
  }

  lemma KindOfJob(suite: seq<Job>, processors: nat, es: seq<Event>, t: nat)
    requires FreshSuite(suite) && Legal(Start(suite, processors), es) && t < |suite|
    requires After(Start(suite, processors), es).main.Finished?
    ensures var s := Start(suite, processors); KindsAgree(s, es, After(s, es).collected, t)
  {
    var s := Start(suite, processors);
    var u := After(s, es);
    InvStart(suite, processors);
    RunKeeps(s, es);
    hide Inv, FreshSuite, Legal, After, Ran, Cancelled, Tags;
    var job := OutcomeOfJob(suite, processors, es, t);
    TagOf(u, t, job, Passed);
    TagOf(u, t, job, Failed);
    TagOf(u, t, job, Leaked);
    TagOf(u, t, job, Crashed);
    TagOf(u, t, job, Skipped);
    assert Ran(s, es, t, 0) <==> !job.isBreak && !job.isSkip && 0 == job.returncode;
    assert Ran(s, es, t, 1) <==> !job.isBreak && !job.isSkip && 1 == job.returncode;
    assert Ran(s, es, t, 2) <==> !job.isBreak && !job.isSkip && 2 == job.returncode;
    assert Ran(s, es, t, job.returncode) <==> !job.isBreak && !job.isSkip;
  }

  /** Jobs of the same kinds are as many. */
  lemma SameCounts(s: State, es: seq<Event>, q: seq<Job>)
    requires Legal(s, es) && forall t: nat :: t < |s.suite| ==> KindsAgree(s, es, q, t)
    requires forall p: Job -> bool, t: nat :: t in Tags(q, p) ==> t < |s.suite|
    ensures |Tags(q, Passed)| == |JobsWithCode(s, es, 0)|
    ensures |Tags(q, Failed)| == |JobsWithCode(s, es, 1)|
    ensures |Tags(q, Leaked)| == |JobsWithCode(s, es, 2)|
    ensures |Tags(q, Crashed)| == |JobsCrashed(s, es)|
    ensures |Tags(q, Skipped)| == |JobsSkipped(s, es)|
  {
    hide Legal, Ran, Cancelled, Tags, RanBadly;
    forall t: nat
      ensures t in Tags(q, Passed) <==> t < |s.suite| && Ran(s, es, t, 0)
      ensures t in Tags(q, Failed) <==> t < |s.suite| && Ran(s, es, t, 1)
      ensures t in Tags(q, Leaked) <==> t < |s.suite| && Ran(s, es, t, 2)
      ensures t in Tags(q, Crashed) <==> t < |s.suite| && RanBadly(s, es, t)
      ensures t in Tags(q, Skipped) <==> t < |s.suite| && s.suite[t].isSkip && !Cancelled(s, es, t)
    {
      assert t < |s.suite| ==> KindsAgree(s, es, q, t);
    }
    assert Tags(q, Passed) == JobsWithCode(s, es, 0);
    assert Tags(q, Failed) == JobsWithCode(s, es, 1);
    assert Tags(q, Leaked) == JobsWithCode(s, es, 2);
    assert Tags(q, Crashed) == JobsCrashed(s, es);
    assert Tags(q, Skipped) == JobsSkipped(s, es);
  }

  lemma FinalTally(u: State)
    requires Inv(u) && u.main.Finished?
    ensures u.tally == Tally(|Tags(u.collected, Passed)|, |Tags(u.collected, Skipped)|, |Tags(u.collected, Failed)|,
                             |Tags(u.collected, Crashed)|, |Tags(u.collected, Leaked)|)
    ensures forall p: Job -> bool, t: nat :: t in Tags(u.collected, p) ==> t < |u.suite|
  {
    hide Tags, TallyOf, DistinctTags;
    ResultsAreDistinct(u);
    TallyCounts(u.collected);
    TagsAreJobs(u);
  }

  /** Every counter that main prints is the number of jobs it is named after. */
  lemma CountersTellTheTruth(suite: seq<Job>, processors: nat, es: seq<Event>)
    requires FreshSuite(suite) && Legal(Start(suite, processors), es)
    requires After(Start(suite, processors), es).main.Finished?
    ensures CountersTrue(Start(suite, processors), es, After(Start(suite, processors), es).tally)
  {
    var s := Start(suite, processors);
    var u := After(s, es);
    InvStart(suite, processors);
    RunKeeps(s, es);
    FinalTally(u);
    hide FreshSuite, Legal, After, Tags, Inv, KindsAgree;
    forall t: nat | t < |suite| ensures KindsAgree(s, es, u.collected, t) {
      KindOfJob(suite, processors, es, t);
    }
    SameCounts(s, es, u.collected);
  }

  lemma TagsAreJobs(u: State)
    requires forall i :: 0 <= i < |u.collected| ==> IsResult(u, u.collected[i])
    ensures forall p: Job -> bool, t: nat :: t in Tags(u.collected, p) ==> t < |u.suite|
  {
    hide IsResult;
    forall p: Job -> bool, t: nat | t in Tags(u.collected, p) ensures t < |u.suite| {
      var job :| job in u.collected && p(job) && job.tag == t;
      ResultIsJob(u, job);
    }
  }

  lemma ResultIsJob(s: State, job: Job)
    requires IsResult(s, job)
    ensures job.tag < |s.suite|
  {
  }

  predicate Tells(job: Job, t: nat, code: int) {
    job.tag == t && job.returncode == code && !job.isBreak && !job.isSkip
  }

  /** If job `t`'s command ends with `code` at some moment, then in every
      finished continuation the result main received for `t` carries `code`.  */
  lemma ReportedCode(s: State, w: nat, code: int, es: seq<Event>)
    requires Inv(s) && Enabled(s, Complete(w, code)) && Legal(Next(s, Complete(w, code)), es)
    requires After(Next(s, Complete(w, code)), es).main.Finished?
    ensures var u := After(Next(s, Complete(w, code)), es);
            exists i :: 0 <= i < |u.collected| && Tells(u.collected[i], s.workers[w].job.tag, code)
  {
    var e := Complete(w, code);
    var t := s.workers[w].job.tag;
    var v := Next(s, e);
    RunReports(s, e, t, code);
    var job := s.suite[t].(returncode := code);
    ReportedToTheEnd(v, es, job);
    InvNext(s, e);
    RunKeeps(v, es);
    var u := After(v, es);
    FinishedState(u);
    var i :| 0 <= i < |u.collected| && u.collected[i] == job;
    assert Tells(u.collected[i], t, code);
  }

  /** A run with one more event at its end. */
  lemma {:induction false} OneMoreEvent(s: State, es: seq<Event>, e: Event)
    requires Legal(s, es) && Enabled(After(s, es), e)
    ensures Legal(s, es + [e]) && After(s, es + [e]) == Next(After(s, es), e)
    decreases |es|
  {
    var r := es + [e];
    if es == [] {
      assert r == [e] && r[1..] == [];
    } else {
      OneMoreEvent(Next(s, es[0]), es[1..], e);
      assert r[0] == es[0] && r[1..] == es[1..] + [e];
    }
  }
}
