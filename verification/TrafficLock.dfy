/** The lock-file protocol of simulation/run.py around the traffic file.

    Any number of processes run the same block: look for the traffic file, try
    to create the lock file exclusively, look again, generate, remove the lock
    file; whoever finds the lock taken polls both files.  Each file-system
    access is one atomic step, and the generator may also fail.  */
module TrafficLock {

  /** The traffic file as another process sees it. */
  datatype File = Absent | Partial | Complete

  /** How a process got out of the block. */
  datatype Path = Early | Second | Generated | Waited | Vanished

  datatype Process =
    | Starting             // before the first look for the file
    | Locking              // before the exclusive creation of the lock file
    | Rechecking           // holds the lock, before the second look
    | Generating           // generator launched, no file yet
    | Writing              // generator has created the file and is filling it
    | Unlocking(via: Path) // before the removal of the lock file
    | WaitingFile          // polling, about to look for the file
    | WaitingLock          // polling, about to look for the lock file
    | Left(via: Path)

  datatype State = State(
    procs: seq<Process>,
    file: File,
    lock: bool,
    launches: nat,   // generator launches so far
    failures: nat,   // launches that ended without creating a file
    aborts: nat)     // launches that ended with an unfinished file

  /** `Step` is the process's own next access; the others are what its generator does. */
  datatype Event = Step(p: nat) | Create(p: nat) | Finish(p: nat) | Fail(p: nat) | Abort(p: nat)

  predicate Inside(q: Process) {
    q.Rechecking? || q.Generating? || q.Writing? || q.Unlocking?
  }

  predicate Enabled(s: State, e: Event) {
    && e.p < |s.procs|
    && match e
       case Step(p) => !s.procs[p].Left? && !s.procs[p].Generating? && !s.procs[p].Writing?
       case Create(p) => s.procs[p].Generating?
       case Fail(p) => s.procs[p].Generating?
       case Finish(p) => s.procs[p].Writing?
       case Abort(p) => s.procs[p].Writing?
  }

  function StepOf(s: State, p: nat): State
    requires Enabled(s, Step(p))
  {
    match s.procs[p]
    case Starting => Go(s, p, if s.file != Absent then Left(Early) else Locking)
    case Locking =>
      if s.lock then Go(s, p, WaitingFile) else Go(s, p, Rechecking).(lock := true)
    case Rechecking =>
      if s.file != Absent then Go(s, p, Unlocking(Second))
      else Go(s, p, Generating).(launches := s.launches + 1)
    case Unlocking(via) => Go(s, p, Left(via)).(lock := false)
    case WaitingFile => Go(s, p, if s.file != Absent then Left(Waited) else WaitingLock)
    case WaitingLock => Go(s, p, if s.lock then WaitingFile else Left(Vanished))
  }

  function Go(s: State, p: nat, q: Process): State
    requires p < |s.procs|
  {
    s.(procs := s.procs[p := q])
  }

  function Next(s: State, e: Event): State
    requires Enabled(s, e)
  {
    match e
    case Step(p) => StepOf(s, p)
    case Create(p) => Go(s, p, Writing).(file := Partial)
    case Finish(p) => Go(s, p, Unlocking(Generated)).(file := Complete)
    case Fail(p) => Go(s, p, Unlocking(Generated)).(failures := s.failures + 1)
    case Abort(p) => Go(s, p, Unlocking(Generated)).(aborts := s.aborts + 1)
  }

  /** `n` processes and either no traffic file or a complete one. */
  function Start(n: nat, present: bool): State {
    State(seq(n, _ => Starting), if present then Complete else Absent, false, 0, 0, 0)
  }

  // ------------------------------------------------------------ the invariant

  /** The lock file exists exactly while one process is inside. */
  ghost predicate MutexOk(s: State) {
    && (s.lock <==> exists p :: 0 <= p < |s.procs| && Inside(s.procs[p]))
    && forall p, q :: 0 <= p < |s.procs| && 0 <= q < |s.procs| && Inside(s.procs[p]) && Inside(s.procs[q])
         ==> p == q
  }

  /** A launch without a file to show for it is running or has failed. */
  ghost predicate LaunchesOk(s: State, present: bool) {
    && (s.file == Absent ==>
          !present && s.aborts == 0
          && s.launches == s.failures + (if exists p :: 0 <= p < |s.procs| && s.procs[p].Generating? then 1 else 0))
    && (s.file != Absent ==>
          && s.launches == s.failures + (if present then 0 else 1)
          && (forall p :: 0 <= p < |s.procs| ==> !s.procs[p].Generating?))
    && (present ==> s.file == Complete && s.launches == 0 && s.failures + s.aborts == 0)
  }

  ghost predicate PartialOk(s: State) {
    && (s.file == Partial <==> s.aborts > 0 || exists p :: 0 <= p < |s.procs| && s.procs[p].Writing?)
    && (s.aborts > 0 ==> forall p :: 0 <= p < |s.procs| ==> !s.procs[p].Writing?)
  }

  /** Every launch so far left, or is about to leave, a complete file. */
  predicate AllWell(s: State) {
    s.failures + s.aborts == 0
  }

  /** What a process may rely on where it stands. */
  ghost predicate ProcessOk(s: State, q: Process) {
    match q
    case Unlocking(via) =>
      && (via == Second || via == Generated)
      && (s.file != Absent || (s.failures > 0 && via == Generated))
      && (AllWell(s) ==> s.file == Complete)
    case WaitingFile => WaiterOk(s)
    case WaitingLock => WaiterOk(s)
    case Left(via) =>
      && (s.file != Absent || (s.failures > 0 && (via == Generated || via == Vanished)))
      && (AllWell(s) && via != Early && via != Waited ==> s.file == Complete)
    case _ => true
  }

  /** While somebody waits the lock is taken, or its last owner left a file. */
  ghost predicate WaiterOk(s: State) {
    && (s.lock || s.file != Absent || s.failures > 0)
    && (!s.lock && AllWell(s) ==> s.file == Complete)
  }

  ghost predicate Inv(s: State, present: bool) {
    && MutexOk(s) && LaunchesOk(s, present) && PartialOk(s)
    && forall p :: 0 <= p < |s.procs| ==> ProcessOk(s, s.procs[p])
  }

  lemma InvStart(n: nat, present: bool)
    ensures Inv(Start(n, present), present)
  {
  }

  lemma InvStep(s: State, p: nat, present: bool)
    requires Inv(s, present) && Enabled(s, Step(p))
    ensures Inv(StepOf(s, p), present)
  {
    var u := StepOf(s, p);
    assert ProcessOk(s, s.procs[p]);
    assert Others(s, u, p);
    MutexStep(s, p);
    assert LaunchesOk(u, present);
    assert PartialOk(u);
  }

  /** The exclusive creation lets one process in, and only the process inside lets go. */
  lemma MutexStep(s: State, p: nat)
    requires MutexOk(s) && Enabled(s, Step(p))
    ensures MutexOk(StepOf(s, p))
  {
    var u := StepOf(s, p);
    assert Others(s, u, p);
    if u.lock {
      if s.lock {
        var q :| 0 <= q < |s.procs| && Inside(s.procs[q]);
        assert Inside(u.procs[q]);
      } else {
        assert Inside(u.procs[p]);
      }
    } else if s.lock {
      assert Inside(s.procs[p]);
    }
  }

  ghost predicate Others(s: State, u: State, p: nat) {
    && |s.procs| == |u.procs| && p < |s.procs|
    && forall q :: 0 <= q < |s.procs| && q != p ==> u.procs[q] == s.procs[q]
  }

  lemma InvGenerator(s: State, e: Event, present: bool)
    requires Inv(s, present) && Enabled(s, e) && !e.Step?
    ensures Inv(Next(s, e), present)
  {
    var u := Next(s, e);
    var p := e.p;
    assert Inside(s.procs[p]) && Inside(u.procs[p]);
    assert Others(s, u, p);
    assert MutexOk(u);
    assert LaunchesOk(u, present);
    assert PartialOk(u);
  }

  lemma InvNext(s: State, e: Event, present: bool)
    requires Inv(s, present) && Enabled(s, e)
    ensures Inv(Next(s, e), present)
  {
    if e.Step? {
      InvStep(s, e.p, present);
    } else {
      InvGenerator(s, e, present);
    }
  }

  // ------------------------------------------------------------ whole runs

  ghost predicate Legal(s: State, es: seq<Event>)
    decreases |es|
  {
    es == [] || (Enabled(s, es[0]) && Legal(Next(s, es[0]), es[1..]))
  }

  ghost function After(s: State, es: seq<Event>): State
    requires Legal(s, es)
    decreases |es|
  {
    if es == [] then s else After(Next(s, es[0]), es[1..])
  }

  lemma {:induction false} RunKeeps(s: State, es: seq<Event>, present: bool)
    requires Inv(s, present) && Legal(s, es)
    ensures Inv(After(s, es), present)
    decreases |es|
  {
    if es == [] {
    } else {
      InvNext(s, es[0], present);
      RunKeeps(Next(s, es[0]), es[1..], present);
    }
  }

  /** In every state any interleaving can reach, the lock file exists exactly
      while a process is in the locked region, and at most one is; so at most
      one generator is at work.  */
  lemma MutualExclusion(n: nat, present: bool, es: seq<Event>)
    requires Legal(Start(n, present), es)
    ensures var s := After(Start(n, present), es);
      && (s.lock <==> exists p :: 0 <= p < |s.procs| && Inside(s.procs[p]))
      && (forall p, q :: 0 <= p < |s.procs| && 0 <= q < |s.procs| && Inside(s.procs[p]) && Inside(s.procs[q])
            ==> p == q)
  {
    InvStart(n, present);
    RunKeeps(Start(n, present), es, present);
  }

  /** The generator is launched at most once more than it failed to leave a
      file, and never if the file was there from the start.  Whoever has left
      the block, by whichever path, finds the file, unless a launch failed.  */
  lemma EveryoneFindsTheFile(n: nat, present: bool, es: seq<Event>)
    requires Legal(Start(n, present), es)
    ensures var s := After(Start(n, present), es);
      && s.launches <= s.failures + (if present then 0 else 1)
      && (s.failures == 0 ==> forall p :: 0 <= p < |s.procs| && s.procs[p].Left? ==> s.file != Absent)
      && (forall p :: 0 <= p < |s.procs| && s.procs[p].Left? && s.file == Absent ==>
            s.procs[p].via == Generated || s.procs[p].via == Vanished)
  {
    var s := After(Start(n, present), es);
    InvStart(n, present);
    RunKeeps(Start(n, present), es, present);
    forall p | 0 <= p < |s.procs| && s.procs[p].Left? ensures ProcessOk(s, s.procs[p]) {
    }
  }

  /** A process can leave without the file being there exactly if a launch may fail. */
  lemma MissingExactlyAfterFailure(n: nat, allowed: nat)
    requires n > 0
    ensures (exists es :: Legal(Start(n, false), es) && After(Start(n, false), es).failures <= allowed
                          && LeftWithoutFile(After(Start(n, false), es)))
            <==> allowed > 0
  {
    if allowed > 0 {
      FailedLaunch(n);
    }
    forall es | Legal(Start(n, false), es) && LeftWithoutFile(After(Start(n, false), es))
      ensures After(Start(n, false), es).failures > 0
    {
      EveryoneFindsTheFile(n, false, es);
    }
  }

  ghost predicate LeftWithoutFile(s: State) {
    s.file == Absent && exists p :: 0 <= p < |s.procs| && s.procs[p].Left?
  }

  lemma FailedLaunch(n: nat)
    requires n > 0
    ensures exists es :: Legal(Start(n, false), es) && After(Start(n, false), es).failures == 1
                         && LeftWithoutFile(After(Start(n, false), es))
  {
    var s0 := Start(n, false);
    var s1 := Next(s0, Step(0));
    var s2 := Next(s1, Step(0));
    var s3 := Next(s2, Step(0));
    var s4 := Next(s3, Fail(0));
    var s5 := Next(s4, Step(0));
    assert s5.procs[0].Left?;
    Prepend(s4, Step(0), []);
    Prepend(s3, Fail(0), [Step(0)]);
    Prepend(s2, Step(0), [Fail(0)] + [Step(0)]);
    Prepend(s1, Step(0), [Step(0)] + ([Fail(0)] + [Step(0)]));
    Prepend(s0, Step(0), [Step(0)] + ([Step(0)] + ([Fail(0)] + [Step(0)])));
    assert [Step(0)] + [] == [Step(0)];
  }

  lemma Prepend(s: State, e: Event, es: seq<Event>)
    requires Enabled(s, e) && Legal(Next(s, e), es)
    ensures Legal(s, [e] + es) && After(s, [e] + es) == After(Next(s, e), es)
  {
    assert ([e] + es)[1..] == es;
  }

  // ------------------------------------------------------------ is the file complete?

  /** A file that was there from the start stays complete, and nothing is launched. */
  lemma PresentFileStaysComplete(n: nat, es: seq<Event>)
    requires Legal(Start(n, true), es)
    ensures After(Start(n, true), es).file == Complete && After(Start(n, true), es).launches == 0
  {
    InvStart(n, true);
    RunKeeps(Start(n, true), es, true);
  }

  /** Somebody has left by this path and finds a file that is not finished,
      although no launch went wrong.  */
  ghost predicate LeftToPartialFile(s: State, via: Path) {
    s.file == Partial && AllWell(s) && exists p :: 0 <= p < |s.procs| && s.procs[p] == Left(via)
  }

  /** Leaving through the locked region, or because the lock vanished,
      guarantees a complete file (if no launch went wrong) ...  */
  lemma LockedPathsSeeCompleteFile(n: nat, present: bool, es: seq<Event>, p: nat)
    requires Legal(Start(n, present), es) && p < n
    requires var s := After(Start(n, present), es);
      && AllWell(s) && p < |s.procs| && s.procs[p].Left?
      && (s.procs[p].via == Second || s.procs[p].via == Generated || s.procs[p].via == Vanished)
    ensures After(Start(n, present), es).file == Complete
  {
    InvStart(n, present);
    RunKeeps(Start(n, present), es, present);
    var s := After(Start(n, present), es);
    assert ProcessOk(s, s.procs[p]);
  }

  /** ... while a process that finds the file at its first look may find it
      half written, in any group of two or more ...  */
  lemma EarlyLeaverSeesPartialFile(n: nat) returns (es: seq<Event>)
    requires n >= 2
    ensures Legal(Start(n, false), es)
    ensures LeftToPartialFile(After(Start(n, false), es), Early)
  {
    var s0 := Start(n, false);
    var s1 := Next(s0, Step(0));
    var s2 := Next(s1, Step(0));
    var s3 := Next(s2, Step(0));
    var s4 := Next(s3, Create(0));
    var s5 := Next(s4, Step(1));
    assert s5.procs[1] == Left(Early);
    es := [Step(1)];
    Prepend(s4, Step(1), []);
    assert [Step(1)] + [] == es;
    es := Before(s3, Create(0), es);
    es := Before(s2, Step(0), es);
    es := Before(s1, Step(0), es);
    es := Before(s0, Step(0), es);
  }

  /** ... and so may a process that waits for the lock.  */
  lemma WaiterSeesPartialFile(n: nat) returns (es: seq<Event>)
    requires n >= 2
    ensures Legal(Start(n, false), es)
    ensures LeftToPartialFile(After(Start(n, false), es), Waited)
  {
    var s0 := Start(n, false);
    var s1 := Next(s0, Step(0));
    var s2 := Next(s1, Step(1));
    var s3 := Next(s2, Step(0));
    var s4 := Next(s3, Step(1));
    var s5 := Next(s4, Step(0));
    var s6 := Next(s5, Create(0));
    var s7 := Next(s6, Step(1));
    assert s7.procs[1] == Left(Waited);
    es := [Step(1)];
    Prepend(s6, Step(1), []);
    assert [Step(1)] + [] == es;
    es := Before(s5, Create(0), es);
    es := Before(s4, Step(0), es);
    es := Before(s3, Step(1), es);
    es := Before(s2, Step(0), es);
    es := Before(s1, Step(1), es);
    es := Before(s0, Step(0), es);
  }

  /** A run with one more event in front. */
  lemma Before(s: State, e: Event, es: seq<Event>) returns (r: seq<Event>)
    requires Enabled(s, e) && Legal(Next(s, e), es)
    ensures Legal(s, r) && After(s, r) == After(Next(s, e), es)
  {
    r := [e] + es;
    Prepend(s, e, es);
  }

  /** The exact condition, path by path, under which a process can leave the
      block and find a file that is not finished although every launch goes
      well: two processes, no file at the start, and a path on which the lock
      is never consulted after the file appeared.  */
  lemma PartialSeenExactlyWhen(n: nat, present: bool, via: Path)
    ensures (exists es :: PartialSeenIn(n, present, via, es))
            <==> n >= 2 && !present && (via == Early || via == Waited)
  {
    if n >= 2 && !present && (via == Early || via == Waited) {
      var es := PartialRun(n, via);
      assert PartialSeenIn(n, present, via, es);
    }
    forall es | PartialSeenIn(n, present, via, es)
      ensures n >= 2 && !present && (via == Early || via == Waited)
    {
      PartialSeenOnlyIf(n, present, es, via);
    }
  }

  /** A run of `n` processes after which somebody has left by this path and
      finds an unfinished file.  */
  ghost predicate PartialSeenIn(n: nat, present: bool, via: Path, es: seq<Event>) {
    Legal(Start(n, present), es) && LeftToPartialFile(After(Start(n, present), es), via)
  }

  lemma PartialRun(n: nat, via: Path) returns (es: seq<Event>)
    requires n >= 2 && (via == Early || via == Waited)
    ensures Legal(Start(n, false), es) && LeftToPartialFile(After(Start(n, false), es), via)
  {
    if via == Early {
      es := EarlyLeaverSeesPartialFile(n);
    } else {
      es := WaiterSeesPartialFile(n);
    }
  }

  lemma PartialSeenOnlyIf(n: nat, present: bool, es: seq<Event>, via: Path)
    requires Legal(Start(n, present), es) && LeftToPartialFile(After(Start(n, present), es), via)
    ensures n >= 2 && !present && (via == Early || via == Waited)
  {
    var s0 := Start(n, present);
    InvStart(n, present);
    RunKeeps(s0, es, present);
    SameProcesses(s0, es);
    var s := After(s0, es);
    var p :| 0 <= p < |s.procs| && s.procs[p] == Left(via);
    assert ProcessOk(s, s.procs[p]);
    var q :| 0 <= q < |s.procs| && s.procs[q].Writing?;
    assert p != q;
  }

  lemma {:induction false} SameProcesses(s: State, es: seq<Event>)
    requires Legal(s, es)
    ensures |After(s, es).procs| == |s.procs|
    decreases |es|
  {
    if es == [] {
    } else {
      SameProcesses(Next(s, es[0]), es[1..]);
    }
  }

  /** Exactly when the file on disk is unfinished. */
  lemma PartialExactlyWhileWriting(n: nat, present: bool, es: seq<Event>)
    requires Legal(Start(n, present), es)
    ensures var s := After(Start(n, present), es);
      s.file == Partial <==> s.aborts > 0 || exists p :: 0 <= p < |s.procs| && s.procs[p].Writing?
  {
    InvStart(n, present);
    RunKeeps(Start(n, present), es, present);
  }

  // ------------------------------------------------------------ progress

  /** A poll that found the lock still taken. */
  predicate Spins(s: State, e: Event) {
    e.Step? && e.p < |s.procs| && s.procs[e.p].WaitingLock? && s.lock
  }

  function Rank(q: Process): nat {
    match q
    case Starting => 6
    case Locking => 5
    case Rechecking => 4
    case Generating => 3
    case Writing => 2
    case Unlocking(_) => 1
    case WaitingFile => 2
    case WaitingLock => 1
    case Left(_) => 0
  }

  function Ranks(ps: seq<Process>): nat {
    if ps == [] then 0 else Rank(ps[0]) + Ranks(ps[1..])
  }

  lemma {:induction false} RanksUpdate(ps: seq<Process>, i: nat, q: Process)
    requires i < |ps|
    ensures Ranks(ps[i := q]) + Rank(ps[i]) == Ranks(ps) + Rank(q)
  {
    var qs := ps[i := q];
    if i == 0 {
      assert qs[1..] == ps[1..];
    } else {
      RanksUpdate(ps[1..], i - 1, q);
      assert qs[1..] == ps[1..][i - 1 := q];
    }
  }

  ghost function SpinCount(s: State, es: seq<Event>): nat
    requires Legal(s, es)
    decreases |es|
  {
    if es == [] then 0 else (if Spins(s, es[0]) then 1 else 0) + SpinCount(Next(s, es[0]), es[1..])
  }

  lemma RankStep(s: State, e: Event)
    requires Enabled(s, e)
    ensures Ranks(Next(s, e).procs) + 1 <= Ranks(s.procs) + (if Spins(s, e) then 2 else 0)
  {
    hide Rank, Ranks, Enabled, Next, Spins;
    MoverRank(s, e);
    RanksUpdate(s.procs, e.p, Next(s, e).procs[e.p]);
  }

  /** Only the process that moves changes, and unless it polls in vain it gets
      nearer to the end.  */
  lemma MoverRank(s: State, e: Event)
    requires Enabled(s, e)
    ensures e.p < |s.procs| == |Next(s, e).procs|
    ensures Next(s, e).procs == s.procs[e.p := Next(s, e).procs[e.p]]
    ensures Rank(Next(s, e).procs[e.p]) + 1 <= Rank(s.procs[e.p]) + (if Spins(s, e) then 2 else 0)
  {
  }

  lemma {:induction false} RanksBound(s: State, es: seq<Event>)
    requires Legal(s, es)
    ensures |es| + Ranks(After(s, es).procs) <= Ranks(s.procs) + 2 * SpinCount(s, es)
    decreases |es|
  {
    if es == [] {
    } else {
      RankStep(s, es[0]);
      RanksBound(Next(s, es[0]), es[1..]);
    }
  }

  lemma {:induction false} RanksStart(n: nat, ps: seq<Process>)
    requires ps == seq(n, _ => Starting)
    ensures Ranks(ps) == 6 * n
  {
    if n == 0 {
    } else {
      assert ps[1..] == seq(n - 1, _ => Starting);
      RanksStart(n - 1, ps[1..]);
    }
  }

  /** Nobody waits for nothing: a run is at most 6 events per process long
      plus two per futile poll, a poll is futile only while another process
      is inside, and until everybody has left somebody can move.  */
  lemma OnlyPollingDelays(n: nat, present: bool, es: seq<Event>)
    requires Legal(Start(n, present), es)
    ensures |es| <= 6 * n + 2 * SpinCount(Start(n, present), es)
    ensures var s := After(Start(n, present), es);
      && (forall e: Event :: Enabled(s, e) && Spins(s, e) ==>
            exists q :: 0 <= q < |s.procs| && q != e.p && Inside(s.procs[q]))
      && (forall p :: 0 <= p < |s.procs| && !s.procs[p].Left? ==> exists e: Event :: Enabled(s, e) && e.p == p)
  {
    var s0 := Start(n, present);
    InvStart(n, present);
    RunKeeps(s0, es, present);
    RanksBound(s0, es);
    RanksStart(n, s0.procs);
    var s := After(s0, es);
    forall p | 0 <= p < |s.procs| && !s.procs[p].Left? ensures exists e: Event :: Enabled(s, e) && e.p == p {
      var e := if s.procs[p].Generating? then Create(p) else if s.procs[p].Writing? then Finish(p) else Step(p);
      assert Enabled(s, e) && e.p == p;
    }
  }
}
