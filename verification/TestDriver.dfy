/** The driver of simulation/test.py as imperative code: queues, worker slots,
    the interrupt flag and the counters are fields that each atomic action
    updates in place.  Every method is proved to be one event of `WorkerPool`,
    and `RunTests` plays an arbitrary schedule to the end.  */
module TestDriver {
  import opened WorkerPool

  class Driver {
    const suite: seq<Job>
    var created: nat
    var inputQueue: seq<Job>
    var outputQueue: seq<Job>
    var workers: array<Worker>
    var threadExit: bool
    var collected: seq<Job>
    var passed: nat
    var skipped: nat
    var failed: nat
    var crashed: nat
    var valgrind: nat
    var main: Main

    /** The protocol state this object stands for. */
    ghost function View(): State
      reads this, workers
    {
      State(suite, created, inputQueue, outputQueue, workers[..], threadExit, collected,
            Tally(passed, skipped, failed, crashed, valgrind), main)
    }

    constructor (suite: seq<Job>, processors: nat)
      requires FreshSuite(suite)
      ensures fresh(workers) && View() == Start(suite, processors)
    {
      this.suite := suite;
      created, inputQueue, outputQueue, collected := 0, [], [], [];
      threadExit := false;
      passed, skipped, failed, crashed, valgrind := 0, 0, 0, 0, 0;
      main := Dispatching;
      workers := new Worker[processors](_ => Idle);
      new;
      assert workers[..] == seq(processors, _ => Idle);
    }

    /** Creates the next object and puts it on the input queue. */
    method Put()
      requires created < |suite| + workers.Length && (main.Dispatching? ==> created < |suite|)
      requires (main.Dispatching? || main.Poisoning?) && (main.Poisoning? ==> created >= |suite|)
      modifies this
      ensures workers == old(workers) && View() == Next(old(View()), MainStep)
    {
      var job := if main.Dispatching? then suite[created] else Pill(created);
      inputQueue := inputQueue + [job];
      created := created + 1;
    }

    /** Receives one result and counts it. */
    method Receive()
      requires main.Collecting? && outputQueue != [] && |collected| != |suite|
      modifies this
      ensures workers == old(workers) && View() == Next(old(View()), MainStep)
    {
      var job := outputQueue[0];
      outputQueue := outputQueue[1..];
      collected := collected + [job];
      if job.isBreak {
        return;
      }
      if job.isSkip {
        skipped := skipped + 1;
      } else if job.returncode == 0 {
        passed := passed + 1;
      } else if job.returncode == 1 {
        failed := failed + 1;
      } else if job.returncode == 2 {
        valgrind := valgrind + 1;
      } else {
        crashed := crashed + 1;
      }
    }

    /** One action of the main thread. */
    method MainTurn()
      requires Inv(View()) && Enabled(View(), MainStep)
      modifies this
      ensures workers == old(workers) && View() == Next(old(View()), MainStep)
    {
      match main
      case Dispatching =>
        if created < |suite| {
          Put();
        } else {
          main := Poisoning;
        }
      case Poisoning =>
        if created < |suite| + workers.Length {
          Put();
        } else {
          main := Collecting;
        }
      case Collecting =>
        if |collected| == |suite| {
          main := Joining(0);
        } else {
          Receive();
        }
      case Joining(joined) =>
        if joined < workers.Length {
          main := Joining(joined + 1);
        } else {
          var status := if passed + skipped == |suite| then 0 else 1;
          main := Finished(status);
        }
    }

    method TakeJob(w: nat)
      requires Enabled(View(), Take(w))
      modifies this, workers
      ensures workers == old(workers) && View() == Next(old(View()), Take(w))
    {
      workers[w] := Holding(inputQueue[0]);
      inputQueue := inputQueue[1..];
    }

    method ExamineJob(w: nat)
      requires Enabled(View(), Examine(w))
      modifies workers
      ensures View() == Next(old(View()), Examine(w))
    {
      var job := workers[w].job;
      if job.isBreak {
        workers[w] := Exited(job);
      } else if threadExit {
        workers[w] := Delivering(job.(isBreak := true));
      } else if job.isSkip {
        workers[w] := Delivering(job);
      } else {
        workers[w] := Running(job);
      }
    }

    method CompleteJob(w: nat, code: int)
      requires Enabled(View(), Complete(w, code))
      modifies workers
      ensures View() == Next(old(View()), Complete(w, code))
    {
      workers[w] := Delivering(workers[w].job.(returncode := code));
    }

    method DeliverJob(w: nat)
      requires Enabled(View(), Deliver(w))
      modifies this, workers
      ensures workers == old(workers) && View() == Next(old(View()), Deliver(w))
    {
      outputQueue := outputQueue + [workers[w].job];
      workers[w] := Idle;
    }

    /** One action of worker `w`, which returns `code` if it is running a job. */
    method WorkerTurn(w: nat, code: int) returns (ghost e: Event)
      requires CanAct(w)
      modifies this, workers
      ensures workers == old(workers) && old(Enabled(View(), e)) && View() == Next(old(View()), e)
    {
      match workers[w]
      case Idle => e := Take(w); TakeJob(w);
      case Holding(_) => e := Examine(w); ExamineJob(w);
      case Running(_) => e := Complete(w, code); CompleteJob(w, code);
      case Delivering(_) => e := Deliver(w); DeliverJob(w);
    }

    /** The signal handler. */
    method Interrupt()
      requires !threadExit
      modifies this
      ensures workers == old(workers) && View() == Next(old(View()), Signal)
    {
      threadExit := true;
    }

    predicate CanAct(w: nat)
      reads this, workers
    {
      w < workers.Length && !workers[w].Exited? && (workers[w].Idle? ==> inputQueue != [])
    }
  }

  /** Runs a whole test session under an arbitrary schedule: whoever can act
      may act, commands may return anything and the interrupt may come at any
      moment.  It terminates; `run` records what happened, and the status
      and the counters tell the truth about it.  */
  method RunTests(suite: seq<Job>, processors: nat)
    returns (status: int, tally: Tally, collected: seq<Job>, interrupted: bool, ghost run: seq<Event>)
    requires FreshSuite(suite) && (processors > 0 || suite == [])
    ensures Legal(Start(suite, processors), run)
    ensures After(Start(suite, processors), run).collected == collected && |collected| == |suite|
    ensures forall t: nat :: t < |suite| ==> Copies(collected, t) == 1
    ensures status == 0 <==> forall i :: 0 <= i < |collected| ==> Good(collected[i])
    ensures status == 0 <==> AllSucceeded(Start(suite, processors), run)
    ensures CountersTrue(Start(suite, processors), run, tally)
    ensures !interrupted ==> Interrupted(collected) == 0
  {
    hide Cost, JobsOk, PlacesOk;
    var d := new Driver(suite, processors);
    InvStart(suite, processors);
    CostNonNegative(d.View());
    run := [];
    while !d.main.Finished?
      invariant fresh(d) && fresh(d.workers)
      invariant Inv(d.View()) && d.suite == suite && d.workers.Length == processors
      invariant Legal(Start(suite, processors), run) && After(Start(suite, processors), run) == d.View()
      invariant Cost(d.View()) >= 0
      decreases Cost(d.View())
    {
      ghost var s := d.View();
      ghost var e := MainStep;
      var found := exists w :: 0 <= w < d.workers.Length && d.CanAct(w);
      var mainReady := d.main.Dispatching? || d.main.Poisoning?
        || (d.main.Collecting? && (|d.collected| == |d.suite| || d.outputQueue != []))
        || (d.main.Joining? && (d.main.joined >= d.workers.Length || d.workers[d.main.joined].Exited?));
      if !found {
        forall i | 0 <= i < |s.workers| ensures s.workers[i].Exited? || (s.workers[i].Idle? && s.input == []) {
          assert !d.CanAct(i);
        }
        AllWaiting(s);
      }
      if {
        case mainReady => d.MainTurn();
        case found =>
          var w :| 0 <= w < d.workers.Length && d.CanAct(w);
          var code: int := *;
          e := d.WorkerTurn(w, code);
        case !d.threadExit => d.Interrupt(); e := Signal;
      }
      InvNext(s, e);
      CostDecreases(s, e);
      SameSize(s, e);
      OneMoreEvent(Start(suite, processors), run, e);
      run := run + [e];
    }
    FinishedState(d.View());
    StatusTellsTheTruth(suite, processors, run);
    CountersTellTheTruth(suite, processors, run);
    tally := Tally(d.passed, d.skipped, d.failed, d.crashed, d.valgrind);
    status, collected, interrupted := d.main.status, d.collected, d.threadExit;
  }
}
