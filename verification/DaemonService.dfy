/** Which of the daemon's tasks can run at the same time. The loop launches root processing, the
    indexer update and the bad-performer round without waiting for them. */
module DaemonService {

  // A method under the SingletonTask decorator, and how many of its bodies are running.
  datatype Task = Task(runningFlag: bool, bodies: nat)

  datatype Loop = AwaitHeader | AwaitNext | Backoff

  datatype Daemon = Daemon(
    loop: Loop,
    rootProcessing: bool,   // the promise field is not null
    process: Task,
    indexer: Task,
    performers: Task,
    skippedRoots: nat)      // roots handed to a processNextRoot that skipped them

  datatype Event =
    | HeaderArrived(indexerDue: bool, headerChanged: bool)
    | NextArrived(found: bool)
    | TurnFails
    | Wake
    | ProcessSettles        // the decorator clears its flag
    | PromiseSettles        // then the field becomes null
    | IndexerSettles
    | PerformersSettle

  function Call(t: Task): Task {
    if t.runningFlag then t else Task(true, t.bodies + 1)
  }

  function Settle(t: Task): Task
    requires t.bodies > 0
  {
    Task(false, t.bodies - 1)
  }

  predicate Enabled(d: Daemon, e: Event) {
    match e
    case HeaderArrived(_, _) => d.loop == AwaitHeader
    case NextArrived(_) => d.loop == AwaitNext
    case TurnFails => d.loop != Backoff
    case Wake => d.loop == Backoff
    case ProcessSettles => d.process.bodies > 0
    case PromiseSettles => d.rootProcessing && !d.process.runningFlag
    case IndexerSettles => d.indexer.bodies > 0
    case PerformersSettle => d.performers.bodies > 0
  }

  function Step(d: Daemon, e: Event): Daemon
    requires Enabled(d, e)
  {
    match e
    case HeaderArrived(due, changed) =>
      d.(indexer := if due && changed then Call(d.indexer) else d.indexer,
         performers := if changed then Call(d.performers) else d.performers,
         loop := if d.rootProcessing then Backoff else AwaitNext)
    case NextArrived(found) =>
      if !found then d.(loop := Backoff)
      else d.(loop := Backoff, rootProcessing := true, process := Call(d.process),
              skippedRoots := d.skippedRoots + if d.process.runningFlag then 1 else 0)
    case TurnFails => d.(loop := Backoff)
    case Wake => d.(loop := AwaitHeader)
    case ProcessSettles => d.(process := Settle(d.process))
    case PromiseSettles => d.(rootProcessing := false)
    case IndexerSettles => d.(indexer := Settle(d.indexer))
    case PerformersSettle => d.(performers := Settle(d.performers))
  }

  ghost predicate ValidRun(d: Daemon, es: seq<Event>)
    decreases |es|
  {
    es == [] || (Enabled(d, es[0]) && ValidRun(Step(d, es[0]), es[1..]))
  }

  ghost function After(d: Daemon, es: seq<Event>): Daemon
    requires ValidRun(d, es)
    decreases |es|
  {
    if es == [] then d else After(Step(d, es[0]), es[1..])
  }

  const START := Daemon(AwaitHeader, false, Task(false, 0), Task(false, 0), Task(false, 0), 0)

  predicate Single(t: Task) {
    t.bodies == if t.runningFlag then 1 else 0
  }

  predicate Inv(d: Daemon) {
    && Single(d.process) && Single(d.indexer) && Single(d.performers)
    && (d.process.runningFlag ==> d.rootProcessing)
    && (d.loop == AwaitNext ==> !d.rootProcessing)
    && d.skippedRoots == 0
  }

  lemma {:induction false} InvRun(d: Daemon, es: seq<Event>)
    requires Inv(d) && ValidRun(d, es)
    ensures Inv(After(d, es))
    decreases |es|
  {
    if es == [] {
    } else {
      InvRun(Step(d, es[0]), es[1..]);
    }
  }

  // In every interleaving no two bodies of one task overlap, the root field is set whenever a root
  // is in processing, no root is chosen meanwhile, and none is handed to a skipped call.
  lemma TasksNeverOverlap(es: seq<Event>)
    requires ValidRun(START, es)
    ensures var d := After(START, es);
      && d.process.bodies <= 1 && d.indexer.bodies <= 1 && d.performers.bodies <= 1
      && (d.process.bodies == 1 ==> d.rootProcessing && d.loop != AwaitNext)
      && d.skippedRoots == 0
  {
    InvRun(START, es);
  }

  // At any time of any run: after a changed header the bad-performer round is running, and the indexer
  // update if it is due, whether they were before or not; a root is chosen only if none is in
  // processing.
  lemma HeaderLaunches(es: seq<Event>, due: bool, changed: bool)
    requires ValidRun(START, es) && After(START, es).loop == AwaitHeader
    ensures var d := After(START, es);
      var t := Step(d, HeaderArrived(due, changed));
      && t.performers.bodies == (if changed then 1 else d.performers.bodies)
      && t.indexer.bodies == (if due && changed then 1 else d.indexer.bodies)
      && t.process == d.process && t.rootProcessing == d.rootProcessing
      && (t.loop == AwaitNext <==> !d.rootProcessing)
  {
    InvRun(START, es);
  }

  // A root that is found is in processing afterwards, in the only body.
  lemma FoundRootIsProcessed(es: seq<Event>, found: bool)
    requires ValidRun(START, es) && After(START, es).loop == AwaitNext
    ensures var t := Step(After(START, es), NextArrived(found));
      t.process.bodies == (if found then 1 else 0) && t.rootProcessing == found
  {
    InvRun(START, es);
  }

  ghost function Settling(d: Daemon): seq<Event> {
    (if d.process.runningFlag then [ProcessSettles] else []) + (if d.rootProcessing then [PromiseSettles] else [])
  }

  // The root in processing ends.
  lemma SettlesRoot(d: Daemon)
    requires Inv(d)
    ensures ValidRun(d, Settling(d))
    ensures var t := After(d, Settling(d)); Inv(t) && !t.rootProcessing && t.loop == d.loop
  {
    var es := Settling(d);
    if d.process.runningFlag {
      assert es[1..] == [PromiseSettles] && [PromiseSettles][1..] == [];
      assert ValidRun(Step(d, ProcessSettles), [PromiseSettles]);
    } else if d.rootProcessing {
      assert es == [PromiseSettles] && [PromiseSettles][1..] == [];
    }
  }

  ghost function Turning(d: Daemon): seq<Event> {
    match d.loop
    case AwaitHeader => [HeaderArrived(false, false)]
    case Backoff => [Wake, HeaderArrived(false, false)]
    case AwaitNext => []
  }

  lemma TurnsToNext(d: Daemon)
    requires !d.rootProcessing
    ensures ValidRun(d, Turning(d)) && After(d, Turning(d)).loop == AwaitNext
  {
    assert [HeaderArrived(false, false)][1..] == [];
    assert d.loop == Backoff ==> Turning(d)[1..] == [HeaderArrived(false, false)];
  }

  lemma {:induction false} AfterBoth(d: Daemon, es: seq<Event>, fs: seq<Event>)
    requires ValidRun(d, es) && ValidRun(After(d, es), fs)
    ensures ValidRun(d, es + fs) && After(d, es + fs) == After(After(d, es), fs)
    decreases |es|
  {
    if es == [] {
      assert es + fs == fs;
    } else {
      assert (es + fs)[0] == es[0] && (es + fs)[1..] == es[1..] + fs;
      AfterBoth(Step(d, es[0]), es[1..], fs);
    }
  }

  // A daemon that is not stopped comes to choose a root again: from every state of a run some events that
  // need no new header or root lead there.
  lemma ChoosesAgain(es: seq<Event>) returns (fs: seq<Event>)
    requires ValidRun(START, es)
    ensures ValidRun(After(START, es), fs) && After(After(START, es), fs).loop == AwaitNext
    ensures forall i :: 0 <= i < |fs| ==> !fs[i].NextArrived?
  {
    InvRun(START, es);
    var d := After(START, es);
    SettlesRoot(d);
    var t := After(d, Settling(d));
    TurnsToNext(t);
    AfterBoth(d, Settling(d), Turning(t));
    fs := Settling(d) + Turning(t);
  }

  // One decorated method of one object.
  class SingletonTask {
    var runningFlag: bool
    ghost var bodies: nat

    ghost function Model(): Task
      reads this
    {
      Task(runningFlag, bodies)
    }

    constructor ()
      ensures Model() == Task(false, 0)
    {
      runningFlag, bodies := false, 0;
    }

    method Run() returns (started: bool)
      modifies this
      ensures Model() == Call(old(Model())) && started == !old(runningFlag)
    {
      if runningFlag {
        return false;
      }
      runningFlag, bodies := true, bodies + 1;
      return true;
    }

    method Finally()
      requires bodies > 0
      modifies this
      ensures Model() == Settle(old(Model()))
    {
      runningFlag, bodies := false, bodies - 1;
    }
  }

  class DaemonService {
    var loop: Loop
    var rootProcessing: bool
    const process: SingletonTask
    const indexer: SingletonTask
    const performers: SingletonTask
    ghost var skippedRoots: nat

    ghost predicate Valid() {
      process != indexer && process != performers && indexer != performers
    }

    ghost function Model(): Daemon
      reads this, process, indexer, performers
    {
      Daemon(loop, rootProcessing, process.Model(), indexer.Model(), performers.Model(), skippedRoots)
    }

    constructor ()
      ensures Valid() && Model() == START && fresh(process) && fresh(indexer) && fresh(performers)
    {
      loop, rootProcessing, skippedRoots := AwaitHeader, false, 0;
      process := new SingletonTask();
      indexer := new SingletonTask();
      performers := new SingletonTask();
    }

    // baseRun from the finalized header to getNext.
    method OnHeader(indexerDue: bool, headerChanged: bool)
      requires Valid() && loop == AwaitHeader
      modifies this, indexer, performers
      ensures Model() == Step(old(Model()), HeaderArrived(indexerDue, headerChanged))
    {
      if headerChanged && indexerDue {
        var _ := indexer.Run();
      }
      if headerChanged {
        var _ := performers.Run();
      }
      loop := if rootProcessing then Backoff else AwaitNext;
    }

    // baseRun once getNext has answered.
    method OnNext(found: bool)
      requires Valid() && loop == AwaitNext
      modifies this, process
      ensures Model() == Step(old(Model()), NextArrived(found))
    {
      loop := Backoff;
      if !found {
        return;
      }
      var started := process.Run();
      rootProcessing := true;
      skippedRoots := skippedRoots + if started then 0 else 1;
    }

    method OnPromiseSettled()
      requires Valid() && Enabled(Model(), PromiseSettles)
      modifies this
      ensures Model() == Step(old(Model()), PromiseSettles)
    {
      rootProcessing := false;
    }
  }
}
