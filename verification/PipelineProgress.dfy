/** The pipeline always ends: some thread can move in every reachable state that is not final, and
    every move brings the end nearer, so no schedule can keep the threads going for ever. */
module PipelineProgress {
  import opened Queues
  import opened Pipeline
  import opened PipelineSafety
  import opened PipelineLedger
  import opened PipelinePublication

  // ----- deadlock freedom ----------------------------------------------------------------------

  predicate Asleep(s: State, t: Thread)
    requires t in s.pcs
  {
    var pc := s.pcs[t];
    || (pc.OfferJob? && t in s.q.jobs.sleepingProducers)
    || (pc.FetchJob? && t in s.q.jobs.sleepingConsumers)
    || (pc.OfferRow? && t in s.q.results.sleepingProducers)
    || (pc.FetchRow? && t in s.q.results.sleepingConsumers)
    || (pc.Report? && s.f.asleep)
  }

  lemma AnyWake(ws: set<Thread>) returns (wake: Thread)
    ensures LegalWake(ws, wake)
  {
    if ws == {} {
      wake := Main;
    } else {
      wake :| wake in ws;
    }
  }

  /** A started, unfinished thread that does not sleep can move. */
  lemma AwakeMoves(c: Config, s: State, t: Thread) returns (slot: Slot<Row>, wake: Thread)
    requires Shape(c, s) && t in s.pcs && Started(c, s.f, t) && t != Main
    requires !s.pcs[t].Idle? && s.pcs[t] != Done && !Asleep(s, t)
    ensures CanMove(c, s, t, slot, wake)
  {
    var pc := s.pcs[t];
    slot := if pc.Busy? then Slot(0, Row(pc.job.id, pc.job.kind, 0, 0, 0, 0)) else Slot(0, Row(0, Warning, 0, 0, 0, 0));
    if pc.OfferJob? {
      wake := AnyWake(s.q.jobs.sleepingConsumers);
    } else if pc.FetchJob? {
      wake := AnyWake(s.q.jobs.sleepingProducers);
    } else if pc.OfferRow? {
      wake := AnyWake(s.q.results.sleepingConsumers);
    } else if pc.FetchRow? {
      wake := AnyWake(s.q.results.sleepingProducers);
    } else {
      wake := Main;
    }
  }

  lemma SomeMember(ws: set<Thread>) returns (t: Thread)
    requires ws != {}
    ensures t in ws
  {
    t :| t in ws;
  }

  /** A worker sleeps on the full result queue: the writer, or a worker already signalled, can move. */
  lemma ResultsDrain(c: Config, s: State, u: Thread) returns (t: Thread)
    requires c.Valid() && Structure(c, s) && !s.q.stop && s.f.started == c.workerCount + 3
    requires u in s.q.results.sleepingProducers
    ensures t in s.pcs && t != Main && Started(c, s.f, t) && !s.pcs[t].Idle? && s.pcs[t] != Done && !Asleep(s, t)
  {
    if s.q.results.items == [] {
      t := SomeMember(s.q.results.signalledProducers);
      assert IsProducer(s.q.results, t);
      assert Waits(c, t, s.pcs[t], s.q) && Knows(c, t, s.pcs[t], s.q, s.d);
    } else {
      t := Writer;
      assert Knows(c, Writer, s.pcs[Writer], s.q, s.d) && Waits(c, Writer, s.pcs[Writer], s.q);
      WriterAwake(c, s);
    }
  }

  /** The writer, being the only consumer of results, never sleeps while there are any. */
  lemma WriterAwake(c: Config, s: State)
    requires Structure(c, s) && s.q.results.items != []
    ensures Writer !in s.q.results.sleepingConsumers
  {
    if s.q.results.sleepingConsumers != {} {
      var v := SomeMember(s.q.results.signalledConsumers);
      assert IsConsumer(s.q.results, v);
      assert Waits(c, v, s.pcs[v], s.q) && Knows(c, v, s.pcs[v], s.q, s.d);
    }
  }

  /** The scanner sleeps on the full job queue: some worker, or the writer, can move. */
  lemma JobsDrain(c: Config, s: State) returns (t: Thread)
    requires c.Valid() && Structure(c, s) && !s.q.stop && s.f.started == c.workerCount + 3
    requires Scanner in s.q.jobs.sleepingProducers
    ensures t in s.pcs && t != Main && Started(c, s.f, t) && !s.pcs[t].Idle? && s.pcs[t] != Done && !Asleep(s, t)
  {
    if s.q.jobs.items == [] {
      t := SomeMember(s.q.jobs.signalledProducers);
      assert IsProducer(s.q.jobs, t);
      assert Waits(c, t, s.pcs[t], s.q) && Knows(c, t, s.pcs[t], s.q, s.d);
    } else {
      t := WorkerDrains(c, s);
    }
  }

  lemma WorkerDrains(c: Config, s: State) returns (t: Thread)
    requires c.Valid() && Structure(c, s) && !s.q.stop && s.f.started == c.workerCount + 3
    requires Scanner in s.q.jobs.sleepingProducers && s.q.jobs.items != []
    ensures t in s.pcs && t != Main && Started(c, s.f, t) && !s.pcs[t].Idle? && s.pcs[t] != Done && !Asleep(s, t)
  {
    t := Worker(0);
    assert Knows(c, t, s.pcs[t], s.q, s.d) && Waits(c, t, s.pcs[t], s.q);
    if t in s.q.jobs.sleepingConsumers {
      t := SomeMember(s.q.jobs.signalledConsumers);
      assert IsConsumer(s.q.jobs, t);
      assert Waits(c, t, s.pcs[t], s.q) && Knows(c, t, s.pcs[t], s.q, s.d);
    } else if t in s.q.results.sleepingProducers {
      t := ResultsDrain(c, s, t);
    }
  }

  lemma {:induction false} AllDoneCount(c: Config, s: State, n: nat)
    requires Shape(c, s) && n <= c.workerCount && forall i: nat :: i < n ==> s.pcs[Worker(i)] == Done
    ensures Counting(s.pcs, n) == 0
  {
    if n > 0 {
      AllDoneCount(c, s, n - 1);
    }
  }

  /** A thread that sleeps does so on an open, unstopped queue, with every thread started. */
  lemma SleeperFacts(c: Config, s: State, u: Thread)
    requires Structure(c, s) && u in s.pcs && Asleep(s, u) && u != Progress && !Spawning(s.pcs[Main])
    ensures !s.q.stop && s.f.started == c.workerCount + 3
    ensures u == Scanner || u.Worker? || u == Writer
    ensures u == Scanner ==> u in s.q.jobs.sleepingProducers && !s.q.jobs.closed
    ensures u.Worker? ==> (u in s.q.jobs.sleepingConsumers && !s.q.jobs.closed) || u in s.q.results.sleepingProducers
    ensures u == Writer ==> u in s.q.results.sleepingConsumers && !s.q.results.closed
  {
    assert Knows(c, u, s.pcs[u], s.q, s.d);
  }

  /** A thread that is being joined and sleeps is waiting for another that can move. */
  lemma JoinedSleeper(c: Config, s: State, next: nat) returns (t: Thread)
    requires c.Valid() && Structure(c, s) && s.pcs[Main] == MJoin(next)
    requires Asleep(s, ThreadToJoin(c, next)) && Started(c, s.f, ThreadToJoin(c, next))
    ensures t in s.pcs && t != Main && Started(c, s.f, t) && !s.pcs[t].Idle? && s.pcs[t] != Done && !Asleep(s, t)
  {
    var u := ThreadToJoin(c, next);
    SleeperFacts(c, s, u);
    if u == Scanner {
      t := JobsDrain(c, s);
    } else {
      assert Finished(c, s, ThreadToJoin(c, 0));
      assert Knows(c, Scanner, Done, s.q, s.d);
      if u.Worker? {
        t := ResultsDrain(c, s, u);
      } else {
        forall i: nat | i < c.workerCount
          ensures s.pcs[Worker(i)] == Done
        {
          assert Finished(c, s, ThreadToJoin(c, i + 1));
        }
        AllDoneCount(c, s, c.workerCount);
        t := Main;
        assert false;
      }
    }
  }

  predicate Final(pc: Pc) {
    pc.MComplete? || pc.MIncomplete?
  }

  lemma NotIdle(c: Config, t: Thread, pc: Pc, q: Wires, d: Ledger)
    requires Knows(c, t, pc, q, d) && t != Caller
    ensures !pc.Idle?
  {
  }

  /** The thread that keeps the coordinating thread waiting, or one that keeps that thread waiting. */
  lemma Blocker(c: Config, s: State) returns (t: Thread)
    requires c.Valid() && Structure(c, s) && !MainEnabled(c, s, s.pcs[Main]) && !Final(s.pcs[Main])
    ensures t in s.pcs && t != Main && Started(c, s.f, t) && !s.pcs[t].Idle? && s.pcs[t] != Done && !Asleep(s, t)
  {
    var pc := s.pcs[Main];
    if pc.MJoin? {
      t := ThreadToJoin(c, pc.next);
      assert Knows(c, t, s.pcs[t], s.q, s.d);
      if Asleep(s, t) {
        t := JoinedSleeper(c, s, pc.next);
      } else {
        NotIdle(c, t, s.pcs[t], s.q, s.d);
      }
    } else if pc.MJoinProgress? {
      t := Progress;
      assert Knows(c, t, s.pcs[t], s.q, s.d);
    } else {
      t := Caller;
    }
  }

  lemma MainMoves(c: Config, s: State, slot: Slot<Row>, wake: Thread)
    requires Shape(c, s) && MainEnabled(c, s, s.pcs[Main]) && (s.pcs[Main].Shut? || ScopePosition(s.pcs[Main]) || AfterScope(s.pcs[Main]))
    ensures CanMove(c, s, Main, slot, wake)
  {
  }

  /** Deadlock freedom: until the coordinating thread has finished, some thread can move, whatever
      the queue capacities, the number of workers and the sizes of the queued items. */
  lemma NoDeadlock(c: Config, s: State) returns (t: Thread, slot: Slot<Row>, wake: Thread)
    requires c.Valid() && Structure(c, s) && !Final(s.pcs[Main])
    ensures CanMove(c, s, t, slot, wake)
  {
    assert Knows(c, Main, s.pcs[Main], s.q, s.d);
    slot, wake := Slot(0, Row(0, Warning, 0, 0, 0, 0)), Main;
    if MainEnabled(c, s, s.pcs[Main]) {
      t := Main;
      MainMoves(c, s, slot, wake);
    } else {
      t := Blocker(c, s);
      slot, wake := AwakeMoves(c, s, t);
    }
  }

  /** When the coordinating thread has finished, so has every thread that was started. */
  lemma FinalMeansFinished(c: Config, s: State, t: Thread)
    requires c.Valid() && Structure(c, s) && Final(s.pcs[Main]) && t in s.pcs && t != Main && t != Caller
    ensures Finished(c, s, t)
  {
    if t != Progress {
      var k := JoinOrder(c, t);
      assert Finished(c, s, ThreadToJoin(c, k));
    }
  }

  lemma FinalIsStill(c: Config, s: State, t: Thread, slot: Slot<Row>, wake: Thread)
    requires c.Valid() && Structure(c, s) && Final(s.pcs[Main])
    ensures !CanMove(c, s, t, slot, wake)
  {
    if t != Main {
      AloneAfterScope(c, s, t, slot, wake);
    }
  }

  // ----- every move brings the end nearer ------------------------------------------------------

  /** How far a position is from the thread's end, at most. */
  function Rank(c: Config, t: Thread, pc: Pc): nat {
    match pc
    case Idle => 14
    case Done => 0
    case Shut(stage) => (if t == Main then 12 + c.workerCount else 0) + StageRank(stage)
    case Scan => 14
    case OfferJob(_) => 30
    case FinishScan => 1
    case StartWorker => 16
    case FetchJob => 15
    case Busy(_) => 27
    case OfferRow(_) => 22
    case Leave => 2
    case CloseLast => 1
    case StartWriter => 18
    case FetchRow => 17
    case Insert(_) => 19
    case Commit => 18
    case Drained => 15
    case LastCommit => 14
    case Report => 15
    case Emit => 17
    case MRegister => 28 + c.workerCount
    case MGuard => 27 + c.workerCount
    case MSpawn => 26 + c.workerCount
    case MJoin(next) => 11 + (if next <= c.workerCount + 1 then c.workerCount + 1 - next else 0)
    case MFinish => 10
    case MJoinProgress => 8
    case MUnregister => 7
    case MCheckError => 6
    case MCheckCancel => 5
    case MFinalize => 4
    case MCheckCancelAgain => 3
    case MPublish => 2
    case MMark(_) => 1
    case MComplete => 0
    case MIncomplete => 0
  }

  function StageRank(stage: Stage): nat {
    match stage
    case Record(_) => 13
    case RequestStop => 11
    case CloseJobs => 9
    case CloseResults => 7
    case CancelProgress => 5
  }

  function Sleepers<T>(ch: Channel<T>): nat {
    |ch.sleepingProducers| + |ch.sleepingConsumers|
  }

  /** What the shared state can still make the threads do: emissions to come, queued items, wakeups
      to deliver, threads to start, and the three events that wake everybody. */
  function Work(c: Config, q: Wires, d: Ledger, f: Flags): int {
    21 * (|c.plan| - d.emitted) + 14 * |q.jobs.items| + 4 * |q.results.items|
    - Sleepers(q.jobs) - Sleepers(q.results) - (if f.asleep then 1 else 0)
    + (if f.dirty then 3 else 0) + (c.workerCount + 3 - f.started)
    + (if q.stop then 0 else 4 * c.workerCount + 20)
    + (if q.jobs.closed then 0 else 2 * c.workerCount + 10)
    + (if q.results.closed then 0 else 2 * c.workerCount + 10)
  }

  lemma {:induction false} WorkersBounded(ws: set<Thread>, n: nat)
    requires forall t :: t in ws ==> t.Worker? && t.index < n
    ensures |ws| <= n
  {
    if n == 0 {
      if ws != {} {
        var t := SomeMember(ws);
      }
    } else {
      WorkersBounded(ws - {Worker(n - 1)}, n - 1);
      RemoveMember(ws, Worker(n - 1));
    }
  }

  lemma WhoSleepsOnJobs(c: Config, s: State, t: Thread)
    requires Structure(c, s)
    ensures t in s.q.jobs.sleepingProducers ==> t == Scanner
    ensures t in s.q.jobs.sleepingConsumers ==> t.Worker? && t.index < c.workerCount
  {
    if s.q.jobs.Sleeps(t) {
      assert IsProducer(s.q.jobs, t) || IsConsumer(s.q.jobs, t);
      assert Waits(c, t, s.pcs[t], s.q) && Knows(c, t, s.pcs[t], s.q, s.d);
    }
  }

  lemma WhoSleepsOnResults(c: Config, s: State, t: Thread)
    requires Structure(c, s)
    ensures t in s.q.results.sleepingProducers ==> t.Worker? && t.index < c.workerCount
    ensures t in s.q.results.sleepingConsumers ==> t == Writer
  {
    if s.q.results.Sleeps(t) {
      assert IsProducer(s.q.results, t) || IsConsumer(s.q.results, t);
      assert Waits(c, t, s.pcs[t], s.q) && Knows(c, t, s.pcs[t], s.q, s.d);
    }
  }

  /** At most every thread sleeps on a condition variable. */
  lemma SleepersBounded(c: Config, s: State)
    requires Structure(c, s)
    ensures Sleepers(s.q.jobs) <= c.workerCount + 1 && Sleepers(s.q.results) <= c.workerCount + 1
  {
    forall t: Thread
      ensures t in s.q.jobs.sleepingProducers ==> t == Scanner
      ensures t in s.q.jobs.sleepingConsumers ==> t.Worker? && t.index < c.workerCount
      ensures t in s.q.results.sleepingProducers ==> t.Worker? && t.index < c.workerCount
      ensures t in s.q.results.sleepingConsumers ==> t == Writer
    {
      WhoSleepsOnJobs(c, s, t);
      WhoSleepsOnResults(c, s, t);
    }
    WorkersBounded(s.q.jobs.sleepingConsumers, c.workerCount);
    WorkersBounded(s.q.results.sleepingProducers, c.workerCount);
    SingletonBound(s.q.jobs.sleepingProducers, Scanner);
    SingletonBound(s.q.results.sleepingConsumers, Writer);
  }

  lemma SingletonBound(ws: set<Thread>, t: Thread)
    requires forall u :: u in ws ==> u == t
    ensures |ws| <= 1
  {
    if ws != {} {
      assert ws == {t};
    }
  }

  predicate Nearer(c: Config, s: State, t: Thread, pc: Pc, e: Effect) {
    Rank(c, t, e.pc) + Work(c, e.q, e.d, e.f) < Rank(c, t, pc) + Work(c, s.q, s.d, s.f)
  }

  /** The facts about sleepers that the accounting needs. */
  ghost predicate FewSleepers(c: Config, q: Wires) {
    && Sleepers(q.jobs) <= c.workerCount + 1 && Sleepers(q.results) <= c.workerCount + 1
    && (q.stop || q.jobs.closed ==> Sleepers(q.jobs) == 0)
    && (q.stop || q.results.closed ==> Sleepers(q.results) == 0)
  }

  lemma ShutNearer(c: Config, s: State, t: Thread, stage: Stage)
    requires FewSleepers(c, s.q)
    ensures Nearer(c, s, t, Shut(stage), ShutAct(s, t, stage))
  {
  }

  lemma WakingCosts<T>(ch: Channel<T>, wake: Thread)
    ensures Sleepers(ch.NotifyConsumer(wake)) >= Sleepers(ch) - 1
    ensures Sleepers(ch.NotifyProducer(wake)) >= Sleepers(ch) - 1
  {
    RemoveMember(ch.sleepingConsumers, wake);
    RemoveMember(ch.sleepingProducers, wake);
  }

  lemma PushCosts<T>(limits: Limits, ch: Channel<T>, t: Thread, slot: Slot<T>, stop: bool, wake: Thread)
    requires t !in ch.sleepingProducers
    ensures var ch' := PushBy(limits, ch, t, slot, stop, wake);
            match DecidePush(limits, ch.items, ch.closed, slot.bytes, stop)
            case Refuse => ch'.items == ch.items && Sleepers(ch') == Sleepers(ch) && ch'.closed == ch.closed
            case WaitForSpace => ch'.items == ch.items && Sleepers(ch') == Sleepers(ch) + 1 && ch'.closed == ch.closed
            case Accept => |ch'.items| == |ch.items| + 1 && Sleepers(ch') >= Sleepers(ch) - 1 && ch'.closed == ch.closed
  {
    AddMember(ch.sleepingProducers, t);
    RemoveMember(ch.sleepingConsumers, wake);
  }

  lemma PopCosts<T>(ch: Channel<T>, t: Thread, stop: bool, wake: Thread)
    requires t !in ch.sleepingConsumers
    ensures var ch' := PopBy(ch, t, stop, wake);
            match DecidePop(ch.items, ch.closed, stop)
            case Nothing => ch'.items == ch.items && Sleepers(ch') == Sleepers(ch) && ch'.closed == ch.closed
            case WaitForItem => ch'.items == ch.items && Sleepers(ch') == Sleepers(ch) + 1 && ch'.closed == ch.closed
            case Take => |ch'.items| == |ch.items| - 1 && Sleepers(ch') >= Sleepers(ch) - 1 && ch'.closed == ch.closed
  {
    AddMember(ch.sleepingConsumers, t);
    RemoveMember(ch.sleepingProducers, wake);
  }

  lemma ScannerNearer(c: Config, s: State, pc: Pc, ok: bool, wake: Thread)
    requires FewSleepers(c, s.q) && (pc.Scan? || pc.OfferJob? || pc.FinishScan?) && s.d.emitted <= |c.plan|
    requires pc.OfferJob? ==> Scanner !in s.q.jobs.sleepingProducers
    ensures Nearer(c, s, Scanner, pc, ScannerAct(c, s, pc, ok, wake))
  {
    if pc.OfferJob? {
      PushCosts(c.JobLimits(), s.q.jobs, Scanner, Slot(0, pc.job), s.q.stop, wake);
    }
  }

  lemma FetchNearer(c: Config, s: State, t: Thread, wake: Thread)
    requires t != Main && t !in s.q.jobs.sleepingConsumers
    ensures Nearer(c, s, t, FetchJob, FetchJobAct(s, t, wake))
  {
    PopCosts(s.q.jobs, t, s.q.stop, wake);
  }

  lemma OfferNearer(c: Config, s: State, t: Thread, slot: Slot<Row>, wake: Thread)
    requires t != Main && t !in s.q.results.sleepingProducers
    ensures Nearer(c, s, t, OfferRow(slot), OfferRowAct(c, s, t, slot, wake))
  {
    PushCosts(c.resultLimits, s.q.results, t, slot, s.q.stop, wake);
  }

  lemma WorkerNearer(c: Config, s: State, t: Thread, pc: Pc, ok: bool, slot: Slot<Row>, wake: Thread)
    requires FewSleepers(c, s.q) && t.Worker? && (pc.StartWorker? || pc.Busy? || pc.Leave? || pc.CloseLast?)
    ensures Nearer(c, s, t, pc, WorkerAct(c, s, t, pc, ok, slot, wake))
  {
  }

  lemma FetchRowNearer(c: Config, s: State, wake: Thread)
    requires Writer !in s.q.results.sleepingConsumers
    ensures Nearer(c, s, Writer, FetchRow, FetchRowAct(s, wake))
  {
    PopCosts(s.q.results, Writer, s.q.stop, wake);
  }

  lemma WriterNearer(c: Config, s: State, pc: Pc, ok: bool, wake: Thread)
    requires pc.StartWriter? || pc.Insert? || pc.Commit? || pc.Drained? || pc.LastCommit?
    ensures Nearer(c, s, Writer, pc, WriterAct(c, s, pc, ok, wake))
  {
  }

  lemma ProgressNearer(c: Config, s: State, pc: Pc, ok: bool)
    requires pc.Emit? || (pc.Report? && !s.f.asleep)
    ensures Nearer(c, s, Progress, pc, ProgressAct(s, pc, ok))
  {
  }

  /** The flags' share of the work that is left. */
  function FlagWork(c: Config, f: Flags): int {
    (if f.dirty then 3 else 0) - (if f.asleep then 1 else 0) - f.started
  }

  lemma OnlyFlags(c: Config, q: Wires, d: Ledger, f: Flags, f': Flags)
    ensures Work(c, q, d, f') - Work(c, q, d, f) == FlagWork(c, f') - FlagWork(c, f)
  {
  }

  lemma PublishNearer(c: Config, s: State, pc: Pc, ok: bool)
    requires AfterScope(pc) && !Final(pc)
    ensures var e := PublishAct(s, pc, ok);
            Rank(c, Main, e.pc) + FlagWork(c, e.f) < Rank(c, Main, pc) + FlagWork(c, s.f)
  {
  }

  lemma ScopeNearer(c: Config, s: State, pc: Pc, ok: bool)
    requires ScopePosition(pc) && (pc.MJoin? ==> pc.next <= c.workerCount + 1)
    ensures var e := ScopeAct(c, s, pc, ok);
            Rank(c, Main, e.pc) + FlagWork(c, e.f) < Rank(c, Main, pc) + FlagWork(c, s.f)
  {
  }

  lemma MainNearer(c: Config, s: State, pc: Pc, ok: bool)
    requires (ScopePosition(pc) || AfterScope(pc)) && !Final(pc)
    requires pc.MJoin? ==> pc.next <= c.workerCount + 1
    ensures Nearer(c, s, Main, pc, MainAct(c, s, pc, ok))
  {
    var e := MainAct(c, s, pc, ok);
    if AfterScope(pc) {
      PublishFrame(s, pc, ok);
      PublishNearer(c, s, pc, ok);
    } else {
      ScopeFrame(c, s, pc, ok);
      ScopeNearer(c, s, pc, ok);
    }
    OnlyFlags(c, s.q, s.d, s.f, e.f);
  }

  lemma ScopeEnds(c: Config, s: State)
    requires Shape(c, s) && Coordination(c, s)
    ensures s.pcs[Main].MJoin? ==> s.pcs[Main].next <= c.workerCount + 1
  {
  }

  lemma WorkersNearer(c: Config, s: State, t: Thread, ok: bool, slot: Slot<Row>, wake: Thread)
    requires Shape(c, s) && CanMove(c, s, t, slot, wake) && t.Worker? && Knows(c, t, s.pcs[t], s.q, s.d)
    requires FewSleepers(c, s.q) && !s.pcs[t].Shut?
    ensures Nearer(c, s, t, s.pcs[t], WorkerAct(c, s, t, s.pcs[t], ok, slot, wake))
  {
    var pc := s.pcs[t];
    if pc.FetchJob? {
      FetchNearer(c, s, t, wake);
    } else if pc.OfferRow? {
      OfferNearer(c, s, t, pc.slot, wake);
    } else {
      WorkerNearer(c, s, t, pc, ok, slot, wake);
    }
  }

  lemma WritersNearer(c: Config, s: State, ok: bool, slot: Slot<Row>, wake: Thread)
    requires Shape(c, s) && CanMove(c, s, Writer, slot, wake) && Knows(c, Writer, s.pcs[Writer], s.q, s.d)
    requires !s.pcs[Writer].Shut?
    ensures Nearer(c, s, Writer, s.pcs[Writer], WriterAct(c, s, s.pcs[Writer], ok, wake))
  {
    var pc := s.pcs[Writer];
    if pc.FetchRow? {
      FetchRowNearer(c, s, wake);
    } else {
      WriterNearer(c, s, pc, ok, wake);
    }
  }

  lemma MainsNearer(c: Config, s: State, ok: bool)
    requires Shape(c, s) && Coordination(c, s) && MainEnabled(c, s, s.pcs[Main])
    requires Knows(c, Main, s.pcs[Main], s.q, s.d) && !s.pcs[Main].Shut?
    ensures Nearer(c, s, Main, s.pcs[Main], MainAct(c, s, s.pcs[Main], ok))
  {
    ScopeEnds(c, s);
    MainNearer(c, s, s.pcs[Main], ok);
  }

  lemma OwnNearer(c: Config, s: State, t: Thread, ok: bool, slot: Slot<Row>, wake: Thread)
    requires Structure(c, s) && CanMove(c, s, t, slot, wake) && FewSleepers(c, s.q) && !s.pcs[t].Shut?
    ensures Nearer(c, s, t, s.pcs[t], OwnAct(c, s, t, s.pcs[t], ok, slot, wake))
  {
    assert Knows(c, t, s.pcs[t], s.q, s.d);
    match t
    case Scanner => ScannerNearer(c, s, s.pcs[t], ok, wake);
    case Worker(_) => WorkersNearer(c, s, t, ok, slot, wake);
    case Writer => WritersNearer(c, s, ok, slot, wake);
    case Progress => ProgressNearer(c, s, s.pcs[t], ok);
    case Main => MainsNearer(c, s, ok);
    case Caller =>
  }

  lemma SleepersAreFew(c: Config, s: State)
    requires Structure(c, s)
    ensures FewSleepers(c, s.q)
  {
    SleepersBounded(c, s);
  }

  lemma ActNearer(c: Config, s: State, t: Thread, ok: bool, slot: Slot<Row>, wake: Thread)
    requires Structure(c, s) && CanMove(c, s, t, slot, wake)
    ensures Nearer(c, s, t, s.pcs[t], Act(c, s, t, s.pcs[t], ok, slot, wake))
  {
    SleepersAreFew(c, s);
    if s.pcs[t].Shut? {
      ShutNearer(c, s, t, s.pcs[t].stage);
    } else {
      OwnNearer(c, s, t, ok, slot, wake);
    }
  }

  ghost function WorkerRanks(c: Config, pcs: map<Thread, Pc>, n: nat): nat
    requires forall i: nat :: i < n ==> Worker(i) in pcs
  {
    if n == 0 then 0 else WorkerRanks(c, pcs, n - 1) + Rank(c, Worker(n - 1), pcs[Worker(n - 1)])
  }

  ghost function Ranks(c: Config, s: State): nat
    requires Shape(c, s)
  {
    Rank(c, Scanner, s.pcs[Scanner]) + Rank(c, Writer, s.pcs[Writer]) + Rank(c, Progress, s.pcs[Progress])
    + Rank(c, Main, s.pcs[Main]) + Rank(c, Caller, s.pcs[Caller]) + WorkerRanks(c, s.pcs, c.workerCount)
  }

  ghost function Measure(c: Config, s: State): int
    requires Shape(c, s)
  {
    Ranks(c, s) + Work(c, s.q, s.d, s.f)
  }

  lemma {:induction false} WorkerRanksUpdate(c: Config, pcs: map<Thread, Pc>, n: nat, t: Thread, pc: Pc)
    requires t in pcs && forall i: nat :: i < n ==> Worker(i) in pcs
    ensures WorkerRanks(c, pcs[t := pc], n) == WorkerRanks(c, pcs, n) +
            if t.Worker? && t.index < n then Rank(c, t, pc) - Rank(c, t, pcs[t]) else 0
  {
    if n > 0 {
      WorkerRanksUpdate(c, pcs, n - 1, t, pc);
    }
  }

  lemma RanksAfter(c: Config, s: State, t: Thread, e: Effect)
    requires Shape(c, s) && t in s.pcs
    ensures Shape(c, After(s, t, e)) && Ranks(c, After(s, t, e)) == Ranks(c, s) + Rank(c, t, e.pc) - Rank(c, t, s.pcs[t])
  {
    WorkerRanksUpdate(c, s.pcs, c.workerCount, t, e.pc);
  }

  lemma SpuriousCost(c: Config, s: State, onResults: bool, t: Thread)
    requires Structure(c, s) && Enabled(c, s, SpuriousWakeup(onResults, t))
    ensures var s' := Apply(c, s, SpuriousWakeup(onResults, t));
            Shape(c, s') && Measure(c, s') <= Measure(c, s) + 1
  {
    if onResults {
      WhoSleepsOnResults(c, s, t);
      WakingCosts(s.q.results, t);
    } else {
      WhoSleepsOnJobs(c, s, t);
      WakingCosts(s.q.jobs, t);
    }
  }

  lemma MoveCost(c: Config, s: State, t: Thread, ok: bool, slot: Slot<Row>, wake: Thread)
    requires Structure(c, s) && CanMove(c, s, t, slot, wake)
    ensures var s' := After(s, t, Act(c, s, t, s.pcs[t], ok, slot, wake));
            Shape(c, s') && Measure(c, s') < Measure(c, s)
  {
    var e := Act(c, s, t, s.pcs[t], ok, slot, wake);
    ActNearer(c, s, t, ok, slot, wake);
    RanksAfter(c, s, t, e);
  }

  /** Every step but a spurious wakeup brings the end nearer, and a spurious wakeup sets it back by
      one step at most. */
  lemma StepCost(c: Config, s: State, step: Step)
    requires c.Valid() && Structure(c, s) && Enabled(c, s, step)
    ensures Shape(c, Apply(c, s, step))
    ensures Measure(c, Apply(c, s, step)) <= Measure(c, s) + if step.SpuriousWakeup? then 1 else -1
  {
    match step
    case Move(t, ok, slot, wake) => MoveCost(c, s, t, ok, slot, wake);
    case ExternalStop =>
      var e := Effect(Apply(c, s, ExternalStop).pcs[Caller], s.q, s.d, s.f.(external := true));
      RanksAfter(c, s, Caller, e);
    case SpuriousWakeup(onResults, t) =>
      SpuriousCost(c, s, onResults, t);
  }

  lemma MeasureBounded(c: Config, s: State)
    requires Structure(c, s)
    ensures Measure(c, s) >= -1
  {
    SleepersAreFew(c, s);
  }

  lemma {:induction false} InitialRanks(c: Config, n: nat)
    requires n <= c.workerCount
    ensures WorkerRanks(c, Init(c).pcs, n) == 16 * n
  {
    if n > 0 {
      InitialRanks(c, n - 1);
    }
  }

  lemma InitialMeasure(c: Config)
    requires c.Valid()
    ensures Shape(c, Init(c)) && Measure(c, Init(c)) == 21 * |c.plan| + 26 * c.workerCount + 132
  {
    InitHasStructure(c);
    InitialRanks(c, c.workerCount);
  }

  function SpuriousWakeups(run: seq<Step>): nat {
    if run == [] then 0
    else SpuriousWakeups(run[..|run| - 1]) + if run[|run| - 1].SpuriousWakeup? then 1 else 0
  }

  lemma {:induction false} RunCost(c: Config, run: seq<Step>, s: State)
    requires c.Valid() && Reaches(c, run, s)
    ensures Shape(c, s) && |run| + Measure(c, s) <= 21 * |c.plan| + 26 * c.workerCount + 132 + 2 * SpuriousWakeups(run)
    decreases |run|
  {
    if run == [] {
      InitialMeasure(c);
    } else {
      var before, step := run[..|run| - 1], run[|run| - 1];
      var p :| Reaches(c, before, p) && Shape(c, p) && Enabled(c, p, step) && s == Apply(c, p, step);
      RunCost(c, before, p);
      ReachedStatesAreGood(c, before, p);
      StepCost(c, p, step);
    }
  }

  /** Termination: whatever the schedule, failures, capacities and cancellation, a run is no longer than
      a bound linear in the number of emissions and workers, but for its spurious wakeups. */
  lemma EveryRunIsBounded(c: Config, run: seq<Step>, s: State)
    requires c.Valid() && Reaches(c, run, s)
    ensures |run| <= 21 * |c.plan| + 26 * c.workerCount + 133 + 2 * SpuriousWakeups(run)
  {
    RunCost(c, run, s);
    ReachedStatesAreGood(c, run, s);
    MeasureBounded(c, s);
  }

  ghost predicate SomebodyMoves(c: Config, s: State)
    requires Shape(c, s)
  {
    exists t, slot, wake :: CanMove(c, s, t, slot, wake)
  }

  lemma UnfinishedMoves(c: Config, s: State)
    requires c.Valid() && Structure(c, s)
    ensures SomebodyMoves(c, s) <==> !Final(s.pcs[Main])
  {
    if Final(s.pcs[Main]) {
      forall t, slot, wake
        ensures !CanMove(c, s, t, slot, wake)
      {
        FinalIsStill(c, s, t, slot, wake);
      }
    } else {
      var t, slot, wake := NoDeadlock(c, s);
      assert CanMove(c, s, t, slot, wake);
    }
  }

  /** In every reachable state: either some thread can move, or the coordinating thread has published
      or marked the snapshot incomplete and every thread it started has finished. */
  lemma StuckMeansFinished(c: Config, run: seq<Step>, s: State)
    requires c.Valid() && Reaches(c, run, s)
    ensures Shape(c, s) && (SomebodyMoves(c, s) <==> !Final(s.pcs[Main]))
    ensures Final(s.pcs[Main]) ==> forall t :: t in s.pcs && t != Main && t != Caller ==> Finished(c, s, t)
  {
    ReachedStatesAreGood(c, run, s);
    UnfinishedMoves(c, s);
    if Final(s.pcs[Main]) {
      forall t | t in s.pcs && t != Main && t != Caller
        ensures Finished(c, s, t)
      {
        FinalMeansFinished(c, s, t);
      }
    }
  }
}
