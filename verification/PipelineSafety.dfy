/** What every step of the pipeline keeps. Each thread's position carries what that thread may rely
    on (`Knows`, `Waits`); `Advances` is what any other thread's step guarantees in return. */
module PipelineSafety {
  import opened Common
  import opened Queues
  import opened Pipeline

  // ----- what each position knows --------------------------------------------------------------

  /** What holds when some thread is about to perform `stage` of a shutdown. */
  predicate StageReached(q: Wires, stage: Stage) {
    match stage
    case Record(_) => true
    case RequestStop => q.error.Some?
    case CloseJobs => q.stop
    case CloseResults => q.stop && q.jobs.closed
    case CancelProgress => q.stop && q.jobs.closed && q.results.closed
  }

  /** A worker has found that no job will come. */
  predicate NoMoreJobs(q: Wires) {
    && (q.stop || q.jobs.closed)
    && (q.error.None? ==> q.jobs.closed && q.jobs.items == [])
  }

  /** The writer has found that no row will come. */
  predicate NoMoreRows(q: Wires) {
    && (q.stop || q.results.closed)
    && (q.error.None? ==> q.results.closed && q.results.items == [])
  }

  predicate Knows(c: Config, t: Thread, pc: Pc, q: Wires, d: Ledger) {
    match t
    case Scanner =>
      && (pc.Scan? || pc.OfferJob? || pc.FinishScan? || pc.Shut? || pc.Done?)
      && (pc.FinishScan? ==> d.emitted == |c.plan|)
      && (pc.Shut? ==> StageReached(q, pc.stage))
      && (pc.Done? ==> q.jobs.closed && (q.error.None? ==> d.emitted == |c.plan|))
    case Worker(_) =>
      && (pc.StartWorker? || pc.FetchJob? || pc.Busy? || pc.OfferRow? || pc.Shut? || pc.Leave? || pc.CloseLast? || pc.Done?)
      && (pc.Shut? ==> StageReached(q, pc.stage))
      && (pc.Leave? || pc.CloseLast? || pc.Done? ==> NoMoreJobs(q))
      && (pc.CloseLast? ==> q.active == 0)
    case Writer =>
      && (pc.StartWriter? || pc.FetchRow? || pc.Insert? || pc.Commit? || pc.Drained? || pc.LastCommit? || pc.Shut? || pc.Done?)
      && (pc.StartWriter? || pc.Shut? || pc.Done? ==> d.tx == [])
      && (pc.Drained? || pc.LastCommit? || pc.Done? ==> NoMoreRows(q))
      && (pc.Shut? ==> StageReached(q, pc.stage))
    case Progress => (pc.Shut? ==> StageReached(q, pc.stage)) && (pc.Report? || pc.Emit? || pc.Shut? || pc.Done?)
    case Main => (pc.Shut? ==> StageReached(q, pc.stage)) && (pc.Shut? || ScopePosition(pc) || AfterScope(pc))
    case Caller => (pc.Shut? ==> StageReached(q, pc.stage)) && (pc.Idle? || pc.Shut? || pc.Done?)
  }

  predicate IsProducer<T>(ch: Channel<T>, t: Thread) {
    t in ch.sleepingProducers || t in ch.signalledProducers
  }

  predicate IsConsumer<T>(ch: Channel<T>, t: Thread) {
    t in ch.sleepingConsumers || t in ch.signalledConsumers
  }

  /** A thread is in a wait set only while it is at the matching queue call. */
  predicate Waits(c: Config, t: Thread, pc: Pc, q: Wires) {
    && (IsProducer(q.jobs, t) ==> pc.OfferJob?)
    && (IsConsumer(q.jobs, t) ==> pc.FetchJob?)
    && (IsProducer(q.results, t) ==> pc.OfferRow? && c.resultLimits.Fits(pc.slot.bytes))
    && (IsConsumer(q.results, t) ==> pc.FetchRow?)
  }

  /** What a step of thread `t` guarantees to every other thread. */
  ghost predicate Advances(t: Thread, q: Wires, d: Ledger, q': Wires, d': Ledger) {
    && (q.error.Some? ==> q'.error == q.error)
    && (q.stop ==> q'.stop)
    && (q.jobs.closed ==> q'.jobs.closed && (q.jobs.items == [] ==> q'.jobs.items == []))
    && (q.results.closed ==> q'.results.closed && (q.results.items == [] ==> q'.results.items == []))
    && q'.active <= q.active
    && (!t.Worker? ==> q'.active == q.active)
    && d.emitted <= d'.emitted
    && (t != Writer ==> d'.tx == d.tx)
    && (forall u :: u != t ==>
          && (IsProducer(q'.jobs, u) ==> IsProducer(q.jobs, u))
          && (IsConsumer(q'.jobs, u) ==> IsConsumer(q.jobs, u))
          && (IsProducer(q'.results, u) ==> IsProducer(q.results, u))
          && (IsConsumer(q'.results, u) ==> IsConsumer(q.results, u)))
  }

  /** What holds of the shared state whatever the threads' positions. */
  ghost predicate Wired(c: Config, q: Wires, d: Ledger, f: Flags) {
    && NoLostWakeup(c.JobLimits(), q.jobs, q.stop)
    && NoLostWakeup(c.resultLimits, q.results, q.stop)
    && (q.stop ==> q.error.Some?)
    && (f.cancelled ==> q.error.Some?)
    && d.emitted <= |c.plan|
    && (f.asleep ==> !f.dirty && !f.finished && !f.cancelled)
  }

  // ----- one thread's step ---------------------------------------------------------------------

  ghost predicate GoodStep(c: Config, s: State, t: Thread, e: Effect) {
    && Advances(t, s.q, s.d, e.q, e.d)
    && Knows(c, t, e.pc, e.q, e.d)
    && Waits(c, t, e.pc, e.q)
    && Wired(c, e.q, e.d, e.f)
    && Closes(s, t, e)
  }

  /** Without an error, only the scanner's normal end closes the jobs and only the last worker's
      closes the results. */
  ghost predicate Closes(s: State, t: Thread, e: Effect) {
    && (e.q.jobs.closed && !s.q.jobs.closed && e.q.error.None? ==> t == Scanner && e.pc == Done)
    && (e.q.results.closed && !s.q.results.closed && e.q.error.None? ==> e.q.active == 0)
  }

  ghost predicate Ready(c: Config, s: State, t: Thread, pc: Pc) {
    && c.Valid() && Wired(c, s.q, s.d, s.f) && Knows(c, t, pc, s.q, s.d) && Waits(c, t, pc, s.q)
  }

  lemma ShutAdvances(c: Config, s: State, t: Thread, stage: Stage)
    ensures Advances(t, s.q, s.d, ShutAct(s, t, stage).q, ShutAct(s, t, stage).d)
  {
  }

  lemma ShutWired(c: Config, s: State, t: Thread, stage: Stage)
    requires c.Valid() && Wired(c, s.q, s.d, s.f) && StageReached(s.q, stage)
    ensures Wired(c, ShutAct(s, t, stage).q, ShutAct(s, t, stage).d, ShutAct(s, t, stage).f)
  {
    CloseKeepsWakeups(c.JobLimits(), s.q.jobs, s.q.stop);
    CloseKeepsWakeups(c.resultLimits, s.q.results, s.q.stop);
  }

  lemma ShutStep(c: Config, s: State, t: Thread, stage: Stage)
    requires Ready(c, s, t, Shut(stage))
    ensures GoodStep(c, s, t, ShutAct(s, t, stage))
  {
    ShutAdvances(c, s, t, stage);
    ShutWired(c, s, t, stage);
  }

  lemma OfferJobAdvances(c: Config, s: State, job: Job, wake: Thread)
    requires Scanner !in s.q.jobs.sleepingProducers && LegalWake(s.q.jobs.sleepingConsumers, wake)
    ensures Advances(Scanner, s.q, s.d, OfferJobAct(c, s, job, wake).q, OfferJobAct(c, s, job, wake).d)
  {
  }

  lemma OfferJobWired(c: Config, s: State, job: Job, wake: Thread)
    requires c.Valid() && Wired(c, s.q, s.d, s.f) && Waits(c, Scanner, OfferJob(job), s.q)
    requires Scanner !in s.q.jobs.sleepingProducers && LegalWake(s.q.jobs.sleepingConsumers, wake)
    ensures Wired(c, OfferJobAct(c, s, job, wake).q, OfferJobAct(c, s, job, wake).d, OfferJobAct(c, s, job, wake).f)
  {
    PushKeepsWakeups(c.JobLimits(), s.q.jobs, Scanner, Slot(0, job), s.q.stop, wake);
  }

  lemma OfferJobStep(c: Config, s: State, job: Job, wake: Thread)
    requires Ready(c, s, Scanner, OfferJob(job))
    requires Scanner !in s.q.jobs.sleepingProducers && LegalWake(s.q.jobs.sleepingConsumers, wake)
    ensures GoodStep(c, s, Scanner, OfferJobAct(c, s, job, wake))
  {
    OfferJobAdvances(c, s, job, wake);
    OfferJobWired(c, s, job, wake);
  }

  lemma ScannerStep(c: Config, s: State, pc: Pc, ok: bool, wake: Thread)
    requires Ready(c, s, Scanner, pc) && !pc.OfferJob? && !pc.Shut? && !pc.Done?
    ensures GoodStep(c, s, Scanner, ScannerAct(c, s, pc, ok, wake))
  {
    CloseKeepsWakeups(c.JobLimits(), s.q.jobs, s.q.stop);
  }

  lemma FetchJobAdvances(c: Config, s: State, t: Thread, wake: Thread)
    requires t !in s.q.jobs.sleepingConsumers && LegalWake(s.q.jobs.sleepingProducers, wake)
    ensures Advances(t, s.q, s.d, FetchJobAct(s, t, wake).q, FetchJobAct(s, t, wake).d)
  {
  }

  lemma FetchJobWired(c: Config, s: State, t: Thread, wake: Thread)
    requires c.Valid() && Wired(c, s.q, s.d, s.f) && Waits(c, t, FetchJob, s.q)
    requires t !in s.q.jobs.sleepingConsumers && LegalWake(s.q.jobs.sleepingProducers, wake)
    ensures Wired(c, FetchJobAct(s, t, wake).q, FetchJobAct(s, t, wake).d, FetchJobAct(s, t, wake).f)
  {
    PopKeepsWakeups(c.JobLimits(), s.q.jobs, t, s.q.stop, wake);
  }

  lemma FetchJobStep(c: Config, s: State, t: Thread, wake: Thread)
    requires t.Worker? && Ready(c, s, t, FetchJob)
    requires t !in s.q.jobs.sleepingConsumers && LegalWake(s.q.jobs.sleepingProducers, wake)
    ensures GoodStep(c, s, t, FetchJobAct(s, t, wake))
  {
    FetchJobAdvances(c, s, t, wake);
    FetchJobWired(c, s, t, wake);
  }

  lemma OfferRowAdvances(c: Config, s: State, t: Thread, slot: Slot<Row>, wake: Thread)
    requires t !in s.q.results.sleepingProducers && LegalWake(s.q.results.sleepingConsumers, wake)
    ensures Advances(t, s.q, s.d, OfferRowAct(c, s, t, slot, wake).q, OfferRowAct(c, s, t, slot, wake).d)
  {
  }

  lemma OfferRowWired(c: Config, s: State, t: Thread, slot: Slot<Row>, wake: Thread)
    requires c.Valid() && Wired(c, s.q, s.d, s.f) && Waits(c, t, OfferRow(slot), s.q)
    requires t !in s.q.results.sleepingProducers && LegalWake(s.q.results.sleepingConsumers, wake)
    ensures Wired(c, OfferRowAct(c, s, t, slot, wake).q, OfferRowAct(c, s, t, slot, wake).d, OfferRowAct(c, s, t, slot, wake).f)
  {
    PushKeepsWakeups(c.resultLimits, s.q.results, t, slot, s.q.stop, wake);
  }

  lemma OfferRowStep(c: Config, s: State, t: Thread, slot: Slot<Row>, wake: Thread)
    requires t.Worker? && Ready(c, s, t, OfferRow(slot))
    requires t !in s.q.results.sleepingProducers && LegalWake(s.q.results.sleepingConsumers, wake)
    ensures GoodStep(c, s, t, OfferRowAct(c, s, t, slot, wake))
  {
    OfferRowAdvances(c, s, t, slot, wake);
    OfferRowWired(c, s, t, slot, wake);
  }

  lemma WorkerStep(c: Config, s: State, t: Thread, pc: Pc, ok: bool, slot: Slot<Row>, wake: Thread)
    requires t.Worker? && Ready(c, s, t, pc) && !pc.FetchJob? && !pc.OfferRow? && !pc.Shut? && !pc.Done?
    ensures GoodStep(c, s, t, WorkerAct(c, s, t, pc, ok, slot, wake))
  {
    CloseKeepsWakeups(c.resultLimits, s.q.results, s.q.stop);
  }

  lemma FetchRowAdvances(c: Config, s: State, wake: Thread)
    requires Writer !in s.q.results.sleepingConsumers && LegalWake(s.q.results.sleepingProducers, wake)
    ensures Advances(Writer, s.q, s.d, FetchRowAct(s, wake).q, FetchRowAct(s, wake).d)
  {
  }

  lemma FetchRowWired(c: Config, s: State, wake: Thread)
    requires c.Valid() && Wired(c, s.q, s.d, s.f) && Waits(c, Writer, FetchRow, s.q)
    requires Writer !in s.q.results.sleepingConsumers && LegalWake(s.q.results.sleepingProducers, wake)
    ensures Wired(c, FetchRowAct(s, wake).q, FetchRowAct(s, wake).d, FetchRowAct(s, wake).f)
  {
    PopKeepsWakeups(c.resultLimits, s.q.results, Writer, s.q.stop, wake);
  }

  lemma FetchRowStep(c: Config, s: State, wake: Thread)
    requires Ready(c, s, Writer, FetchRow)
    requires Writer !in s.q.results.sleepingConsumers && LegalWake(s.q.results.sleepingProducers, wake)
    ensures GoodStep(c, s, Writer, FetchRowAct(s, wake))
  {
    FetchRowAdvances(c, s, wake);
    FetchRowWired(c, s, wake);
  }

  lemma WriterStep(c: Config, s: State, pc: Pc, ok: bool, wake: Thread)
    requires Ready(c, s, Writer, pc) && !pc.FetchRow? && !pc.Shut? && !pc.Done?
    ensures GoodStep(c, s, Writer, WriterAct(c, s, pc, ok, wake))
  {
  }

  lemma ProgressStep(c: Config, s: State, pc: Pc, ok: bool)
    requires Ready(c, s, Progress, pc) && !pc.Shut?
    ensures GoodStep(c, s, Progress, ProgressAct(s, pc, ok))
  {
  }

  predicate ScopePosition(pc: Pc) {
    pc.MRegister? || pc.MGuard? || pc.MSpawn? || pc.MJoin? || pc.MFinish? || pc.MJoinProgress? || pc.MUnregister?
  }

  /** The coordinating thread touches neither the queues nor the rows outside a shutdown. */
  predicate MainFrame(s: State, e: Effect) {
    && e.q == s.q && e.d == s.d
    && e.f.cancelled == s.f.cancelled && e.f.dirty == s.f.dirty && e.f.external == s.f.external
    && (e.f.asleep ==> s.f.asleep && e.f.finished == s.f.finished)
    && (ScopePosition(e.pc) || AfterScope(e.pc) || (e.pc.Shut? && e.pc.stage.Record?))
  }

  lemma ScopeFrame(c: Config, s: State, pc: Pc, ok: bool)
    requires ScopePosition(pc)
    ensures MainFrame(s, ScopeAct(c, s, pc, ok))
  {
  }

  lemma PublishFrame(s: State, pc: Pc, ok: bool)
    requires AfterScope(pc)
    ensures MainFrame(s, PublishAct(s, pc, ok))
  {
  }

  lemma MainStep(c: Config, s: State, pc: Pc, ok: bool)
    requires Ready(c, s, Main, pc) && !pc.Shut?
    ensures GoodStep(c, s, Main, MainAct(c, s, pc, ok))
  {
    if AfterScope(pc) {
      PublishFrame(s, pc, ok);
    } else {
      ScopeFrame(c, s, pc, ok);
    }
    var e := MainAct(c, s, pc, ok);
    assert MainFrame(s, e);
  }

  lemma WorkerActStep(c: Config, s: State, t: Thread, ok: bool, slot: Slot<Row>, wake: Thread)
    requires Shape(c, s) && CanMove(c, s, t, slot, wake) && Ready(c, s, t, s.pcs[t])
    requires t.Worker? && !s.pcs[t].Shut?
    ensures GoodStep(c, s, t, WorkerAct(c, s, t, s.pcs[t], ok, slot, wake))
  {
    var pc := s.pcs[t];
    if pc.FetchJob? {
      FetchJobStep(c, s, t, wake);
    } else if pc.OfferRow? {
      OfferRowStep(c, s, t, pc.slot, wake);
    } else {
      WorkerStep(c, s, t, pc, ok, slot, wake);
    }
  }

  lemma ScannerActStep(c: Config, s: State, ok: bool, slot: Slot<Row>, wake: Thread)
    requires Shape(c, s) && CanMove(c, s, Scanner, slot, wake) && Ready(c, s, Scanner, s.pcs[Scanner])
    requires !s.pcs[Scanner].Shut?
    ensures GoodStep(c, s, Scanner, ScannerAct(c, s, s.pcs[Scanner], ok, wake))
  {
    var pc := s.pcs[Scanner];
    if pc.OfferJob? {
      OfferJobStep(c, s, pc.job, wake);
    } else {
      ScannerStep(c, s, pc, ok, wake);
    }
  }

  lemma WriterActStep(c: Config, s: State, ok: bool, slot: Slot<Row>, wake: Thread)
    requires Shape(c, s) && CanMove(c, s, Writer, slot, wake) && Ready(c, s, Writer, s.pcs[Writer])
    requires !s.pcs[Writer].Shut?
    ensures GoodStep(c, s, Writer, WriterAct(c, s, s.pcs[Writer], ok, wake))
  {
    var pc := s.pcs[Writer];
    if pc.FetchRow? {
      FetchRowStep(c, s, wake);
    } else {
      WriterStep(c, s, pc, ok, wake);
    }
  }

  lemma OwnActStep(c: Config, s: State, t: Thread, ok: bool, slot: Slot<Row>, wake: Thread)
    requires Shape(c, s) && CanMove(c, s, t, slot, wake) && Ready(c, s, t, s.pcs[t]) && !s.pcs[t].Shut?
    ensures GoodStep(c, s, t, OwnAct(c, s, t, s.pcs[t], ok, slot, wake))
  {
    match t
    case Scanner => ScannerActStep(c, s, ok, slot, wake);
    case Worker(_) => WorkerActStep(c, s, t, ok, slot, wake);
    case Writer => WriterActStep(c, s, ok, slot, wake);
    case Progress => ProgressStep(c, s, s.pcs[t], ok);
    case Main => MainStep(c, s, s.pcs[t], ok);
    case Caller =>
  }

  /** Every step a thread can take is a good one. */
  lemma ActStep(c: Config, s: State, t: Thread, ok: bool, slot: Slot<Row>, wake: Thread)
    requires Shape(c, s) && CanMove(c, s, t, slot, wake) && Ready(c, s, t, s.pcs[t])
    ensures GoodStep(c, s, t, Act(c, s, t, s.pcs[t], ok, slot, wake))
  {
    if s.pcs[t].Shut? {
      ShutStep(c, s, t, s.pcs[t].stage);
    } else {
      OwnActStep(c, s, t, ok, slot, wake);
    }
  }

  // ----- the invariant over all threads --------------------------------------------------------

  ghost predicate Locals(c: Config, s: State) {
    forall u :: u in s.pcs ==> Knows(c, u, s.pcs[u], s.q, s.d) && Waits(c, u, s.pcs[u], s.q)
  }

  ghost predicate Closed(c: Config, s: State)
    requires Shape(c, s)
  {
    && (s.q.jobs.closed && s.q.error.None? ==> s.pcs[Scanner] == Done)
    && (s.q.results.closed && s.q.error.None? ==> s.q.active == 0)
    && (forall u :: IsProducer(s.q.jobs, u) || IsConsumer(s.q.jobs, u) ==> u in s.pcs)
    && (forall u :: IsProducer(s.q.results, u) || IsConsumer(s.q.results, u) ==> u in s.pcs)
  }

  /** What a thread knows and where it waits survives every other thread's step. */
  lemma OthersKept(c: Config, u: Thread, t: Thread, pc: Pc, q: Wires, d: Ledger, q': Wires, d': Ledger)
    requires u != t && Advances(t, q, d, q', d') && d'.emitted <= |c.plan|
    requires Knows(c, u, pc, q, d) && Waits(c, u, pc, q)
    ensures Knows(c, u, pc, q', d') && Waits(c, u, pc, q')
  {
  }

  lemma LocalsKept(c: Config, s: State, t: Thread, e: Effect)
    requires Shape(c, s) && Locals(c, s) && t in s.pcs && GoodStep(c, s, t, e)
    ensures Locals(c, After(s, t, e))
  {
    var s' := After(s, t, e);
    forall u | u in s'.pcs
      ensures Knows(c, u, s'.pcs[u], s'.q, s'.d) && Waits(c, u, s'.pcs[u], s'.q)
    {
      if u != t {
        OthersKept(c, u, t, s.pcs[u], s.q, s.d, e.q, e.d);
      }
    }
  }

  lemma ClosedKept(c: Config, s: State, t: Thread, e: Effect)
    requires Shape(c, s) && Closed(c, s) && t in s.pcs && GoodStep(c, s, t, e)
    requires t == Caller || s.pcs[t] != Done
    ensures Shape(c, After(s, t, e)) && Closed(c, After(s, t, e))
  {
    var s' := After(s, t, e);
    forall u | IsProducer(s'.q.jobs, u) || IsConsumer(s'.q.jobs, u) || IsProducer(s'.q.results, u) || IsConsumer(s'.q.results, u)
      ensures u in s'.pcs
    {
    }
  }

  // ----- counting the workers ------------------------------------------------------------------

  predicate Counts(pc: Pc) {
    !pc.CloseLast? && !pc.Done?
  }

  /** How many of the first `n` workers have still to decrement the count of active workers. */
  ghost function Counting(pcs: map<Thread, Pc>, n: nat): nat
    requires forall i: nat :: i < n ==> Worker(i) in pcs
  {
    if n == 0 then 0 else Counting(pcs, n - 1) + (if Counts(pcs[Worker(n - 1)]) then 1 else 0)
  }

  lemma {:induction false} CountingUpdate(pcs: map<Thread, Pc>, n: nat, t: Thread, pc: Pc)
    requires t in pcs && forall i: nat :: i < n ==> Worker(i) in pcs
    ensures Counting(pcs[t := pc], n) == Counting(pcs, n) +
            if t.Worker? && t.index < n then (if Counts(pc) then 1 else 0) - (if Counts(pcs[t]) then 1 else 0) else 0
    ensures t.Worker? && t.index < n && Counts(pcs[t]) ==> Counting(pcs, n) >= 1
  {
    if n > 0 {
      CountingUpdate(pcs, n - 1, t, pc);
    }
  }

  ghost predicate Active(c: Config, s: State)
    requires Shape(c, s)
  {
    && s.q.active == Counting(s.pcs, c.workerCount)
    && (s.q.active == 0 ==> s.q.results.closed || exists i: nat :: i < c.workerCount && s.pcs[Worker(i)].CloseLast?)
  }

  /** How a worker's step changes the count, and who closes the results. */
  ghost predicate Counted(s: State, pc: Pc, e: Effect) {
    && (pc.Leave? ==> e.q.active == s.q.active - 1 && e.pc == if s.q.active == 1 then CloseLast else Done)
    && (!pc.Leave? ==> e.q.active == s.q.active)
    && (!pc.Leave? && !pc.CloseLast? ==> Counts(e.pc))
    && (pc.CloseLast? ==> e.pc == Done && e.q.results.closed)
  }

  lemma WorkerCounted(c: Config, s: State, t: Thread, pc: Pc, ok: bool, slot: Slot<Row>, wake: Thread)
    requires t.Worker? && Knows(c, t, pc, s.q, s.d) && !pc.Done?
    requires pc.Leave? ==> s.q.active >= 1
    ensures Counted(s, pc, Act(c, s, t, pc, ok, slot, wake))
  {
    if pc.Shut? {
      match pc.stage {
        case Record(_) =>
        case RequestStop =>
        case CloseJobs =>
        case CloseResults =>
        case CancelProgress =>
      }
    } else {
      match pc
      case StartWorker =>
      case FetchJob =>
      case Busy(_) =>
      case OfferRow(_) =>
      case Leave =>
      case CloseLast =>
    }
  }

  lemma ActiveKept(c: Config, s: State, t: Thread, e: Effect)
    requires Shape(c, s) && Active(c, s) && t in s.pcs && Advances(t, s.q, s.d, e.q, e.d)
    requires t.Worker? ==> s.pcs[t] != Done && Counted(s, s.pcs[t], e)
    ensures Shape(c, After(s, t, e)) && Active(c, After(s, t, e))
  {
    var s' := After(s, t, e);
    CountingUpdate(s.pcs, c.workerCount, t, e.pc);
    if e.q.active == 0 && !e.q.results.closed {
      if s.q.active == 0 {
        var i: nat :| i < c.workerCount && s.pcs[Worker(i)].CloseLast?;
        assert s'.pcs[Worker(i)].CloseLast?;
      } else {
        assert s'.pcs[Worker(t.index)].CloseLast?;
      }
    }
  }

  // ----- the coordinating thread ---------------------------------------------------------------

  predicate Spawning(pc: Pc) {
    pc.MRegister? || pc.MGuard? || pc.MSpawn? || pc.Shut?
  }

  /** The first `n` threads to be joined are finished. */
  ghost predicate JoinedUpTo(c: Config, s: State, n: nat)
    requires Shape(c, s) && n <= c.workerCount + 2
  {
    forall k: nat :: k < n ==> Finished(c, s, ThreadToJoin(c, k))
  }

  ghost predicate Coordination(c: Config, s: State)
    requires Shape(c, s)
  {
    var pc := s.pcs[Main];
    && s.f.started <= c.workerCount + 3
    && (pc.MRegister? || pc.MGuard? ==> s.f.started == 0)
    && (pc.MSpawn? ==> s.f.started <= c.workerCount + 2)
    && (!Spawning(pc) ==> s.f.started == c.workerCount + 3 || s.q.stop)
    && (forall u :: u in s.pcs && !Started(c, s.f, u) ==> s.pcs[u] == InitialPc(u))
    && (pc.MJoin? ==> pc.next <= c.workerCount + 1 && JoinedUpTo(c, s, pc.next))
    && (pc.MFinish? || pc.MJoinProgress? || pc.MUnregister? || AfterScope(pc) ==> JoinedUpTo(c, s, c.workerCount + 2))
    && (pc.MJoinProgress? || pc.MUnregister? || AfterScope(pc) ==> s.f.finished)
    && (pc.MUnregister? || AfterScope(pc) ==> Finished(c, s, Progress))
    && (AfterScope(pc) ==> !s.pcs[Caller].Shut?)
    && (Publishing(pc) ==> s.q.error.None?)
    && (s.f.status == Complete <==> pc.MComplete?)
    && (!s.f.external ==> s.pcs[Caller] == Idle)
  }

  lemma JoinOrder(c: Config, t: Thread) returns (k: nat)
    requires IsThread(c, t) && (t == Scanner || t.Worker? || t == Writer)
    ensures k < c.workerCount + 2 && ThreadToJoin(c, k) == t
  {
    k := if t == Scanner then 0 else if t.Worker? then t.index + 1 else c.workerCount + 1;
  }

  /** Once the scope is closed, only the coordinating thread can move. */
  lemma AloneAfterScope(c: Config, s: State, t: Thread, slot: Slot<Row>, wake: Thread)
    requires Shape(c, s) && Coordination(c, s) && Locals(c, s) && AfterScope(s.pcs[Main]) && t != Main
    ensures !CanMove(c, s, t, slot, wake)
  {
    if IsThread(c, t) {
      assert Knows(c, t, s.pcs[t], s.q, s.d);
      if t == Scanner || t.Worker? || t == Writer {
        var k := JoinOrder(c, t);
        assert Finished(c, s, ThreadToJoin(c, k));
      }
    }
  }

  lemma JoinedKept(c: Config, s: State, pc: Pc, f: Flags, n: nat)
    requires Shape(c, s) && n <= c.workerCount + 2 && f.started == s.f.started && JoinedUpTo(c, s, n)
    ensures Shape(c, s.(pcs := s.pcs[Main := pc], f := f)) && JoinedUpTo(c, s.(pcs := s.pcs[Main := pc], f := f), n)
  {
    forall k: nat | k < n
      ensures Finished(c, s.(pcs := s.pcs[Main := pc], f := f), ThreadToJoin(c, k))
    {
      assert Finished(c, s, ThreadToJoin(c, k));
    }
  }

  lemma PublishCoordinates(c: Config, s: State, pc: Pc, ok: bool)
    requires Shape(c, s) && Coordination(c, s) && pc == s.pcs[Main] && AfterScope(pc)
    ensures Shape(c, After(s, Main, PublishAct(s, pc, ok))) && Coordination(c, After(s, Main, PublishAct(s, pc, ok)))
  {
    var e := PublishAct(s, pc, ok);
    PublishFrame(s, pc, ok);
    JoinedKept(c, s, e.pc, e.f, c.workerCount + 2);
  }

  lemma SpawnFails(c: Config, s: State)
    requires Shape(c, s) && Coordination(c, s) && s.pcs[Main] == MSpawn
    ensures Shape(c, After(s, Main, ScopeAct(c, s, MSpawn, false))) && Coordination(c, After(s, Main, ScopeAct(c, s, MSpawn, false)))
  {
  }

  lemma SpawnSucceeds(c: Config, s: State)
    requires Shape(c, s) && Coordination(c, s) && s.pcs[Main] == MSpawn
    ensures Shape(c, After(s, Main, ScopeAct(c, s, MSpawn, true))) && Coordination(c, After(s, Main, ScopeAct(c, s, MSpawn, true)))
  {
  }

  lemma SpawnCoordinates(c: Config, s: State, ok: bool)
    requires Shape(c, s) && Coordination(c, s) && s.pcs[Main] == MSpawn
    ensures Shape(c, After(s, Main, ScopeAct(c, s, MSpawn, ok))) && Coordination(c, After(s, Main, ScopeAct(c, s, MSpawn, ok)))
  {
    if ok {
      SpawnSucceeds(c, s);
    } else {
      SpawnFails(c, s);
    }
  }

  lemma JoinCoordinates(c: Config, s: State, next: nat, ok: bool)
    requires Shape(c, s) && Coordination(c, s) && s.pcs[Main] == MJoin(next) && MainEnabled(c, s, MJoin(next))
    ensures Shape(c, After(s, Main, ScopeAct(c, s, MJoin(next), ok)))
    ensures Coordination(c, After(s, Main, ScopeAct(c, s, MJoin(next), ok)))
  {
    JoinedKept(c, s, ScopeAct(c, s, MJoin(next), ok).pc, s.f, next);
  }

  lemma ClosingCoordinates(c: Config, s: State, pc: Pc, ok: bool)
    requires Shape(c, s) && Coordination(c, s) && pc == s.pcs[Main] && (pc.MFinish? || pc.MJoinProgress? || pc.MUnregister?)
    requires MainEnabled(c, s, pc)
    ensures Shape(c, After(s, Main, ScopeAct(c, s, pc, ok))) && Coordination(c, After(s, Main, ScopeAct(c, s, pc, ok)))
  {
    var e := ScopeAct(c, s, pc, ok);
    JoinedKept(c, s, e.pc, e.f, c.workerCount + 2);
  }

  lemma OpeningCoordinates(c: Config, s: State, pc: Pc, ok: bool)
    requires Shape(c, s) && Coordination(c, s) && pc == s.pcs[Main] && (pc.MRegister? || pc.MGuard?)
    ensures Shape(c, After(s, Main, ScopeAct(c, s, pc, ok))) && Coordination(c, After(s, Main, ScopeAct(c, s, pc, ok)))
  {
  }

  lemma ScopeCoordinates(c: Config, s: State, pc: Pc, ok: bool)
    requires Shape(c, s) && Coordination(c, s) && pc == s.pcs[Main] && ScopePosition(pc) && MainEnabled(c, s, pc)
    ensures Shape(c, After(s, Main, ScopeAct(c, s, pc, ok))) && Coordination(c, After(s, Main, ScopeAct(c, s, pc, ok)))
  {
    if pc.MJoin? {
      JoinCoordinates(c, s, pc.next, ok);
    } else if pc.MSpawn? {
      SpawnCoordinates(c, s, ok);
    } else if pc.MRegister? || pc.MGuard? {
      OpeningCoordinates(c, s, pc, ok);
    } else {
      ClosingCoordinates(c, s, pc, ok);
    }
  }

  /** Another thread's step, or a shutdown stage of the coordinating thread itself. */
  lemma OthersCoordinate(c: Config, s: State, t: Thread, e: Effect)
    requires Shape(c, s) && Coordination(c, s) && IsThread(c, t) && Started(c, s.f, t) && s.pcs[t] != Done
    requires AfterScope(s.pcs[Main]) ==> false
    requires Advances(t, s.q, s.d, e.q, e.d)
    requires e.f.started == s.f.started && e.f.finished == s.f.finished && e.f.status == s.f.status
    requires e.f.external == s.f.external
    requires t == Main ==> s.pcs[t].Shut? && (e.pc.Shut? || (e.pc == MJoin(0) && e.q.stop))
    requires t == Caller ==> s.pcs[t].Shut?
    ensures var s' := After(s, t, e);
            Shape(c, s') && Coordination(c, s')
  {
    var s' := After(s, t, e);
    assert forall u :: u in s.pcs && Finished(c, s, u) && u != t ==> Finished(c, s', u);
    forall k: nat | k < c.workerCount + 2 && Finished(c, s, ThreadToJoin(c, k))
      ensures Finished(c, s', ThreadToJoin(c, k))
    {
    }
  }

  /** Nobody but the coordinating thread, outside a shutdown, touches the flags it owns. */
  predicate FlagsOwned(s: State, t: Thread, e: Effect) {
    && e.f.started == s.f.started && e.f.finished == s.f.finished && e.f.status == s.f.status
    && e.f.external == s.f.external
    && (t == Main ==> e.pc.Shut? || e.pc == MJoin(0))
  }

  lemma ShutFlags(s: State, t: Thread, stage: Stage)
    ensures FlagsOwned(s, t, ShutAct(s, t, stage))
  {
  }

  lemma WorkerFlags(c: Config, s: State, t: Thread, pc: Pc, ok: bool, slot: Slot<Row>, wake: Thread)
    requires t.Worker?
    ensures FlagsOwned(s, t, WorkerAct(c, s, t, pc, ok, slot, wake))
  {
  }

  lemma ScannerFlags(c: Config, s: State, pc: Pc, ok: bool, wake: Thread)
    ensures FlagsOwned(s, Scanner, ScannerAct(c, s, pc, ok, wake))
  {
  }

  lemma WriterFlags(c: Config, s: State, pc: Pc, ok: bool, wake: Thread)
    ensures FlagsOwned(s, Writer, WriterAct(c, s, pc, ok, wake))
  {
  }

  lemma OwnFlags(c: Config, s: State, t: Thread, pc: Pc, ok: bool, slot: Slot<Row>, wake: Thread)
    requires t != Main
    ensures FlagsOwned(s, t, OwnAct(c, s, t, pc, ok, slot, wake))
  {
    match t
    case Scanner => ScannerFlags(c, s, pc, ok, wake);
    case Worker(_) => WorkerFlags(c, s, t, pc, ok, slot, wake);
    case Writer => WriterFlags(c, s, pc, ok, wake);
    case _ =>
  }

  // ----- the whole structure -------------------------------------------------------------------

  ghost predicate Structure(c: Config, s: State) {
    && Shape(c, s) && Locals(c, s) && Wired(c, s.q, s.d, s.f) && Closed(c, s) && Active(c, s) && Coordination(c, s)
  }

  lemma MoveCoordinates(c: Config, s: State, t: Thread, ok: bool, slot: Slot<Row>, wake: Thread)
    requires c.Valid() && Structure(c, s) && CanMove(c, s, t, slot, wake)
    requires GoodStep(c, s, t, Act(c, s, t, s.pcs[t], ok, slot, wake))
    ensures Shape(c, After(s, t, Act(c, s, t, s.pcs[t], ok, slot, wake)))
    ensures Coordination(c, After(s, t, Act(c, s, t, s.pcs[t], ok, slot, wake)))
  {
    var pc := s.pcs[t];
    var e := Act(c, s, t, pc, ok, slot, wake);
    assert Knows(c, t, pc, s.q, s.d);
    if t == Main && !pc.Shut? {
      if AfterScope(pc) {
        PublishCoordinates(c, s, pc, ok);
      } else {
        ScopeCoordinates(c, s, pc, ok);
      }
    } else {
      if pc.Shut? {
        ShutFlags(s, t, pc.stage);
      } else {
        OwnFlags(c, s, t, pc, ok, slot, wake);
      }
      if AfterScope(s.pcs[Main]) && t != Main {
        AloneAfterScope(c, s, t, slot, wake);
      }
      OthersCoordinate(c, s, t, e);
    }
  }

  lemma MoveActive(c: Config, s: State, t: Thread, ok: bool, slot: Slot<Row>, wake: Thread)
    requires c.Valid() && Structure(c, s) && CanMove(c, s, t, slot, wake)
    requires GoodStep(c, s, t, Act(c, s, t, s.pcs[t], ok, slot, wake))
    ensures Shape(c, After(s, t, Act(c, s, t, s.pcs[t], ok, slot, wake)))
    ensures Active(c, After(s, t, Act(c, s, t, s.pcs[t], ok, slot, wake)))
  {
    var pc := s.pcs[t];
    if t.Worker? {
      CountingUpdate(s.pcs, c.workerCount, t, pc);
      WorkerCounted(c, s, t, pc, ok, slot, wake);
    }
    ActiveKept(c, s, t, Act(c, s, t, pc, ok, slot, wake));
  }

  lemma MoveKeepsStructure(c: Config, s: State, t: Thread, ok: bool, slot: Slot<Row>, wake: Thread)
    requires c.Valid() && Structure(c, s) && CanMove(c, s, t, slot, wake)
    ensures Structure(c, After(s, t, Act(c, s, t, s.pcs[t], ok, slot, wake)))
  {
    var e := Act(c, s, t, s.pcs[t], ok, slot, wake);
    ActStep(c, s, t, ok, slot, wake);
    LocalsKept(c, s, t, e);
    ClosedKept(c, s, t, e);
    MoveActive(c, s, t, ok, slot, wake);
    MoveCoordinates(c, s, t, ok, slot, wake);
  }

  lemma ExternalCoordinates(c: Config, s: State)
    requires Shape(c, s) && Coordination(c, s) && !s.f.external
    ensures Shape(c, Apply(c, s, ExternalStop)) && Coordination(c, Apply(c, s, ExternalStop))
  {
    var s' := Apply(c, s, ExternalStop);
    forall k: nat | k < c.workerCount + 2 && Finished(c, s, ThreadToJoin(c, k))
      ensures Finished(c, s', ThreadToJoin(c, k))
    {
    }
  }

  /** A cancellation request is a step of the caller's thread. */
  lemma ExternalKeepsStructure(c: Config, s: State)
    requires c.Valid() && Structure(c, s) && !s.f.external
    ensures Structure(c, Apply(c, s, ExternalStop))
  {
    var s' := Apply(c, s, ExternalStop);
    var e := Effect(s'.pcs[Caller], s.q, s.d, s'.f);
    assert Waits(c, Caller, s.pcs[Caller], s.q) && Knows(c, Caller, s.pcs[Caller], s.q, s.d);
    assert GoodStep(c, s, Caller, e);
    LocalsKept(c, s, Caller, e);
    ClosedKept(c, s, Caller, e);
    ActiveKept(c, s, Caller, e);
    ExternalCoordinates(c, s);
  }

  lemma SpuriousIsGood<T>(limits: Limits, ch: Channel<T>, stop: bool, t: Thread)
    requires NoLostWakeup(limits, ch, stop) && ch.Sleeps(t)
    ensures var ch' := ch.NotifyConsumer(t).NotifyProducer(t);
            && NoLostWakeup(limits, ch', stop) && ch'.items == ch.items && ch'.closed == ch.closed
            && forall u :: (IsProducer(ch', u) <==> IsProducer(ch, u)) && (IsConsumer(ch', u) <==> IsConsumer(ch, u))
  {
    AddMember(ch.signalledConsumers, t);
  }

  /** A spurious wakeup is a step in which the sleeper moves from asleep to signalled. */
  lemma SpuriousKeepsStructure(c: Config, s: State, onResults: bool, t: Thread)
    requires c.Valid() && Structure(c, s) && Enabled(c, s, SpuriousWakeup(onResults, t))
    ensures Structure(c, Apply(c, s, SpuriousWakeup(onResults, t)))
  {
    var s' := Apply(c, s, SpuriousWakeup(onResults, t));
    if onResults {
      SpuriousIsGood(c.resultLimits, s.q.results, s.q.stop, t);
    } else {
      SpuriousIsGood(c.JobLimits(), s.q.jobs, s.q.stop, t);
    }
    SameQueues(c, s, s'.q);
  }

  /** Replacing the wires by others with the same items, flags and waiters keeps everything. */
  lemma SameQueues(c: Config, s: State, q: Wires)
    requires Structure(c, s) && Wired(c, q, s.d, s.f)
    requires q.stop == s.q.stop && q.error == s.q.error && q.active == s.q.active
    requires q.jobs.items == s.q.jobs.items && q.jobs.closed == s.q.jobs.closed
    requires q.results.items == s.q.results.items && q.results.closed == s.q.results.closed
    requires forall u :: (IsProducer(q.jobs, u) <==> IsProducer(s.q.jobs, u)) && (IsConsumer(q.jobs, u) <==> IsConsumer(s.q.jobs, u))
    requires forall u :: (IsProducer(q.results, u) <==> IsProducer(s.q.results, u)) && (IsConsumer(q.results, u) <==> IsConsumer(s.q.results, u))
    ensures Structure(c, s.(q := q))
  {
    SameLocals(c, s, q);
    SameCoordination(c, s, q);
  }

  lemma SameLocals(c: Config, s: State, q: Wires)
    requires Shape(c, s) && Locals(c, s)
    requires q.stop == s.q.stop && q.error == s.q.error && q.active == s.q.active
    requires q.jobs.items == s.q.jobs.items && q.jobs.closed == s.q.jobs.closed
    requires q.results.items == s.q.results.items && q.results.closed == s.q.results.closed
    requires forall u :: (IsProducer(q.jobs, u) <==> IsProducer(s.q.jobs, u)) && (IsConsumer(q.jobs, u) <==> IsConsumer(s.q.jobs, u))
    requires forall u :: (IsProducer(q.results, u) <==> IsProducer(s.q.results, u)) && (IsConsumer(q.results, u) <==> IsConsumer(s.q.results, u))
    ensures Locals(c, s.(q := q))
  {
    forall u | u in s.pcs
      ensures Knows(c, u, s.pcs[u], q, s.d) && Waits(c, u, s.pcs[u], q)
    {
      assert Knows(c, u, s.pcs[u], s.q, s.d) && Waits(c, u, s.pcs[u], s.q);
    }
  }

  lemma SameCoordination(c: Config, s: State, q: Wires)
    requires Shape(c, s) && Coordination(c, s) && q.stop == s.q.stop && q.error == s.q.error
    ensures Shape(c, s.(q := q)) && Coordination(c, s.(q := q))
  {
    forall k: nat | k < c.workerCount + 2 && Finished(c, s, ThreadToJoin(c, k))
      ensures Finished(c, s.(q := q), ThreadToJoin(c, k))
    {
    }
  }

  lemma {:induction false} CountingInitial(c: Config, n: nat)
    requires n <= c.workerCount
    ensures Counting(Init(c).pcs, n) == n
  {
    if n > 0 {
      CountingInitial(c, n - 1);
    }
  }

  lemma InitHasShape(c: Config)
    ensures Shape(c, Init(c))
  {
    forall t: Thread
      ensures t in Threads(c) <==> IsThread(c, t)
    {
      if t.Worker? {
        assert t == Worker(t.index);
      }
    }
  }

  lemma InitIsWired(c: Config)
    requires c.Valid()
    ensures var s := Init(c); Wired(c, s.q, s.d, s.f)
  {
  }

  lemma InitKnows(c: Config, u: Thread)
    requires c.Valid() && u in Init(c).pcs
    ensures var s := Init(c); Knows(c, u, s.pcs[u], s.q, s.d) && Waits(c, u, s.pcs[u], s.q)
  {
  }

  lemma InitCoordinates(c: Config)
    requires c.Valid() && Shape(c, Init(c))
    ensures Coordination(c, Init(c))
  {
  }

  lemma InitHasStructure(c: Config)
    requires c.Valid()
    ensures Structure(c, Init(c))
  {
    InitHasShape(c);
    CountingInitial(c, c.workerCount);
    InitIsWired(c);
    InitCoordinates(c);
    forall u | u in Init(c).pcs
      ensures var s := Init(c); Knows(c, u, s.pcs[u], s.q, s.d) && Waits(c, u, s.pcs[u], s.q)
    {
      InitKnows(c, u);
    }
  }

  /** Every step keeps the structure. */
  lemma StepKeepsStructure(c: Config, s: State, step: Step)
    requires c.Valid() && Structure(c, s) && Enabled(c, s, step)
    ensures Structure(c, Apply(c, s, step))
  {
    match step
    case Move(t, ok, slot, wake) => MoveKeepsStructure(c, s, t, ok, slot, wake);
    case ExternalStop => ExternalKeepsStructure(c, s);
    case SpuriousWakeup(onResults, t) => SpuriousKeepsStructure(c, s, onResults, t);
  }
}
