/** The snapshot pipeline as a step system.

    One scanner feeds a job queue, `workerCount` workers turn jobs into rows, one writer inserts rows
    in bounded transactions, a progress thread reports, the coordinating thread spawns and joins them
    all and then publishes, and an outside caller may request cancellation at any moment. A step is
    one critical section, one stage of a shutdown or one action between two of those. A label names
    the thread that moves together with everything the step leaves open: whether the action throws,
    which sleeper `notify_one` picks, what a worker makes of a file. `Apply` is then a function, and a
    run is a list of enabled labels. */
module Pipeline {
  import opened Common
  import opened Queues

  /** What the scanner emits: three types of entry, or a warning in place of an entry. */
  datatype Kind = Directory | RegularFile | SymbolicLink | Warning

  datatype Job = Job(id: nat, kind: Kind)

  /** A processed entry, and later the rows it becomes; `id` is the position of its emission. */
  datatype Row = Row(id: nat, kind: Kind, logicalSize: nat, newChunks: nat, reusedChunks: nat, newStored: nat)

  datatype Totals = Totals(files: nat, directories: nat, links: nat, logicalSize: nat,
                           newChunks: nat, reusedChunks: nat, newStored: nat)

  datatype Config = Config(plan: seq<Kind>, workerCount: nat, jobCapacity: nat, resultLimits: Limits,
                           batchEntries: nat, batchBytes: nat)
  {
    predicate Valid() {
      workerCount >= 1 && jobCapacity >= 1 && resultLimits.Valid()
    }

    function JobLimits(): Limits {
      Limits(jobCapacity, None)
    }
  }

  datatype Error = Cancelled | Failed

  /** The five actions of a shutdown, in order. */
  datatype Stage = Record(error: Error) | RequestStop | CloseJobs | CloseResults | CancelProgress

  /** Where a thread is. `Shut` is common to all; the groups below belong to the scanner, the workers,
      the writer, the progress thread and the coordinating thread. */
  datatype Pc =
    | Idle | Done | Shut(stage: Stage)
    | Scan | OfferJob(job: Job) | FinishScan
    | StartWorker | FetchJob | Busy(job: Job) | OfferRow(slot: Slot<Row>) | Leave | CloseLast
    | StartWriter | FetchRow | Insert(row: Row) | Commit | Drained | LastCommit
    | Report | Emit
    | MRegister | MGuard | MSpawn | MJoin(next: nat) | MFinish | MJoinProgress | MUnregister
    | MCheckError | MCheckCancel | MFinalize | MCheckCancelAgain | MPublish | MMark(error: Error)
    | MComplete | MIncomplete

  datatype Status = Pending | Complete | Incomplete(error: Error)

  datatype Wires = Wires(jobs: Channel<Job>, results: Channel<Row>, stop: bool, error: Option<Error>, active: nat)

  /** `tx` and `committed` are the snapshot's rows in the open transaction and in the database.
      `dropped` records the emissions that an error or a stop made the pipeline give up. */
  datatype Ledger = Ledger(emitted: nat, tx: seq<Row>, committed: seq<Row>, dropped: seq<nat>, totals: Totals)

  /** `started` counts the threads spawned so far; `asleep` says that the progress thread, the only
      waiter on its condition variable, waits for a notification. */
  datatype Flags = Flags(external: bool, started: nat, status: Status,
                         dirty: bool, finished: bool, cancelled: bool, asleep: bool)

  datatype State = State(pcs: map<Thread, Pc>, q: Wires, d: Ledger, f: Flags)

  /** What a thread's step does: its next position and the new shared state. */
  datatype Effect = Effect(pc: Pc, q: Wires, d: Ledger, f: Flags)

  datatype Step =
    | Move(thread: Thread, ok: bool, slot: Slot<Row>, wake: Thread)
    | ExternalStop
    | SpuriousWakeup(onResults: bool, thread: Thread)

  predicate IsThread(c: Config, t: Thread) {
    t.Worker? ==> t.index < c.workerCount
  }

  function Threads(c: Config): set<Thread> {
    {Scanner, Writer, Progress, Main, Caller} + set i: nat | i < c.workerCount :: Worker(i)
  }

  function InitialPc(t: Thread): Pc {
    match t
    case Scanner => Scan
    case Worker(_) => StartWorker
    case Writer => StartWriter
    case Progress => Report
    case Main => MRegister
    case Caller => Idle
  }

  function Init(c: Config): State {
    State(map t | t in Threads(c) :: InitialPc(t),
          Wires(EmptyChannel(), EmptyChannel(), false, None, c.workerCount),
          Ledger(0, [], [], [], Totals(0, 0, 0, 0, 0, 0, 0)),
          Flags(false, 0, Pending, false, false, false, false))
  }

  // ----- shared actions ------------------------------------------------------------------------

  function NextStage(stage: Stage): Option<Stage> {
    match stage
    case Record(_) => Some(RequestStop)
    case RequestStop => Some(CloseJobs)
    case CloseJobs => Some(CloseResults)
    case CloseResults => Some(CancelProgress)
    case CancelProgress => None
  }

  function AfterShutdown(t: Thread): Pc {
    if t.Worker? then Leave else if t == Main then MJoin(0) else Done
  }

  /** One stage of a shutdown, whichever thread performs it. */
  function ShutDown(q: Wires, stage: Stage): Wires {
    match stage
    case Record(e) => if q.error.None? then q.(error := Some(e)) else q
    case RequestStop => q.(stop := true, jobs := q.jobs.NotifyAll(), results := q.results.NotifyAll())
    case CloseJobs => q.(jobs := q.jobs.Close())
    case CloseResults => q.(results := q.results.Close())
    case CancelProgress => q
  }

  function Reported(f: Flags): Flags {
    f.(dirty := true, asleep := false)
  }

  function ReportedUnlessWarning(f: Flags, kind: Kind): Flags {
    if kind == Warning then f else Reported(f)
  }

  function CountRow(t: Totals, r: Row): Totals {
    match r.kind
    case Directory => t.(directories := t.directories + 1)
    case SymbolicLink => t.(links := t.links + 1)
    case RegularFile => t.(files := t.files + 1, logicalSize := t.logicalSize + r.logicalSize,
                           newChunks := t.newChunks + r.newChunks, reusedChunks := t.reusedChunks + r.reusedChunks,
                           newStored := t.newStored + r.newStored)
    case Warning => t
  }

  function LogicalBytes(rows: seq<Row>): nat {
    if rows == [] then 0
    else LogicalBytes(rows[..|rows| - 1]) + (if rows[|rows| - 1].kind == Warning then 0 else rows[|rows| - 1].logicalSize)
  }

  function Ids(rows: seq<Row>): seq<nat> {
    seq(|rows|, i requires 0 <= i < |rows| => rows[i].id)
  }

  /** A worker keeps every emission's kind, except that a file it cannot read stably becomes a warning. */
  predicate MayBecome(from: Kind, to: Kind) {
    to == from || (from == RegularFile && to == Warning)
  }

  // ----- one thread at a time ------------------------------------------------------------------

  function ShutAct(s: State, t: Thread, stage: Stage): Effect {
    var next := NextStage(stage);
    Effect(if next.Some? then Shut(next.value) else AfterShutdown(t), ShutDown(s.q, stage), s.d,
           if stage == CancelProgress then s.f.(cancelled := true, asleep := false) else s.f)
  }

  /** A thread's action throws: it enters a shutdown, giving up the emissions `ids`. */
  function Throw(s: State, d: Ledger, ids: seq<nat>): Effect {
    Effect(Shut(Record(Failed)), s.q, d.(dropped := d.dropped + ids), s.f)
  }

  function Goto(s: State, pc: Pc): Effect {
    Effect(pc, s.q, s.d, s.f)
  }

  function OfferJobAct(c: Config, s: State, job: Job, wake: Thread): Effect {
    var q := s.q.(jobs := PushBy(c.JobLimits(), s.q.jobs, Scanner, Slot(0, job), s.q.stop, wake));
    match DecidePush(c.JobLimits(), s.q.jobs.items, s.q.jobs.closed, 0, s.q.stop)
    case WaitForSpace => Effect(OfferJob(job), q, s.d, s.f)
    case Accept => Effect(Scan, q, s.d, s.f)
    case Refuse => Throw(s, s.d, [job.id]).(q := q)
  }

  function ScannerAct(c: Config, s: State, pc: Pc, ok: bool, wake: Thread): Effect {
    if pc.Scan? then
      if !ok then Throw(s, s.d, [])
      else if s.d.emitted < |c.plan| then
        var kind := c.plan[s.d.emitted];
        Effect(OfferJob(Job(s.d.emitted, kind)), s.q, s.d.(emitted := s.d.emitted + 1), ReportedUnlessWarning(s.f, kind))
      else Effect(FinishScan, s.q, s.d, Reported(s.f))
    else if pc.OfferJob? then OfferJobAct(c, s, pc.job, wake)
    else if pc.FinishScan? then Effect(Done, s.q.(jobs := s.q.jobs.Close()), s.d, s.f)
    else Goto(s, pc)
  }

  function FetchJobAct(s: State, t: Thread, wake: Thread): Effect {
    var q := s.q.(jobs := PopBy(s.q.jobs, t, s.q.stop, wake));
    match DecidePop(s.q.jobs.items, s.q.jobs.closed, s.q.stop)
    case WaitForItem => Effect(FetchJob, q, s.d, s.f)
    case Nothing => Effect(Leave, q, s.d, s.f)
    case Take => Effect(Busy(s.q.jobs.items[0].value), q, s.d, s.f)
  }

  function OfferRowAct(c: Config, s: State, t: Thread, slot: Slot<Row>, wake: Thread): Effect {
    var q := s.q.(results := PushBy(c.resultLimits, s.q.results, t, slot, s.q.stop, wake));
    match DecidePush(c.resultLimits, s.q.results.items, s.q.results.closed, slot.bytes, s.q.stop)
    case WaitForSpace => Effect(OfferRow(slot), q, s.d, s.f)
    case Accept => Effect(FetchJob, q, s.d, s.f)
    case Refuse => Throw(s, s.d, [slot.value.id]).(q := q)
  }

  function WorkerAct(c: Config, s: State, t: Thread, pc: Pc, ok: bool, slot: Slot<Row>, wake: Thread): Effect {
    if pc.StartWorker? then if ok then Goto(s, FetchJob) else Throw(s, s.d, [])
    else if pc.FetchJob? then FetchJobAct(s, t, wake)
    else if pc.Busy? then
      if ok then Effect(OfferRow(slot), s.q, s.d, ReportedUnlessWarning(s.f, slot.value.kind))
      else Throw(s, s.d, [pc.job.id])
    else if pc.OfferRow? then OfferRowAct(c, s, t, pc.slot, wake)
    else if pc.Leave? then
      Effect(if s.q.active == 1 then CloseLast else Done,
             s.q.(active := if s.q.active > 0 then s.q.active - 1 else 0), s.d, s.f)
    else if pc.CloseLast? then Effect(Done, s.q.(results := s.q.results.Close()), s.d, s.f)
    else Goto(s, pc)
  }

  /** The writer leaves its transaction uncommitted: the rows in it are rolled back. */
  function RolledBack(d: Ledger): Ledger {
    d.(tx := [], dropped := d.dropped + Ids(d.tx))
  }

  function Committed(d: Ledger): Ledger {
    d.(tx := [], committed := d.committed + d.tx)
  }

  function FetchRowAct(s: State, wake: Thread): Effect {
    var q := s.q.(results := PopBy(s.q.results, Writer, s.q.stop, wake));
    match DecidePop(s.q.results.items, s.q.results.closed, s.q.stop)
    case WaitForItem => Effect(FetchRow, q, s.d, s.f)
    case Nothing => Effect(Drained, q, s.d, s.f)
    case Take => Effect(Insert(s.q.results.items[0].value), q, s.d, s.f)
  }

  function WriterAct(c: Config, s: State, pc: Pc, ok: bool, wake: Thread): Effect {
    if pc.StartWriter? then if ok then Goto(s, FetchRow) else Throw(s, s.d, [])
    else if pc.FetchRow? then FetchRowAct(s, wake)
    else if pc.Insert? then
      if !ok then Throw(s, RolledBack(s.d), [pc.row.id])
      else
        var tx := s.d.tx + [pc.row];
        Effect(if |tx| >= c.batchEntries || LogicalBytes(tx) >= c.batchBytes then Commit else FetchRow,
               s.q, s.d.(tx := tx, totals := CountRow(s.d.totals, pc.row)), s.f)
    else if pc.Commit? then
      if s.q.stop || !ok then Throw(s, RolledBack(s.d), [])
      else Effect(FetchRow, s.q, Committed(s.d), s.f)
    else if pc.Drained? then
      if s.q.stop then Effect(Done, s.q, RolledBack(s.d), s.f) else Goto(s, LastCommit)
    else if pc.LastCommit? then
      if s.d.tx == [] then Goto(s, Done)
      else if s.q.stop || !ok then Throw(s, RolledBack(s.d), [])
      else Effect(Done, s.q, Committed(s.d), s.f)
    else Goto(s, pc)
  }

  function ProgressAct(s: State, pc: Pc, ok: bool): Effect {
    if pc.Report? then
      if s.f.cancelled then Goto(s, Done)
      else if s.f.dirty then Effect(Emit, s.q, s.d, s.f.(dirty := false))
      else if s.f.finished then Goto(s, Done)
      else Effect(Report, s.q, s.d, s.f.(asleep := true))
    else if pc.Emit? then if ok then Goto(s, Report) else Throw(s, s.d, [])
    else Goto(s, pc)
  }

  /** The coordinating thread while the pipeline's scope is open: it registers the cancellation
      callback, spawns, joins and unregisters. */
  function ScopeAct(c: Config, s: State, pc: Pc, ok: bool): Effect {
    if pc.MRegister? then Goto(s, if s.f.external then Shut(Record(Cancelled)) else MGuard)
    else if pc.MGuard? then Goto(s, if s.q.stop then MJoin(0) else MSpawn)
    else if pc.MSpawn? then
      if !ok then Throw(s, s.d, [])
      else Effect(if s.f.started >= c.workerCount + 2 then MJoin(0) else MSpawn, s.q, s.d, s.f.(started := s.f.started + 1))
    else if pc.MJoin? then Goto(s, if pc.next >= c.workerCount + 1 then MFinish else MJoin(pc.next + 1))
    else if pc.MFinish? then Effect(MJoinProgress, s.q, s.d, s.f.(finished := true, asleep := false))
    else if pc.MJoinProgress? then Goto(s, MUnregister)
    else if pc.MUnregister? then Goto(s, MCheckError)
    else Goto(s, pc)
  }

  /** The scope is closed: every thread has been joined. */
  predicate AfterScope(pc: Pc) {
    pc.MCheckError? || Publishing(pc) || pc.MMark? || pc.MIncomplete?
  }

  predicate Publishing(pc: Pc) {
    pc.MCheckCancel? || pc.MFinalize? || pc.MCheckCancelAgain? || pc.MPublish? || pc.MComplete?
  }

  /** The coordinating thread after the scope: it publishes, or marks the snapshot incomplete. */
  function PublishAct(s: State, pc: Pc, ok: bool): Effect {
    if pc.MCheckError? then Goto(s, if s.q.error.Some? then MMark(s.q.error.value) else MCheckCancel)
    else if pc.MCheckCancel? then Goto(s, if s.f.external then MMark(Cancelled) else MFinalize)
    else if pc.MFinalize? then Goto(s, if ok then MCheckCancelAgain else MMark(Failed))
    else if pc.MCheckCancelAgain? then Goto(s, if s.f.external then MMark(Cancelled) else MPublish)
    else if pc.MPublish? then
      if ok then Effect(MComplete, s.q, s.d, s.f.(status := Complete)) else Goto(s, MMark(Failed))
    else if pc.MMark? then
      Effect(MIncomplete, s.q, s.d, s.f.(status := if ok then Incomplete(pc.error) else s.f.status))
    else Goto(s, pc)
  }

  function MainAct(c: Config, s: State, pc: Pc, ok: bool): Effect {
    if AfterScope(pc) then PublishAct(s, pc, ok) else ScopeAct(c, s, pc, ok)
  }

  function OwnAct(c: Config, s: State, t: Thread, pc: Pc, ok: bool, slot: Slot<Row>, wake: Thread): Effect {
    match t
    case Scanner => ScannerAct(c, s, pc, ok, wake)
    case Worker(_) => WorkerAct(c, s, t, pc, ok, slot, wake)
    case Writer => WriterAct(c, s, pc, ok, wake)
    case Progress => ProgressAct(s, pc, ok)
    case Main => MainAct(c, s, pc, ok)
    case Caller => Goto(s, pc)
  }

  function Act(c: Config, s: State, t: Thread, pc: Pc, ok: bool, slot: Slot<Row>, wake: Thread): Effect {
    if pc.Shut? then ShutAct(s, t, pc.stage) else OwnAct(c, s, t, pc, ok, slot, wake)
  }

  // ----- the step system -----------------------------------------------------------------------

  /** Threads are started in the order progress, writer, workers, scanner. */
  function SpawnIndex(c: Config, t: Thread): nat {
    match t
    case Progress => 0
    case Writer => 1
    case Worker(i) => i + 2
    case _ => c.workerCount + 2
  }

  predicate Started(c: Config, f: Flags, t: Thread) {
    t == Main || t == Caller || SpawnIndex(c, t) < f.started
  }

  /** They are joined in the order scanner, workers, writer. */
  function ThreadToJoin(c: Config, next: nat): Thread {
    if next == 0 then Scanner else if next <= c.workerCount then Worker(next - 1) else Writer
  }

  ghost predicate Shape(c: Config, s: State) {
    forall t :: t in s.pcs <==> IsThread(c, t)
  }

  /** A join returns at once for a thread that was never started. */
  predicate Finished(c: Config, s: State, t: Thread)
    requires t in s.pcs
  {
    !Started(c, s.f, t) || s.pcs[t] == Done
  }

  ghost predicate MainEnabled(c: Config, s: State, pc: Pc)
    requires Shape(c, s)
  {
    && (pc.MJoin? ==> Finished(c, s, ThreadToJoin(c, pc.next)))
    && (pc.MJoinProgress? ==> Finished(c, s, Progress))
    && (pc.MUnregister? ==> !s.pcs[Caller].Shut?)
    && !pc.MComplete? && !pc.MIncomplete?
  }

  /** A thread can run unless it sleeps, has not been started, is finished or waits in a join. */
  ghost predicate CanMove(c: Config, s: State, t: Thread, slot: Slot<Row>, wake: Thread)
    requires Shape(c, s)
  {
    && IsThread(c, t) && Started(c, s.f, t)
    && var pc := s.pcs[t];
       && !pc.Idle? && !pc.Done?
       && (pc.OfferJob? ==> t !in s.q.jobs.sleepingProducers && LegalWake(s.q.jobs.sleepingConsumers, wake))
       && (pc.FetchJob? ==> t !in s.q.jobs.sleepingConsumers && LegalWake(s.q.jobs.sleepingProducers, wake))
       && (pc.OfferRow? ==> t !in s.q.results.sleepingProducers && LegalWake(s.q.results.sleepingConsumers, wake))
       && (pc.FetchRow? ==> t !in s.q.results.sleepingConsumers && LegalWake(s.q.results.sleepingProducers, wake))
       && (pc.Busy? ==> slot.value.id == pc.job.id && MayBecome(pc.job.kind, slot.value.kind))
       && (pc.Report? ==> !s.f.asleep)
       && (t == Main ==> MainEnabled(c, s, pc))
  }

  /** What a worker may make of its job: a row of the same emission and kind, or of a file a warning. */
  lemma WhatJobsBecome(c: Config, s: State, t: Thread, slot: Slot<Row>, wake: Thread)
    requires Shape(c, s) && IsThread(c, t) && t.Worker? && Started(c, s.f, t) && s.pcs[t].Busy?
    ensures var job := s.pcs[t].job;
            CanMove(c, s, t, slot, wake) <==>
            slot.value.id == job.id && (slot.value.kind == job.kind || (job.kind == RegularFile && slot.value.kind == Warning))
  {
  }

  ghost predicate Enabled(c: Config, s: State, step: Step)
    requires Shape(c, s)
  {
    match step
    case Move(t, ok, slot, wake) => CanMove(c, s, t, slot, wake)
    case ExternalStop => !s.f.external
    case SpuriousWakeup(onResults, t) => if onResults then s.q.results.Sleeps(t) else s.q.jobs.Sleeps(t)
  }

  /** The cancellation callback is registered while the pipeline's scope is open. */
  predicate Registered(pc: Pc) {
    pc.MGuard? || pc.MSpawn? || pc.Shut? || pc.MJoin? || pc.MFinish? || pc.MJoinProgress? || pc.MUnregister?
  }

  function After(s: State, t: Thread, e: Effect): State {
    State(s.pcs[t := e.pc], e.q, e.d, e.f)
  }

  ghost function Apply(c: Config, s: State, step: Step): State
    requires Shape(c, s)
    requires Enabled(c, s, step)
  {
    match step
    case Move(t, ok, slot, wake) =>
      After(s, t, Act(c, s, t, s.pcs[t], ok, slot, wake))
    case ExternalStop =>
      s.(pcs := s.pcs[Caller := if Registered(s.pcs[Main]) then Shut(Record(Cancelled)) else Done],
         f := s.f.(external := true))
    case SpuriousWakeup(onResults, t) =>
      s.(q := if onResults then s.q.(results := s.q.results.NotifyConsumer(t).NotifyProducer(t))
              else s.q.(jobs := s.q.jobs.NotifyConsumer(t).NotifyProducer(t)))
  }

  /** `s` can be reached from the initial state by the steps in `run`. */
  ghost predicate Reaches(c: Config, run: seq<Step>, s: State)
    decreases |run|
  {
    if run == [] then s == Init(c)
    else
      exists p: State ::
        && Reaches(c, run[..|run| - 1], p)
        && Shape(c, p)
        && Enabled(c, p, run[|run| - 1])
        && s == Apply(c, p, run[|run| - 1])
  }
}
