/** What is bounded, frozen and delivered in every run: the open transaction, the queues after a stop,
    and the progress reports. */
module PipelineBounds {
  import opened Common
  import opened Queues
  import opened Pipeline
  import opened PipelineSafety
  import opened PipelinePublication
  import opened PipelineProgress

  // ----- the open transaction ------------------------------------------------------------------

  /** The batch has reached neither limit. */
  predicate BelowLimits(c: Config, rows: seq<Row>) {
    rows == [] || (|rows| < c.batchEntries && LogicalBytes(rows) < c.batchBytes)
  }

  predicate Batched(c: Config, pc: Pc, tx: seq<Row>) {
    && (pc.FetchRow? || pc.Insert? || pc.Drained? || pc.LastCommit? ==> BelowLimits(c, tx))
    && (pc.Commit? ==> tx != [] && !BelowLimits(c, tx) && BelowLimits(c, tx[..|tx| - 1]))
    && (!(pc.FetchRow? || pc.Insert? || pc.Drained? || pc.LastCommit? || pc.Commit?) ==> tx == [])
  }

  lemma WriterStaysBatched(c: Config, s: State, pc: Pc, ok: bool, wake: Thread)
    requires Batched(c, pc, s.d.tx) && !pc.Shut? && Knows(c, Writer, pc, s.q, s.d)
    ensures var e := WriterAct(c, s, pc, ok, wake); Batched(c, e.pc, e.d.tx)
  {
    if pc.Insert? {
      assert (s.d.tx + [pc.row])[..|s.d.tx + [pc.row]| - 1] == s.d.tx;
    }
  }

  lemma WritersStepStaysBatched(c: Config, s: State, ok: bool, slot: Slot<Row>, wake: Thread)
    requires c.Valid() && Structure(c, s) && CanMove(c, s, Writer, slot, wake) && Batched(c, s.pcs[Writer], s.d.tx)
    ensures var e := Act(c, s, Writer, s.pcs[Writer], ok, slot, wake); Batched(c, e.pc, e.d.tx)
  {
    assert Knows(c, Writer, s.pcs[Writer], s.q, s.d);
    if !s.pcs[Writer].Shut? {
      WriterStaysBatched(c, s, s.pcs[Writer], ok, wake);
    }
  }

  lemma StepStaysBatched(c: Config, s: State, step: Step)
    requires c.Valid() && Structure(c, s) && Enabled(c, s, step) && Batched(c, s.pcs[Writer], s.d.tx)
    ensures var s' := Apply(c, s, step); Writer in s'.pcs && Batched(c, s'.pcs[Writer], s'.d.tx)
  {
    match step
    case Move(t, ok, slot, wake) =>
      if t == Writer {
        WritersStepStaysBatched(c, s, ok, slot, wake);
      } else {
        ActStep(c, s, t, ok, slot, wake);
      }
    case ExternalStop =>
    case SpuriousWakeup(_, _) =>
  }

  lemma {:induction false} ReachedIsBatched(c: Config, run: seq<Step>, s: State)
    requires c.Valid() && Reaches(c, run, s)
    ensures Shape(c, s) && Batched(c, s.pcs[Writer], s.d.tx)
    decreases |run|
  {
    if run == [] {
      InitHasStructure(c);
    } else {
      var before, step := run[..|run| - 1], run[|run| - 1];
      var p :| Reaches(c, before, p) && Shape(c, p) && Enabled(c, p, step) && s == Apply(c, p, step);
      ReachedIsBatched(c, before, p);
      ReachedStatesAreGood(c, before, p);
      StepKeepsStructure(c, p, step);
      StepStaysBatched(c, p, step);
    }
  }

  /** The open transaction is bounded in every state of every run: it has reached a limit, if at all,
      only with its last row, and while the writer waits for a row it has reached none. It is committed
      before the last one only when it has reached a limit. */
  lemma TransactionsAreBounded(c: Config, run: seq<Step>, s: State)
    requires c.Valid() && Reaches(c, run, s)
    ensures |s.d.tx| >= 2 ==> |s.d.tx| <= c.batchEntries && LogicalBytes(s.d.tx[..|s.d.tx| - 1]) < c.batchBytes
    ensures Shape(c, s) && s.pcs[Writer].FetchRow? && s.d.tx != [] ==> |s.d.tx| < c.batchEntries && LogicalBytes(s.d.tx) < c.batchBytes
    ensures Shape(c, s) && s.pcs[Writer].Commit? ==> |s.d.tx| >= c.batchEntries || LogicalBytes(s.d.tx) >= c.batchBytes
  {
    ReachedIsBatched(c, run, s);
    if |s.d.tx| >= 2 {
      assert s.d.tx[..|s.d.tx| - 1] != [];
    }
  }

  /** The bytes of a transaction are the sizes of its rows, warnings not counting. */
  lemma {:induction false} LogicalBytesAddUp(a: seq<Row>, b: seq<Row>)
    ensures LogicalBytes(a + b) == LogicalBytes(a) + LogicalBytes(b)
    ensures |a| == 1 ==> LogicalBytes(a) == if a[0].kind == Warning then 0 else a[0].logicalSize
    decreases |b|
  {
    if b == [] {
      assert a + b == a;
      if |a| == 1 {
        assert a[..0] == [];
      }
    } else {
      LogicalBytesAddUp(a, b[..|b| - 1]);
      assert (a + b)[..|a + b| - 1] == a + b[..|b| - 1];
    }
  }

  // ----- the queues ----------------------------------------------------------------------------

  /** After a stop request nothing enters or leaves a queue, and a closed one only ever gives up its
      first item. */
  predicate Frozen<T(==)>(items: seq<Slot<T>>, closed: bool, stop: bool, items': seq<Slot<T>>) {
    && (stop ==> items' == items)
    && (closed ==> items' == items || (items != [] && items' == items[1..]))
  }

  lemma MoveFreezes(c: Config, s: State, t: Thread, ok: bool, slot: Slot<Row>, wake: Thread)
    requires Shape(c, s) && CanMove(c, s, t, slot, wake) && Knows(c, t, s.pcs[t], s.q, s.d)
    ensures var q := Act(c, s, t, s.pcs[t], ok, slot, wake).q;
            && Frozen(s.q.jobs.items, s.q.jobs.closed, s.q.stop, q.jobs.items)
            && Frozen(s.q.results.items, s.q.results.closed, s.q.stop, q.results.items)
  {
    if !s.pcs[t].Shut? {
      match t
      case Scanner => ScannerFreezes(c, s, s.pcs[t], ok, wake);
      case Worker(_) => WorkerFreezes(c, s, t, s.pcs[t], ok, slot, wake);
      case Writer => WriterFreezes(c, s, s.pcs[t], ok, wake);
      case Progress =>
      case Main => MainFreezes(c, s, s.pcs[t], ok);
      case Caller =>
    }
  }

  lemma ScannerFreezes(c: Config, s: State, pc: Pc, ok: bool, wake: Thread)
    ensures var q := ScannerAct(c, s, pc, ok, wake).q;
            Frozen(s.q.jobs.items, s.q.jobs.closed, s.q.stop, q.jobs.items) && q.results == s.q.results
  {
  }

  predicate BothFrozen(q: Wires, q': Wires) {
    Frozen(q.jobs.items, q.jobs.closed, q.stop, q'.jobs.items) && Frozen(q.results.items, q.results.closed, q.stop, q'.results.items)
  }

  lemma OfferFreezes(c: Config, s: State, t: Thread, slot: Slot<Row>, wake: Thread)
    ensures BothFrozen(s.q, OfferRowAct(c, s, t, slot, wake).q)
  {
  }

  lemma FetchFreezes(s: State, t: Thread, wake: Thread)
    ensures BothFrozen(s.q, FetchJobAct(s, t, wake).q)
  {
  }

  lemma WorkerFreezes(c: Config, s: State, t: Thread, pc: Pc, ok: bool, slot: Slot<Row>, wake: Thread)
    ensures BothFrozen(s.q, WorkerAct(c, s, t, pc, ok, slot, wake).q)
  {
    if pc.FetchJob? {
      FetchFreezes(s, t, wake);
    } else if pc.OfferRow? {
      OfferFreezes(c, s, t, pc.slot, wake);
    }
  }

  lemma WriterFreezes(c: Config, s: State, pc: Pc, ok: bool, wake: Thread)
    ensures var q := WriterAct(c, s, pc, ok, wake).q;
            Frozen(s.q.results.items, s.q.results.closed, s.q.stop, q.results.items) && q.jobs == s.q.jobs
  {
  }

  lemma MainFreezes(c: Config, s: State, pc: Pc, ok: bool)
    ensures MainAct(c, s, pc, ok).q == s.q
  {
  }

  /** Stopping and closing, in every step of the pipeline. */
  lemma StoppedQueuesAreFrozen(c: Config, s: State, step: Step)
    requires c.Valid() && Structure(c, s) && Enabled(c, s, step)
    ensures var q := Apply(c, s, step).q;
            && Frozen(s.q.jobs.items, s.q.jobs.closed, s.q.stop, q.jobs.items)
            && Frozen(s.q.results.items, s.q.results.closed, s.q.stop, q.results.items)
  {
    if step.Move? {
      assert Knows(c, step.thread, s.pcs[step.thread], s.q, s.d);
      MoveFreezes(c, s, step.thread, step.ok, step.slot, step.wake);
    }
  }

  predicate WriterCommits(s: State, e: Effect) {
    e.d.committed == s.d.committed || (!s.q.stop && e.d.committed == s.d.committed + s.d.tx && e.d.tx == [])
  }

  lemma WriterCommitsUnstopped(c: Config, s: State, pc: Pc, ok: bool, wake: Thread)
    ensures WriterCommits(s, WriterAct(c, s, pc, ok, wake))
  {
  }

  lemma OthersCommitNothing(c: Config, s: State, t: Thread, pc: Pc, ok: bool, slot: Slot<Row>, wake: Thread)
    requires t != Writer && Knows(c, t, pc, s.q, s.d)
    ensures Act(c, s, t, pc, ok, slot, wake).d.committed == s.d.committed
  {
  }

  /** The committed rows change only when the writer commits the whole open transaction, and never once a
      stop has been requested. */
  lemma CommitsAreWholeAndUnstopped(c: Config, s: State, step: Step)
    requires c.Valid() && Structure(c, s) && Enabled(c, s, step)
    ensures var s' := Apply(c, s, step);
            || s'.d.committed == s.d.committed
            || (!s.q.stop && step.Move? && step.thread == Writer && s'.d.committed == s.d.committed + s.d.tx && s'.d.tx == [])
  {
    if step.Move? {
      var t, pc := step.thread, s.pcs[step.thread];
      assert Knows(c, t, pc, s.q, s.d);
      if t == Writer && !pc.Shut? {
        WriterCommitsUnstopped(c, s, pc, step.ok, step.wake);
      } else if t != Writer {
        OthersCommitNothing(c, s, t, pc, step.ok, step.slot, step.wake);
      }
    }
  }

  // ----- the progress thread -------------------------------------------------------------------

  /** The progress thread ends only when it is told that nothing will change any more, and then owes no
      report, or when reports are cancelled. */
  predicate Delivered(f: Flags, pc: Pc) {
    pc.Done? ==> f.cancelled || (f.finished && !f.dirty)
  }

  predicate AfterFinish(pc: Pc) {
    pc.MJoinProgress? || pc.MUnregister? || AfterScope(pc)
  }

  ghost predicate Reporting(s: State)
    requires Main in s.pcs && Progress in s.pcs
  {
    (s.f.finished ==> AfterFinish(s.pcs[Main])) && Delivered(s.f, s.pcs[Progress])
  }

  /** A thread that can still report something moves only before the coordinating thread has said that
      nothing will come. */
  lemma ReportersMoveBeforeTheEnd(c: Config, s: State, t: Thread, slot: Slot<Row>, wake: Thread)
    requires Structure(c, s) && Reporting(s) && CanMove(c, s, t, slot, wake) && (t == Scanner || t.Worker? || t == Writer)
    ensures !s.f.finished
  {
    var k := JoinOrder(c, t);
    assert s.f.finished ==> Finished(c, s, ThreadToJoin(c, k));
  }

  /** What the coordinating thread does to the flags of the progress thread. */
  predicate Announces(s: State, pc: Pc, e: Effect) {
    && e.f.cancelled == s.f.cancelled && e.f.dirty == s.f.dirty && (s.f.finished ==> e.f.finished)
    && (e.f.finished && !s.f.finished ==> AfterFinish(e.pc)) && (AfterFinish(pc) ==> AfterFinish(e.pc))
  }

  lemma ScopeAnnounces(c: Config, s: State, pc: Pc, ok: bool)
    requires ScopePosition(pc)
    ensures Announces(s, pc, ScopeAct(c, s, pc, ok))
  {
  }

  lemma PublishAnnounces(s: State, pc: Pc, ok: bool)
    requires AfterScope(pc)
    ensures Announces(s, pc, PublishAct(s, pc, ok))
  {
  }

  lemma MainKeepsReporting(c: Config, s: State, ok: bool)
    requires c.Valid() && Structure(c, s) && Reporting(s) && !s.pcs[Main].Shut?
    ensures Reporting(After(s, Main, MainAct(c, s, s.pcs[Main], ok)))
  {
    assert Knows(c, Main, s.pcs[Main], s.q, s.d);
    if AfterScope(s.pcs[Main]) {
      PublishAnnounces(s, s.pcs[Main], ok);
    } else {
      ScopeAnnounces(c, s, s.pcs[Main], ok);
    }
  }

  lemma ProgressKeepsReporting(c: Config, s: State, ok: bool)
    requires Structure(c, s) && Reporting(s) && !s.pcs[Progress].Shut?
    ensures Reporting(After(s, Progress, ProgressAct(s, s.pcs[Progress], ok)))
  {
    assert Knows(c, Progress, s.pcs[Progress], s.q, s.d);
  }

  lemma EngineKeepsReporting(c: Config, s: State, t: Thread, ok: bool, slot: Slot<Row>, wake: Thread)
    requires c.Valid() && Structure(c, s) && Reporting(s) && CanMove(c, s, t, slot, wake) && !s.pcs[t].Shut?
    requires t == Scanner || t.Worker? || t == Writer
    ensures Reporting(After(s, t, OwnAct(c, s, t, s.pcs[t], ok, slot, wake)))
  {
    OwnFlags(c, s, t, s.pcs[t], ok, slot, wake);
    OwnLeaves(c, s, t, s.pcs[t], ok, slot, wake);
    ReportersMoveBeforeTheEnd(c, s, t, slot, wake);
  }

  lemma ShutKeepsReporting(s: State, t: Thread)
    requires Main in s.pcs && Progress in s.pcs && Reporting(s) && t in s.pcs && s.pcs[t].Shut?
    ensures Reporting(After(s, t, ShutAct(s, t, s.pcs[t].stage)))
  {
    ShutFlags(s, t, s.pcs[t].stage);
  }

  lemma StepKeepsReporting(c: Config, s: State, step: Step)
    requires c.Valid() && Structure(c, s) && Reporting(s) && Enabled(c, s, step)
    ensures var s' := Apply(c, s, step); Main in s'.pcs && Progress in s'.pcs && Reporting(s')
  {
    match step
    case Move(t, ok, slot, wake) =>
      if s.pcs[t].Shut? {
        ShutKeepsReporting(s, t);
      } else if t == Main {
        MainKeepsReporting(c, s, ok);
      } else if t == Progress {
        ProgressKeepsReporting(c, s, ok);
      } else if t != Caller {
        EngineKeepsReporting(c, s, t, ok, slot, wake);
      }
    case ExternalStop =>
    case SpuriousWakeup(_, _) =>
  }

  lemma {:induction false} ReachedIsReporting(c: Config, run: seq<Step>, s: State)
    requires c.Valid() && Reaches(c, run, s)
    ensures Shape(c, s) && Reporting(s)
    decreases |run|
  {
    if run == [] {
      InitHasStructure(c);
    } else {
      var before, step := run[..|run| - 1], run[|run| - 1];
      var p :| Reaches(c, before, p) && Shape(c, p) && Enabled(c, p, step) && s == Apply(c, p, step);
      ReachedIsReporting(c, before, p);
      ReachedStatesAreGood(c, before, p);
      StepKeepsStructure(c, p, step);
      StepKeepsReporting(c, p, step);
    }
  }

  /** When a snapshot is complete, every change that was ever recorded for progress has been reported. */
  lemma ReportsAreDelivered(c: Config, run: seq<Step>, s: State)
    requires c.Valid() && Reaches(c, run, s) && s.f.status == Complete
    ensures !s.f.dirty
  {
    ReachedIsReporting(c, run, s);
    PublicationSafety(c, run, s);
    ReachedStatesAreGood(c, run, s);
  }

  // ----- shutting down -------------------------------------------------------------------------

  /** Everything that a shutdown does has been done. */
  predicate IsDown(s: State) {
    s.q.stop && s.q.jobs.closed && s.q.results.closed && s.f.cancelled
  }

  ghost predicate SomebodyShutsDown(s: State) {
    exists u :: u in s.pcs && s.pcs[u].Shut? && !s.pcs[u].stage.Record?
  }

  ghost predicate Falling(s: State) {
    s.q.error.Some? ==> IsDown(s) || SomebodyShutsDown(s)
  }

  lemma ShutStageFalls(c: Config, s: State, t: Thread)
    requires Shape(c, s) && t in s.pcs && s.pcs[t].Shut? && Knows(c, t, s.pcs[t], s.q, s.d) && Falling(s)
    ensures Falling(After(s, t, ShutAct(s, t, s.pcs[t].stage)))
  {
    var s' := After(s, t, ShutAct(s, t, s.pcs[t].stage));
    if NextStage(s.pcs[t].stage).Some? {
      assert s'.pcs[t].Shut? && !s'.pcs[t].stage.Record?;
    }
  }

  lemma OtherStepFalls(c: Config, s: State, t: Thread, e: Effect)
    requires Shape(c, s) && t in s.pcs && !s.pcs[t].Shut? && Falling(s) && GoodStep(c, s, t, e)
    requires e.q.error == s.q.error && (s.f.cancelled ==> e.f.cancelled)
    ensures Falling(After(s, t, e))
  {
    var s' := After(s, t, e);
    if SomebodyShutsDown(s) {
      var u :| u in s.pcs && s.pcs[u].Shut? && !s.pcs[u].stage.Record?;
      assert s'.pcs[u].Shut? && !s'.pcs[u].stage.Record?;
    }
  }

  predicate LeavesErrors(s: State, e: Effect) {
    e.q.error == s.q.error && e.f.cancelled == s.f.cancelled
  }

  lemma ScannerLeaves(c: Config, s: State, pc: Pc, ok: bool, wake: Thread)
    ensures LeavesErrors(s, ScannerAct(c, s, pc, ok, wake))
  {
  }

  lemma WorkerLeaves(c: Config, s: State, t: Thread, pc: Pc, ok: bool, slot: Slot<Row>, wake: Thread)
    ensures LeavesErrors(s, WorkerAct(c, s, t, pc, ok, slot, wake))
  {
  }

  lemma WriterLeaves(c: Config, s: State, pc: Pc, ok: bool, wake: Thread)
    ensures LeavesErrors(s, WriterAct(c, s, pc, ok, wake))
  {
  }

  lemma MainLeaves(c: Config, s: State, pc: Pc, ok: bool)
    ensures LeavesErrors(s, MainAct(c, s, pc, ok))
  {
  }

  lemma OwnLeaves(c: Config, s: State, t: Thread, pc: Pc, ok: bool, slot: Slot<Row>, wake: Thread)
    ensures LeavesErrors(s, OwnAct(c, s, t, pc, ok, slot, wake))
  {
    match t
    case Scanner => ScannerLeaves(c, s, pc, ok, wake);
    case Worker(_) => WorkerLeaves(c, s, t, pc, ok, slot, wake);
    case Writer => WriterLeaves(c, s, pc, ok, wake);
    case Progress =>
    case Main => MainLeaves(c, s, pc, ok);
    case Caller =>
  }

  lemma StepFalls(c: Config, s: State, step: Step)
    requires c.Valid() && Structure(c, s) && Falling(s) && Enabled(c, s, step)
    ensures Falling(Apply(c, s, step))
  {
    match step
    case Move(t, ok, slot, wake) =>
      assert Knows(c, t, s.pcs[t], s.q, s.d);
      if s.pcs[t].Shut? {
        ShutStageFalls(c, s, t);
      } else {
        ActStep(c, s, t, ok, slot, wake);
        OwnLeaves(c, s, t, s.pcs[t], ok, slot, wake);
        OtherStepFalls(c, s, t, Act(c, s, t, s.pcs[t], ok, slot, wake));
      }
    case ExternalStop => ExternalFalls(c, s);
    case SpuriousWakeup(_, _) =>
  }

  lemma ExternalFalls(c: Config, s: State)
    requires Structure(c, s) && Falling(s) && !s.f.external
    ensures Falling(Apply(c, s, ExternalStop))
  {
    var s' := Apply(c, s, ExternalStop);
    if SomebodyShutsDown(s) {
      var u :| u in s.pcs && s.pcs[u].Shut? && !s.pcs[u].stage.Record?;
      assert s'.pcs[u] == s.pcs[u];
    }
  }

  lemma {:induction false} ReachedIsFalling(c: Config, run: seq<Step>, s: State)
    requires c.Valid() && Reaches(c, run, s)
    ensures Falling(s)
    decreases |run|
  {
    if run != [] {
      var before, step := run[..|run| - 1], run[|run| - 1];
      var p :| Reaches(c, before, p) && Shape(c, p) && Enabled(c, p, step) && s == Apply(c, p, step);
      ReachedIsFalling(c, before, p);
      ReachedStatesAreGood(c, before, p);
      StepFalls(c, p, step);
    }
  }

  /** Where a run that recorded an error can go no further, the shutdown is complete: stop has been
      requested, both queues are closed and progress is cancelled. */
  lemma ShutdownIsComplete(c: Config, run: seq<Step>, s: State)
    requires c.Valid() && Reaches(c, run, s) && s.q.error.Some?
    ensures Shape(c, s) && (!SomebodyMoves(c, s) ==> s.q.stop && s.q.jobs.closed && s.q.results.closed && s.f.cancelled)
  {
    ReachedIsFalling(c, run, s);
    ReachedStatesAreGood(c, run, s);
    StuckMeansFinished(c, run, s);
    if !SomebodyMoves(c, s) {
      NobodyIsShut(c, s);
    }
  }

  lemma NobodyIsShut(c: Config, s: State)
    requires c.Valid() && Structure(c, s) && Final(s.pcs[Main])
    ensures forall u :: u in s.pcs ==> !s.pcs[u].Shut?
  {
    forall u | u in s.pcs
      ensures !s.pcs[u].Shut?
    {
      if u != Main && u != Caller {
        FinalMeansFinished(c, s, u);
        assert Finished(c, s, u);
      }
    }
  }

  /** Once progress is cancelled, no further report begins. */
  lemma CancelledIsSilent(c: Config, s: State, step: Step)
    requires c.Valid() && Structure(c, s) && Enabled(c, s, step) && s.f.cancelled && !s.pcs[Progress].Emit?
    ensures var s' := Apply(c, s, step); Progress in s'.pcs && !s'.pcs[Progress].Emit? && s'.f.cancelled
  {
    if step.Move? && !s.pcs[step.thread].Shut? {
      OwnLeaves(c, s, step.thread, s.pcs[step.thread], step.ok, step.slot, step.wake);
      if step.thread == Progress {
        assert Knows(c, Progress, s.pcs[Progress], s.q, s.d);
      }
    }
  }
}
