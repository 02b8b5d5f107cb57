/** How a run ends: a cancellation that comes in time, and every action that fails, prevents publication;
    the snapshot is then marked with what was recorded first. */
module PipelineOutcome {
  import opened Common
  import opened Queues
  import opened Pipeline
  import opened PipelineSafety
  import opened PipelineLedger
  import opened PipelinePublication
  import opened PipelineProgress
  import opened PipelineBounds
  import opened PipelineCompleteness

  /** `s` can be reached from `p` by the steps in `steps`. */
  ghost predicate Continues(c: Config, p: State, steps: seq<Step>, s: State)
    decreases |steps|
  {
    if steps == [] then s == p
    else
      exists m: State ::
        && Continues(c, p, steps[..|steps| - 1], m)
        && Shape(c, m)
        && Enabled(c, m, steps[|steps| - 1])
        && s == Apply(c, m, steps[|steps| - 1])
  }

  lemma {:induction false} ContinuedIsReached(c: Config, run: seq<Step>, p: State, steps: seq<Step>, s: State)
    requires Reaches(c, run, p) && Continues(c, p, steps, s)
    ensures Reaches(c, run + steps, s)
    decreases |steps|
  {
    if steps == [] {
      assert run + steps == run;
    } else {
      var before, step := steps[..|steps| - 1], steps[|steps| - 1];
      var m :| Continues(c, p, before, m) && Shape(c, m) && Enabled(c, m, step) && s == Apply(c, m, step);
      ContinuedIsReached(c, run, p, before, m);
      assert (run + steps)[..|run + steps| - 1] == run + before;
    }
  }

  lemma {:induction false} ReachesStep(c: Config, run: seq<Step>, p: State, step: Step)
    requires Reaches(c, run, p) && Shape(c, p) && Enabled(c, p, step)
    ensures Reaches(c, run + [step], Apply(c, p, step))
  {
    assert (run + [step])[..|run + [step]| - 1] == run;
  }

  // ----- what can no longer be published -------------------------------------------------------

  /** The coordinating thread has looked for a cancellation for the last time, and found none. */
  predicate Decided(pc: Pc) {
    pc.MPublish? || pc.MComplete?
  }

  predicate Marking(pc: Pc) {
    pc.MMark? || pc.MIncomplete?
  }

  ghost predicate Doomed(s: State)
    requires Main in s.pcs
  {
    !Decided(s.pcs[Main]) && (s.f.external || SomebodyFails(s) || Marking(s.pcs[Main]))
  }

  /** While publication is under way nobody has failed. */
  lemma PublishingMeansNobodyFails(c: Config, s: State)
    requires c.Valid() && Structure(c, s) && Publishing(s.pcs[Main])
    ensures !SomebodyFails(s)
  {
    PublishingAllDone(c, s);
    forall u | u in s.pcs
      ensures !s.pcs[u].Shut?
    {
      assert IsThread(c, u);
    }
  }

  lemma ShutKeepsFailing(c: Config, s: State, t: Thread)
    requires Shape(c, s) && t in s.pcs && s.pcs[t].Shut? && Knows(c, t, s.pcs[t], s.q, s.d) && Wired(c, s.q, s.d, s.f)
    ensures SomebodyFails(After(s, t, ShutAct(s, t, s.pcs[t].stage)))
  {
    var s' := After(s, t, ShutAct(s, t, s.pcs[t].stage));
    if s.pcs[t].stage.Record? {
      assert s'.pcs[t].Shut?;
    }
  }

  /** A failure is never forgotten. */
  lemma MoveKeepsFailing(c: Config, s: State, t: Thread, ok: bool, slot: Slot<Row>, wake: Thread)
    requires c.Valid() && Structure(c, s) && CanMove(c, s, t, slot, wake) && SomebodyFails(s)
    ensures SomebodyFails(After(s, t, Act(c, s, t, s.pcs[t], ok, slot, wake)))
  {
    var pc := s.pcs[t];
    if pc.Shut? {
      assert Knows(c, t, pc, s.q, s.d);
      ShutKeepsFailing(c, s, t);
    } else {
      ActStep(c, s, t, ok, slot, wake);
      OthersKeepFailing(c, s, t, Act(c, s, t, pc, ok, slot, wake));
    }
  }

  lemma OthersKeepFailing(c: Config, s: State, t: Thread, e: Effect)
    requires Shape(c, s) && t in s.pcs && !s.pcs[t].Shut? && SomebodyFails(s) && GoodStep(c, s, t, e)
    ensures SomebodyFails(After(s, t, e))
  {
    if s.q.error.None? {
      var u :| u in s.pcs && s.pcs[u].Shut?;
      assert After(s, t, e).pcs[u].Shut?;
    }
  }

  /** What the coordinating thread does with a snapshot that cannot be published any more. */
  predicate LeavesUnpublished(s: State, pc: Pc, e: Effect) {
    !Decided(e.pc) && e.f.external == s.f.external && (Marking(pc) ==> Marking(e.pc))
  }

  lemma ScopeKeepsDoom(c: Config, s: State, pc: Pc, ok: bool)
    requires ScopePosition(pc)
    ensures LeavesUnpublished(s, pc, ScopeAct(c, s, pc, ok))
  {
  }

  lemma PublishKeepsDoom(s: State, pc: Pc, ok: bool)
    requires AfterScope(pc) && !Decided(pc) && (Publishing(pc) ==> s.f.external)
    ensures LeavesUnpublished(s, pc, PublishAct(s, pc, ok))
  {
  }

  lemma MainKeepsDoom(c: Config, s: State, ok: bool)
    requires c.Valid() && Structure(c, s) && Doomed(s) && !s.pcs[Main].Shut?
    ensures LeavesUnpublished(s, s.pcs[Main], MainAct(c, s, s.pcs[Main], ok))
  {
    var pc := s.pcs[Main];
    assert Knows(c, Main, pc, s.q, s.d);
    if AfterScope(pc) {
      if Publishing(pc) {
        PublishingMeansNobodyFails(c, s);
      }
      PublishKeepsDoom(s, pc, ok);
    } else {
      ScopeKeepsDoom(c, s, pc, ok);
    }
  }

  lemma MoveKeepsDoom(c: Config, s: State, t: Thread, ok: bool, slot: Slot<Row>, wake: Thread)
    requires c.Valid() && Structure(c, s) && CanMove(c, s, t, slot, wake) && Doomed(s)
    ensures Doomed(After(s, t, Act(c, s, t, s.pcs[t], ok, slot, wake)))
  {
    var pc := s.pcs[t];
    var e := Act(c, s, t, pc, ok, slot, wake);
    if SomebodyFails(s) {
      MoveKeepsFailing(c, s, t, ok, slot, wake);
    }
    if t == Main && !pc.Shut? {
      MainKeepsDoom(c, s, ok);
    } else if pc.Shut? {
      ShutFlags(s, t, pc.stage);
      ShutKeepsMain(c, s, t);
    } else {
      OwnFlags(c, s, t, pc, ok, slot, wake);
    }
  }

  lemma ShutKeepsMain(c: Config, s: State, t: Thread)
    requires Shape(c, s) && t in s.pcs && s.pcs[t].Shut?
    ensures t == Main ==> !Decided(ShutAct(s, t, s.pcs[t].stage).pc)
  {
  }

  lemma SpuriousKeepsDoom(c: Config, s: State, onResults: bool, t: Thread)
    requires Shape(c, s) && Doomed(s) && Enabled(c, s, SpuriousWakeup(onResults, t))
    ensures Doomed(Apply(c, s, SpuriousWakeup(onResults, t)))
  {
    var s' := Apply(c, s, SpuriousWakeup(onResults, t));
    assert s'.pcs == s.pcs && s'.q.error == s.q.error;
  }

  /** What cannot be published any more never can be again. */
  lemma DoomStays(c: Config, s: State, step: Step)
    requires c.Valid() && Structure(c, s) && Doomed(s) && Enabled(c, s, step)
    ensures Shape(c, Apply(c, s, step)) && Doomed(Apply(c, s, step))
  {
    match step
    case Move(t, ok, slot, wake) => MoveKeepsDoom(c, s, t, ok, slot, wake);
    case ExternalStop =>
    case SpuriousWakeup(onResults, t) => SpuriousKeepsDoom(c, s, onResults, t);
  }

  lemma {:induction false} DoomLasts(c: Config, run: seq<Step>, p: State, steps: seq<Step>, s: State)
    requires c.Valid() && Reaches(c, run, p) && Shape(c, p) && Doomed(p) && Continues(c, p, steps, s)
    ensures Shape(c, s) && Doomed(s)
    decreases |steps|
  {
    if steps != [] {
      var before, step := steps[..|steps| - 1], steps[|steps| - 1];
      var m :| Continues(c, p, before, m) && Shape(c, m) && Enabled(c, m, step) && s == Apply(c, m, step);
      DoomLasts(c, run, p, before, m);
      ContinuedIsReached(c, run, p, before, m);
      ReachedStatesAreGood(c, run + before, m);
      DoomStays(c, m, step);
    }
  }

  lemma DoomedEndsIncomplete(c: Config, run: seq<Step>, p: State, steps: seq<Step>, s: State)
    requires c.Valid() && Reaches(c, run, p) && Shape(c, p) && Doomed(p) && Continues(c, p, steps, s)
    ensures s.f.status != Complete
  {
    DoomLasts(c, run, p, steps, s);
    ContinuedIsReached(c, run, p, steps, s);
    ReachedStatesAreGood(c, run + steps, s);
  }

  /** Cancellation: when it is requested at any moment before the coordinating thread has looked for it
      for the last time, the snapshot is never complete afterwards, whatever happens then. */
  lemma CancellationPreventsPublication(c: Config, run: seq<Step>, p: State, steps: seq<Step>, s: State)
    requires c.Valid() && Reaches(c, run, p) && Shape(c, p) && !p.f.external && !Decided(p.pcs[Main])
    requires Continues(c, Apply(c, p, ExternalStop), steps, s)
    ensures s.f.status != Complete
  {
    ReachesStep(c, run, p, ExternalStop);
    ReachedStatesAreGood(c, run + [ExternalStop], Apply(c, p, ExternalStop));
    DoomedEndsIncomplete(c, run + [ExternalStop], Apply(c, p, ExternalStop), steps, s);
  }

  /** The actions that can throw, up to the publication itself. */
  predicate MayThrow(pc: Pc, d: Ledger) {
    || pc.Scan? || pc.StartWorker? || pc.Busy? || pc.StartWriter? || pc.Insert? || pc.Commit?
    || (pc.LastCommit? && d.tx != []) || pc.Emit? || pc.MSpawn? || pc.MFinalize? || pc.MPublish?
  }

  lemma FailingEngine(c: Config, s: State, t: Thread, slot: Slot<Row>, wake: Thread)
    requires Shape(c, s) && t in s.pcs && Knows(c, t, s.pcs[t], s.q, s.d) && MayThrow(s.pcs[t], s.d) && t != Main
    ensures Act(c, s, t, s.pcs[t], false, slot, wake).pc.Shut?
  {
    match t
    case Scanner =>
    case Worker(_) =>
    case Writer =>
    case Progress =>
    case Caller =>
  }

  lemma FailingMain(c: Config, s: State, slot: Slot<Row>, wake: Thread)
    requires Shape(c, s) && Knows(c, Main, s.pcs[Main], s.q, s.d) && MayThrow(s.pcs[Main], s.d)
    ensures var e := Act(c, s, Main, s.pcs[Main], false, slot, wake); e.pc.Shut? || Marking(e.pc)
  {
  }

  lemma FailureDooms(c: Config, s: State, t: Thread, slot: Slot<Row>, wake: Thread)
    requires c.Valid() && Structure(c, s) && CanMove(c, s, t, slot, wake) && MayThrow(s.pcs[t], s.d)
    ensures Doomed(After(s, t, Act(c, s, t, s.pcs[t], false, slot, wake)))
  {
    assert Knows(c, t, s.pcs[t], s.q, s.d);
    if t == Main {
      FailingMain(c, s, slot, wake);
    } else {
      FailingEngine(c, s, t, slot, wake);
      if AfterScope(s.pcs[Main]) {
        AloneAfterScope(c, s, t, slot, wake);
      }
    }
    var s' := After(s, t, Act(c, s, t, s.pcs[t], false, slot, wake));
    assert s'.pcs[t].Shut? || Marking(s'.pcs[Main]);
  }

  /** Failure: when any action of any thread fails, down to the publication itself, the snapshot is never
      complete afterwards. */
  lemma FailurePreventsPublication(c: Config, run: seq<Step>, p: State, t: Thread, slot: Slot<Row>, wake: Thread,
                                   steps: seq<Step>, s: State)
    requires c.Valid() && Reaches(c, run, p) && Shape(c, p) && CanMove(c, p, t, slot, wake) && MayThrow(p.pcs[t], p.d)
    requires Continues(c, Apply(c, p, Move(t, false, slot, wake)), steps, s)
    ensures s.f.status != Complete
  {
    ReachedStatesAreGood(c, run, p);
    FailureDooms(c, p, t, slot, wake);
    ReachesStep(c, run, p, Move(t, false, slot, wake));
    ReachedStatesAreGood(c, run + [Move(t, false, slot, wake)], Apply(c, p, Move(t, false, slot, wake)));
    DoomedEndsIncomplete(c, run + [Move(t, false, slot, wake)], Apply(c, p, Move(t, false, slot, wake)), steps, s);
  }

  // ----- what the snapshot is marked with ------------------------------------------------------

  /** The error recorded first; a cancellation that came too late to be recorded, if there is none. */
  function Verdict(q: Wires): Error {
    if q.error.Some? then q.error.value else Error.Cancelled
  }

  predicate Undecided(pc: Pc) {
    !Decided(pc) && !Marking(pc)
  }

  /** The first recorded error stays the recorded one. */
  lemma {:induction false} FirstErrorStays(c: Config, run: seq<Step>, p: State, steps: seq<Step>, s: State)
    requires c.Valid() && Reaches(c, run, p) && p.q.error.Some? && Continues(c, p, steps, s)
    ensures s.q.error == p.q.error
    decreases |steps|
  {
    if steps != [] {
      var before, step := steps[..|steps| - 1], steps[|steps| - 1];
      var m :| Continues(c, p, before, m) && Shape(c, m) && Enabled(c, m, step) && s == Apply(c, m, step);
      FirstErrorStays(c, run, p, before, m);
      ContinuedIsReached(c, run, p, before, m);
      ReachedStatesAreGood(c, run + before, m);
      StepKeepsError(c, m, step);
    }
  }

  lemma StepKeepsError(c: Config, s: State, step: Step)
    requires c.Valid() && Structure(c, s) && Enabled(c, s, step)
    ensures s.q.error.Some? ==> Apply(c, s, step).q.error == s.q.error
    ensures step.SpuriousWakeup? ==> Apply(c, s, step).q.error == s.q.error && Apply(c, s, step).pcs == s.pcs
  {
    if step.Move? {
      ActStep(c, s, step.thread, step.ok, step.slot, step.wake);
    }
  }

  /** Once cancellation has been requested in time, only the verdict is ever marked. */
  predicate Condemned(s: State)
    requires Main in s.pcs
  {
    var pc := s.pcs[Main];
    && s.f.external && !Decided(pc)
    && (pc.MMark? ==> pc.error == Verdict(s.q))
    && (pc.MIncomplete? ==> s.f.status == Incomplete(Verdict(s.q)))
  }

  /** The coordinating thread's own actions, finalizing and marking, succeed. */
  predicate MarkingSucceeds(step: Step) {
    step.Move? && step.thread == Main ==> step.ok
  }

  predicate MarkingRun(steps: seq<Step>) {
    forall i :: 0 <= i < |steps| ==> MarkingSucceeds(steps[i])
  }

  lemma ScopeCondemned(c: Config, s: State)
    requires Main in s.pcs && Condemned(s) && ScopePosition(s.pcs[Main])
    ensures Condemned(After(s, Main, ScopeAct(c, s, s.pcs[Main], true)))
  {
  }

  lemma PublishCondemned(s: State)
    requires Main in s.pcs && Condemned(s) && AfterScope(s.pcs[Main]) && (Publishing(s.pcs[Main]) ==> s.q.error.None?)
    ensures Condemned(After(s, Main, PublishAct(s, s.pcs[Main], true)))
  {
  }

  lemma MainCondemned(c: Config, s: State)
    requires c.Valid() && Structure(c, s) && Condemned(s) && !s.pcs[Main].Shut?
    ensures Condemned(After(s, Main, MainAct(c, s, s.pcs[Main], true)))
  {
    assert Knows(c, Main, s.pcs[Main], s.q, s.d);
    if AfterScope(s.pcs[Main]) {
      PublishCondemned(s);
    } else {
      ScopeCondemned(c, s);
    }
  }

  lemma MoveCondemned(c: Config, s: State, step: Step)
    requires c.Valid() && Structure(c, s) && Condemned(s) && step.Move? && Enabled(c, s, step) && MarkingSucceeds(step)
    ensures Main in Apply(c, s, step).pcs && Condemned(Apply(c, s, step))
  {
    var t, pc := step.thread, s.pcs[step.thread];
    if t == Main && !pc.Shut? {
      MainCondemned(c, s);
    } else {
      if pc.Shut? {
        ShutFlags(s, t, pc.stage);
      } else {
        OwnFlags(c, s, t, pc, step.ok, step.slot, step.wake);
      }
      if t != Main && AfterScope(s.pcs[Main]) {
        AloneAfterScope(c, s, t, step.slot, step.wake);
      }
    }
  }

  lemma StepCondemned(c: Config, s: State, step: Step)
    requires c.Valid() && Structure(c, s) && Condemned(s) && Enabled(c, s, step) && MarkingSucceeds(step)
    ensures Main in Apply(c, s, step).pcs && Condemned(Apply(c, s, step))
  {
    match step
    case Move(_, _, _, _) => MoveCondemned(c, s, step);
    case ExternalStop =>
    case SpuriousWakeup(_, _) => StepKeepsError(c, s, step);
  }

  lemma {:induction false} CondemnationLasts(c: Config, run: seq<Step>, p: State, steps: seq<Step>, s: State)
    requires c.Valid() && Reaches(c, run, p) && Shape(c, p) && Condemned(p) && Continues(c, p, steps, s)
    requires MarkingRun(steps)
    ensures Shape(c, s) && Condemned(s)
    decreases |steps|
  {
    if steps != [] {
      var before, step := steps[..|steps| - 1], steps[|steps| - 1];
      var m :| Continues(c, p, before, m) && Shape(c, m) && Enabled(c, m, step) && s == Apply(c, m, step);
      CondemnationLasts(c, run, p, before, m);
      ContinuedIsReached(c, run, p, before, m);
      ReachedStatesAreGood(c, run + before, m);
      StepKeepsStructure(c, m, step);
      StepCondemned(c, m, step);
    }
  }

  lemma CondemnedAtOnce(c: Config, run: seq<Step>, p: State)
    requires c.Valid() && Reaches(c, run, p) && Shape(c, p) && !p.f.external && Undecided(p.pcs[Main])
    ensures var p' := Apply(c, p, ExternalStop);
            Reaches(c, run + [ExternalStop], p') && Shape(c, p') && Condemned(p') && p'.q == p.q
  {
    ReachesStep(c, run, p, ExternalStop);
  }

  lemma CondemnedEnd(c: Config, run: seq<Step>, s: State)
    requires c.Valid() && Reaches(c, run, s) && Shape(c, s) && Condemned(s) && !SomebodyMoves(c, s)
    ensures s.f.status == Incomplete(Verdict(s.q))
  {
    StuckMeansFinished(c, run, s);
  }

  /** A snapshot cancelled in time ends marked with the error recorded first, and as cancelled if there
      is none: whatever fails after the request, if only finalizing and marking themselves succeed. */
  lemma CancelledRunsAreMarked(c: Config, run: seq<Step>, p: State, steps: seq<Step>, s: State)
    requires c.Valid() && Reaches(c, run, p) && Shape(c, p) && !p.f.external && Undecided(p.pcs[Main])
    requires Continues(c, Apply(c, p, ExternalStop), steps, s)
    requires MarkingRun(steps)
    ensures Shape(c, s)
    ensures !SomebodyMoves(c, s) ==> s.f.status == Incomplete(if s.q.error.Some? then s.q.error.value else Error.Cancelled)
    ensures p.q.error.Some? ==> s.q.error == p.q.error
  {
    var first, p' := run + [ExternalStop], Apply(c, p, ExternalStop);
    CondemnedAtOnce(c, run, p);
    CondemnationLasts(c, first, p', steps, s);
    ContinuedIsReached(c, first, p', steps, s);
    if !SomebodyMoves(c, s) {
      CondemnedEnd(c, first + steps, s);
    }
    if p.q.error.Some? {
      FirstErrorStays(c, first, p', steps, s);
    }
  }

  // ----- which error it is ---------------------------------------------------------------------

  predicate Agrees(s: State, e: Error) {
    (s.q.error.Some? ==> e == s.q.error.value) && (e == Error.Cancelled ==> s.f.external)
  }

  /** A cancellation is recorded, and marked, only after it was requested. */
  ghost predicate Told(s: State)
    requires Main in s.pcs
  {
    && (s.q.error.Some? ==> Agrees(s, s.q.error.value))
    && (s.pcs[Main].MMark? ==> Agrees(s, s.pcs[Main].error))
    && (s.f.status.Incomplete? ==> s.pcs[Main].MIncomplete? && Agrees(s, s.f.status.error))
    && (forall u :: u in s.pcs && Records(s.pcs[u], Error.Cancelled) ==> s.f.external)
  }

  predicate Records(pc: Pc, error: Error) {
    pc == Shut(Record(error))
  }

  /** What a thread does outside a shutdown: it records nothing itself, and cancels only on request. */
  predicate Tells(s: State, e: Effect) {
    && e.q.error == s.q.error && e.f.external == s.f.external
    && (Records(e.pc, Error.Cancelled) ==> s.f.external)
  }

  lemma ScannerTells(c: Config, s: State, pc: Pc, ok: bool, wake: Thread)
    requires !pc.Shut?
    ensures Tells(s, ScannerAct(c, s, pc, ok, wake))
  {
  }

  lemma QueueCallTells(c: Config, s: State, t: Thread, slot: Slot<Row>, wake: Thread)
    ensures Tells(s, FetchJobAct(s, t, wake)) && Tells(s, OfferRowAct(c, s, t, slot, wake))
  {
  }

  lemma WorkerTells(c: Config, s: State, t: Thread, pc: Pc, ok: bool, slot: Slot<Row>, wake: Thread)
    requires !pc.Shut?
    ensures Tells(s, WorkerAct(c, s, t, pc, ok, slot, wake))
  {
    if pc.FetchJob? {
      QueueCallTells(c, s, t, slot, wake);
    } else if pc.OfferRow? {
      QueueCallTells(c, s, t, pc.slot, wake);
    }
  }

  lemma WriterTells(c: Config, s: State, pc: Pc, ok: bool, wake: Thread)
    requires !pc.Shut?
    ensures Tells(s, WriterAct(c, s, pc, ok, wake))
  {
  }

  lemma EngineTells(c: Config, s: State, t: Thread, pc: Pc, ok: bool, slot: Slot<Row>, wake: Thread)
    requires t != Main && !pc.Shut?
    ensures Tells(s, OwnAct(c, s, t, pc, ok, slot, wake))
  {
    match t
    case Scanner => ScannerTells(c, s, pc, ok, wake);
    case Worker(_) => WorkerTells(c, s, t, pc, ok, slot, wake);
    case Writer => WriterTells(c, s, pc, ok, wake);
    case Progress =>
    case Caller =>
  }

  lemma ScopeTells(c: Config, s: State, pc: Pc, ok: bool)
    requires ScopePosition(pc)
    ensures Tells(s, ScopeAct(c, s, pc, ok)) && ScopeAct(c, s, pc, ok).f.status == s.f.status && !Marking(ScopeAct(c, s, pc, ok).pc)
  {
  }

  lemma PublishTells(s: State, ok: bool)
    requires Main in s.pcs && Told(s) && AfterScope(s.pcs[Main]) && (Publishing(s.pcs[Main]) ==> s.q.error == None)
    ensures var s' := After(s, Main, PublishAct(s, s.pcs[Main], ok));
            && Tells(s, PublishAct(s, s.pcs[Main], ok))
            && (s'.pcs[Main].MMark? ==> Agrees(s', s'.pcs[Main].error))
            && (s'.f.status.Incomplete? ==> s'.pcs[Main].MIncomplete? && Agrees(s', s'.f.status.error))
  {
  }

  lemma MainTells(c: Config, s: State, ok: bool)
    requires c.Valid() && Structure(c, s) && Told(s) && MainEnabled(c, s, s.pcs[Main]) && !s.pcs[Main].Shut?
    ensures Told(After(s, Main, MainAct(c, s, s.pcs[Main], ok)))
  {
    assert Knows(c, Main, s.pcs[Main], s.q, s.d);
    if AfterScope(s.pcs[Main]) {
      PublishTells(s, ok);
    } else {
      ScopeTells(c, s, s.pcs[Main], ok);
    }
    TellingStays(s, Main, MainAct(c, s, s.pcs[Main], ok));
  }

  lemma TellingStays(s: State, t: Thread, e: Effect)
    requires Main in s.pcs && Told(s) && t in s.pcs && e.f.external == s.f.external && (Records(e.pc, Error.Cancelled) ==> s.f.external)
    ensures forall u :: u in After(s, t, e).pcs && Records(After(s, t, e).pcs[u], Error.Cancelled) ==> s.f.external
  {
    forall u | u in After(s, t, e).pcs && Records(After(s, t, e).pcs[u], Error.Cancelled)
      ensures s.f.external
    {
      if u != t {
        assert Records(s.pcs[u], Error.Cancelled);
      }
    }
  }

  lemma ShutTells(c: Config, s: State, t: Thread)
    requires c.Valid() && Structure(c, s) && Told(s) && t in s.pcs && s.pcs[t].Shut? && !AfterScope(s.pcs[Main])
    ensures Told(After(s, t, ShutAct(s, t, s.pcs[t].stage)))
  {
    assert s.pcs[t] == Shut(Record(Error.Cancelled)) ==> Records(s.pcs[t], Error.Cancelled);
    ShutFlags(s, t, s.pcs[t].stage);
    TellingStays(s, t, ShutAct(s, t, s.pcs[t].stage));
  }

  lemma MoveTells(c: Config, s: State, step: Step)
    requires c.Valid() && Structure(c, s) && Told(s) && step.Move? && Enabled(c, s, step)
    ensures Main in Apply(c, s, step).pcs && Told(Apply(c, s, step))
  {
    var t, pc := step.thread, s.pcs[step.thread];
    if t != Main && AfterScope(s.pcs[Main]) {
      AloneAfterScope(c, s, t, step.slot, step.wake);
    }
    assert Knows(c, t, pc, s.q, s.d);
    if pc.Shut? {
      ShutTells(c, s, t);
    } else if t == Main {
      MainTells(c, s, step.ok);
    } else {
      var e := OwnAct(c, s, t, pc, step.ok, step.slot, step.wake);
      EngineTells(c, s, t, pc, step.ok, step.slot, step.wake);
      OwnFlags(c, s, t, pc, step.ok, step.slot, step.wake);
      TellingStays(s, t, e);
    }
  }

  lemma StepTells(c: Config, s: State, step: Step)
    requires c.Valid() && Structure(c, s) && Told(s) && Enabled(c, s, step)
    ensures Main in Apply(c, s, step).pcs && Told(Apply(c, s, step))
  {
    match step
    case Move(_, _, _, _) => MoveTells(c, s, step);
    case ExternalStop =>
    case SpuriousWakeup(_, _) => StepKeepsError(c, s, step);
  }

  lemma {:induction false} ReachedIsTold(c: Config, run: seq<Step>, s: State)
    requires c.Valid() && Reaches(c, run, s)
    ensures Shape(c, s) && Told(s)
    decreases |run|
  {
    if run == [] {
      InitHasStructure(c);
    } else {
      var before, step := run[..|run| - 1], run[|run| - 1];
      var p :| Reaches(c, before, p) && Shape(c, p) && Enabled(c, p, step) && s == Apply(c, p, step);
      ReachedIsTold(c, before, p);
      ReachedStatesAreGood(c, before, p);
      StepKeepsStructure(c, p, step);
      StepTells(c, p, step);
    }
  }

  /** Whatever happens, a snapshot marked incomplete carries the error that was recorded first, if any
      was, and is marked cancelled only if cancellation was requested. */
  lemma MarkedWithFirstError(c: Config, run: seq<Step>, s: State)
    requires c.Valid() && Reaches(c, run, s) && s.f.status.Incomplete?
    ensures s.q.error.Some? ==> s.f.status.error == s.q.error.value
    ensures s.f.status.error == Error.Cancelled ==> s.f.external
  {
    ReachedIsTold(c, run, s);
  }

  // ----- runs in which nothing fails -----------------------------------------------------------

  /** No action throws and every row fits the result queue; cancellation may be requested. */
  predicate Willing(c: Config, step: Step) {
    step.Move? ==> step.ok && c.resultLimits.Fits(step.slot.bytes)
  }

  predicate WillingRun(c: Config, steps: seq<Step>) {
    forall i :: 0 <= i < |steps| ==> Willing(c, steps[i])
  }

  /** Whoever fails does so because an error has been recorded already. */
  predicate Follows(c: Config, q: Wires, pc: Pc) {
    && (Records(pc, Error.Failed) ==> q.error.Some?)
    && (pc.OfferRow? ==> c.resultLimits.Fits(pc.slot.bytes))
  }

  ghost predicate NobodyFailed(c: Config, s: State) {
    s.q.error != Some(Error.Failed) && forall u :: u in s.pcs ==> Follows(c, s.q, s.pcs[u])
  }

  lemma ScannerFollows(c: Config, s: State, pc: Pc, wake: Thread)
    requires Follows(c, s.q, pc) && !pc.Shut? && (s.q.stop ==> s.q.error.Some?) && (pc.OfferJob? && s.q.error.None? ==> !s.q.jobs.closed)
    ensures Follows(c, s.q, ScannerAct(c, s, pc, true, wake).pc)
  {
  }

  lemma WorkerFollows(c: Config, s: State, t: Thread, pc: Pc, slot: Slot<Row>, wake: Thread)
    requires Follows(c, s.q, pc) && !pc.Shut? && (s.q.stop ==> s.q.error.Some?) && (pc.OfferRow? && s.q.error.None? ==> !s.q.results.closed)
    requires c.resultLimits.Fits(slot.bytes)
    ensures Follows(c, s.q, WorkerAct(c, s, t, pc, true, slot, wake).pc)
  {
  }

  lemma WriterFollows(c: Config, s: State, pc: Pc, wake: Thread)
    requires Follows(c, s.q, pc) && !pc.Shut? && (s.q.stop ==> s.q.error.Some?)
    ensures Follows(c, s.q, WriterAct(c, s, pc, true, wake).pc)
  {
  }

  lemma EngineFollows(c: Config, s: State, t: Thread, slot: Slot<Row>, wake: Thread)
    requires t != Main && Structure(c, s) && NobodyFailed(c, s) && CanMove(c, s, t, slot, wake) && !s.pcs[t].Shut? && c.resultLimits.Fits(slot.bytes)
    ensures Follows(c, s.q, OwnAct(c, s, t, s.pcs[t], true, slot, wake).pc)
  {
    var pc := s.pcs[t];
    assert Follows(c, s.q, pc);
    if s.q.error.None? {
      ProducersFindOpenQueues(c, s, t);
    }
    match t
    case Scanner => ScannerFollows(c, s, pc, wake);
    case Worker(_) => WorkerFollows(c, s, t, pc, slot, wake);
    case Writer => WriterFollows(c, s, pc, wake);
    case Progress =>
    case Caller =>
  }

  lemma MoveFollows(c: Config, s: State, t: Thread, slot: Slot<Row>, wake: Thread)
    requires c.Valid() && Structure(c, s) && Told(s) && NobodyFailed(c, s) && CanMove(c, s, t, slot, wake) && c.resultLimits.Fits(slot.bytes)
    ensures NobodyFailed(c, After(s, t, Act(c, s, t, s.pcs[t], true, slot, wake)))
  {
    var e := Act(c, s, t, s.pcs[t], true, slot, wake);
    assert Follows(c, s.q, s.pcs[t]) && Knows(c, t, s.pcs[t], s.q, s.d);
    ActStep(c, s, t, true, slot, wake);
    if !s.pcs[t].Shut? {
      if t == Main {
        MainFollows(c, s);
      } else {
        EngineFollows(c, s, t, slot, wake);
        EngineTells(c, s, t, s.pcs[t], true, slot, wake);
      }
    }
    assert e.q.error != Some(Error.Failed) && Follows(c, e.q, e.pc);
    FollowingStays(c, s, t, e);
  }

  predicate MainIsCalm(s: State, e: Effect) {
    e.q == s.q && !e.pc.OfferRow? && !Records(e.pc, Error.Failed)
  }

  lemma ScopeFollows(c: Config, s: State, pc: Pc)
    requires ScopePosition(pc)
    ensures MainIsCalm(s, ScopeAct(c, s, pc, true))
  {
  }

  lemma PublishFollows(s: State, pc: Pc)
    requires AfterScope(pc)
    ensures MainIsCalm(s, PublishAct(s, pc, true))
  {
  }

  lemma MainFollows(c: Config, s: State)
    requires Structure(c, s) && !s.pcs[Main].Shut?
    ensures MainIsCalm(s, MainAct(c, s, s.pcs[Main], true))
  {
    assert Knows(c, Main, s.pcs[Main], s.q, s.d);
    if AfterScope(s.pcs[Main]) {
      PublishFollows(s, s.pcs[Main]);
    } else {
      ScopeFollows(c, s, s.pcs[Main]);
    }
  }

  lemma FollowingStays(c: Config, s: State, t: Thread, e: Effect)
    requires NobodyFailed(c, s) && t in s.pcs && (s.q.error.Some? ==> e.q.error == s.q.error)
    requires e.q.error != Some(Error.Failed) && Follows(c, e.q, e.pc)
    ensures NobodyFailed(c, After(s, t, e))
  {
    forall u | u in After(s, t, e).pcs
      ensures Follows(c, e.q, After(s, t, e).pcs[u])
    {
      if u != t {
        assert Follows(c, s.q, s.pcs[u]);
      }
    }
  }

  lemma StepFollows(c: Config, s: State, step: Step)
    requires c.Valid() && Structure(c, s) && Told(s) && NobodyFailed(c, s) && Enabled(c, s, step) && Willing(c, step)
    ensures NobodyFailed(c, Apply(c, s, step))
  {
    match step
    case Move(t, _, slot, wake) => MoveFollows(c, s, t, slot, wake);
    case ExternalStop =>
    case SpuriousWakeup(_, _) => StepKeepsError(c, s, step);
  }

  lemma {:induction false} WillingRunsNeverFail(c: Config, run: seq<Step>, s: State)
    requires c.Valid() && Reaches(c, run, s) && WillingRun(c, run)
    ensures NobodyFailed(c, s)
    decreases |run|
  {
    if run != [] {
      var before, step := run[..|run| - 1], run[|run| - 1];
      var p :| Reaches(c, before, p) && Shape(c, p) && Enabled(c, p, step) && s == Apply(c, p, step);
      WillingRunsNeverFail(c, before, p);
      ReachedStatesAreGood(c, before, p);
      ReachedIsTold(c, before, p);
      StepFollows(c, p, step);
    }
  }

  /** When nothing fails, a run that is cancelled in time ends with the snapshot marked cancelled: at
      whatever moment the request comes, and however the threads fall into each other's shutdown. */
  lemma WillingCancelledRunsAreCancelled(c: Config, run: seq<Step>, p: State, steps: seq<Step>, s: State)
    requires c.Valid() && Reaches(c, run, p) && Shape(c, p) && !p.f.external && Undecided(p.pcs[Main])
    requires Continues(c, Apply(c, p, ExternalStop), steps, s)
    requires WillingRun(c, run) && WillingRun(c, steps)
    ensures Shape(c, s)
    ensures !SomebodyMoves(c, s) ==> s.f.status == Incomplete(Error.Cancelled)
  {
    WillingMarks(c, steps);
    WillingEnd(c, run, p, steps, s);
    CancelledRunsAreMarked(c, run, p, steps, s);
    assert s.q.error.Some? ==> s.q.error.value == Error.Cancelled;
  }

  lemma WillingMarks(c: Config, steps: seq<Step>)
    requires WillingRun(c, steps)
    ensures MarkingRun(steps)
  {
    forall i | 0 <= i < |steps|
      ensures MarkingSucceeds(steps[i])
    {
      assert Willing(c, steps[i]);
    }
  }

  lemma WillingWhole(c: Config, run: seq<Step>, steps: seq<Step>)
    requires WillingRun(c, run) && WillingRun(c, steps)
    ensures WillingRun(c, run + [ExternalStop] + steps)
  {
    var whole := run + [ExternalStop] + steps;
    forall i | 0 <= i < |whole|
      ensures Willing(c, whole[i])
    {
      assert whole[i] == if i < |run| then run[i] else if i == |run| then ExternalStop else steps[i - |run| - 1];
    }
  }

  lemma WillingEnd(c: Config, run: seq<Step>, p: State, steps: seq<Step>, s: State)
    requires c.Valid() && Reaches(c, run, p) && Shape(c, p) && !p.f.external
    requires Continues(c, Apply(c, p, ExternalStop), steps, s)
    requires WillingRun(c, run) && WillingRun(c, steps)
    ensures s.q.error != Some(Error.Failed)
  {
    ReachesStep(c, run, p, ExternalStop);
    ContinuedIsReached(c, run + [ExternalStop], Apply(c, p, ExternalStop), steps, s);
    WillingWhole(c, run, steps);
    WillingRunsNeverFail(c, run + [ExternalStop] + steps, s);
  }

  // ----- how soon a cancellation takes effect --------------------------------------------------

  predicate Concluding(pc: Pc) {
    pc.MFinalize? || pc.MCheckCancelAgain? || Decided(pc)
  }

  /** Cancellation has been requested before the coordinating thread looked for it the first time. */
  predicate Spared(s: State)
    requires Main in s.pcs
  {
    s.f.external && !Concluding(s.pcs[Main])
  }

  lemma StepSpares(c: Config, s: State, step: Step)
    requires c.Valid() && Structure(c, s) && Spared(s) && Enabled(c, s, step)
    ensures Main in Apply(c, s, step).pcs && Spared(Apply(c, s, step))
  {
    if step.Move? {
      var t, pc := step.thread, s.pcs[step.thread];
      assert Knows(c, t, pc, s.q, s.d);
      if pc.Shut? {
        ShutFlags(s, t, pc.stage);
      } else if t == Main {
        MainSpares(c, s, step.ok);
      } else {
        OwnFlags(c, s, t, pc, step.ok, step.slot, step.wake);
      }
    }
  }

  lemma MainSpares(c: Config, s: State, ok: bool)
    requires Structure(c, s) && Spared(s) && !s.pcs[Main].Shut?
    ensures var e := MainAct(c, s, s.pcs[Main], ok); e.f.external && !Concluding(e.pc)
  {
    assert Knows(c, Main, s.pcs[Main], s.q, s.d);
    if AfterScope(s.pcs[Main]) {
      PublishFrame(s, s.pcs[Main], ok);
    } else {
      ScopeFrame(c, s, s.pcs[Main], ok);
    }
  }

  /** A run cancelled before the coordinating thread looked for it the first time is not even finalized. */
  lemma {:induction false} CancelledIsNotFinalized(c: Config, run: seq<Step>, p: State, steps: seq<Step>, s: State)
    requires c.Valid() && Reaches(c, run, p) && Shape(c, p) && Spared(p) && Continues(c, p, steps, s)
    ensures Shape(c, s) && s.f.external && !s.pcs[Main].MFinalize? && !s.pcs[Main].MPublish?
    ensures Spared(s)
    decreases |steps|
  {
    if steps != [] {
      var before, step := steps[..|steps| - 1], steps[|steps| - 1];
      var m :| Continues(c, p, before, m) && Shape(c, m) && Enabled(c, m, step) && s == Apply(c, m, step);
      CancelledIsNotFinalized(c, run, p, before, m);
      ContinuedIsReached(c, run, p, before, m);
      ReachedStatesAreGood(c, run + before, m);
      StepKeepsStructure(c, m, step);
      StepSpares(c, m, step);
    }
  }

  /** No thread has been started, and none will be: the request came before the callback was registered, or
      the stop before the threads were to be started. */
  predicate NeverStarts(s: State)
    requires Main in s.pcs
  {
    var pc := s.pcs[Main];
    s.f.started == 0 && (pc.MRegister? ==> s.f.external) && (pc.MGuard? ==> s.q.stop) && !pc.MSpawn?
  }

  lemma StepNeverStarts(c: Config, s: State, step: Step)
    requires c.Valid() && Structure(c, s) && NeverStarts(s) && Enabled(c, s, step)
    ensures Main in Apply(c, s, step).pcs && NeverStarts(Apply(c, s, step))
  {
    if step.Move? {
      var t, pc := step.thread, s.pcs[step.thread];
      assert Knows(c, t, pc, s.q, s.d);
      ActStep(c, s, t, step.ok, step.slot, step.wake);
      if pc.Shut? {
        ShutFlags(s, t, pc.stage);
      } else if t == Main {
        MainNeverStarts(c, s, step.ok);
      }
    }
  }

  lemma MainNeverStarts(c: Config, s: State, ok: bool)
    requires Structure(c, s) && NeverStarts(s) && !s.pcs[Main].Shut?
    ensures var e := MainAct(c, s, s.pcs[Main], ok); e.f.started == 0 && !e.pc.MRegister? && !e.pc.MGuard? && !e.pc.MSpawn?
  {
    assert Knows(c, Main, s.pcs[Main], s.q, s.d);
  }

  /** When the request comes before the cancellation callback is registered, no thread is ever started. */
  lemma {:induction false} CancelledEarlyStartsNothing(c: Config, run: seq<Step>, p: State, steps: seq<Step>, s: State)
    requires c.Valid() && Reaches(c, run, p) && Shape(c, p) && NeverStarts(p) && Continues(c, p, steps, s)
    ensures s.f.started == 0 && Shape(c, s) && NeverStarts(s)
    decreases |steps|
  {
    if steps != [] {
      var before, step := steps[..|steps| - 1], steps[|steps| - 1];
      var m :| Continues(c, p, before, m) && Shape(c, m) && Enabled(c, m, step) && s == Apply(c, m, step);
      CancelledEarlyStartsNothing(c, run, p, before, m);
      ContinuedIsReached(c, run, p, before, m);
      ReachedStatesAreGood(c, run + before, m);
      StepKeepsStructure(c, m, step);
      StepNeverStarts(c, m, step);
    }
  }

  lemma StepKeepsFailing(c: Config, s: State, step: Step)
    requires c.Valid() && Structure(c, s) && SomebodyFails(s) && Enabled(c, s, step)
    ensures SomebodyFails(Apply(c, s, step))
  {
    match step
    case Move(t, ok, slot, wake) => MoveKeepsFailing(c, s, t, ok, slot, wake);
    case ExternalStop =>
      if s.q.error.None? {
        var u :| u in s.pcs && s.pcs[u].Shut?;
        assert Apply(c, s, step).pcs[u].Shut?;
      }
    case SpuriousWakeup(_, _) => StepKeepsError(c, s, step);
  }

  lemma {:induction false} FailingLasts(c: Config, run: seq<Step>, p: State, steps: seq<Step>, s: State)
    requires c.Valid() && Reaches(c, run, p) && SomebodyFails(p) && Continues(c, p, steps, s)
    ensures SomebodyFails(s)
    decreases |steps|
  {
    if steps != [] {
      var before, step := steps[..|steps| - 1], steps[|steps| - 1];
      var m :| Continues(c, p, before, m) && Shape(c, m) && Enabled(c, m, step) && s == Apply(c, m, step);
      FailingLasts(c, run, p, before, m);
      ContinuedIsReached(c, run, p, before, m);
      ReachedStatesAreGood(c, run + before, m);
      StepKeepsFailing(c, m, step);
    }
  }

  /** A request at any moment from the registration of the callback to the end of its scope shuts the pipeline
      down: where the run can go no further, an error is recorded, the stop requested, both queues closed and
      progress cancelled. */
  lemma CancellationShutsDown(c: Config, run: seq<Step>, p: State, steps: seq<Step>, s: State)
    requires c.Valid() && Reaches(c, run, p) && Shape(c, p) && !p.f.external && !p.pcs[Main].MRegister? && !AfterScope(p.pcs[Main])
    requires Continues(c, Apply(c, p, ExternalStop), steps, s)
    ensures Shape(c, s)
    ensures !SomebodyMoves(c, s) ==> s.q.error.Some? && s.q.stop && s.q.jobs.closed && s.q.results.closed && s.f.cancelled
  {
    var first, p' := run + [ExternalStop], Apply(c, p, ExternalStop);
    ReachedStatesAreGood(c, run, p);
    assert Knows(c, Main, p.pcs[Main], p.q, p.d);
    ReachesStep(c, run, p, ExternalStop);
    assert p'.pcs[Caller].Shut?;
    FailingLasts(c, first, p', steps, s);
    ContinuedIsReached(c, first, p', steps, s);
    ReachedStatesAreGood(c, first + steps, s);
    if !SomebodyMoves(c, s) {
      FailedEnd(c, first + steps, s);
    }
  }

  lemma FailedEnd(c: Config, run: seq<Step>, s: State)
    requires c.Valid() && Reaches(c, run, s) && Shape(c, s) && SomebodyFails(s) && !SomebodyMoves(c, s)
    ensures s.q.error.Some? && s.q.stop && s.q.jobs.closed && s.q.results.closed && s.f.cancelled
  {
    ReachedStatesAreGood(c, run, s);
    StuckMeansFinished(c, run, s);
    NobodyIsShut(c, s);
    ShutdownIsComplete(c, run, s);
  }

  // ----- what progress is told -----------------------------------------------------------------

  /** Something happens that progress is told of: the scanner finds an entry, or comes to the end of its
      scan, or a worker makes an entry of its job. */
  predicate IsEvent(c: Config, s: State, s': State) {
    || (s'.d.emitted == s.d.emitted + 1 <= |c.plan| && c.plan[s.d.emitted] != Warning)
    || (Scanner in s.pcs && Scanner in s'.pcs && !s.pcs[Scanner].FinishScan? && s'.pcs[Scanner].FinishScan?)
    || exists t :: t in s.pcs && t in s'.pcs && s.pcs[t].Busy? && s'.pcs[t].OfferRow? && s'.pcs[t].slot.value.kind != Warning
  }

  /** After `k` of the steps a report has just begun. */
  ghost predicate ReportBegins(c: Config, p: State, steps: seq<Step>, k: nat, m: State) {
    0 < k <= |steps| && Continues(c, p, steps[..k], m) && Progress in m.pcs && m.pcs[Progress].Emit? && !m.f.dirty
  }

  lemma EventIsDue(c: Config, s: State, step: Step)
    requires Shape(c, s) && Enabled(c, s, step) && IsEvent(c, s, Apply(c, s, step))
    ensures Apply(c, s, step).f.dirty
  {
  }

  lemma WorkKeepsDue(c: Config, s: State, t: Thread, pc: Pc, ok: bool, slot: Slot<Row>, wake: Thread)
    requires s.f.dirty
    ensures ScannerAct(c, s, pc, ok, wake).f.dirty && WorkerAct(c, s, t, pc, ok, slot, wake).f.dirty
  {
  }

  lemma OwnWorkKeepsDue(c: Config, s: State, t: Thread, pc: Pc, ok: bool, slot: Slot<Row>, wake: Thread)
    requires s.f.dirty && t != Progress
    ensures OwnAct(c, s, t, pc, ok, slot, wake).f.dirty
  {
    WorkKeepsDue(c, s, t, pc, ok, slot, wake);
  }

  lemma OnlyReportsSettle(c: Config, s: State, step: Step)
    requires Shape(c, s) && Enabled(c, s, step) && s.f.dirty && !Apply(c, s, step).f.dirty
    ensures var s' := Apply(c, s, step); Progress in s'.pcs && s'.pcs[Progress].Emit?
  {
    if step.Move? && step.thread != Progress && !s.pcs[step.thread].Shut? {
      OwnWorkKeepsDue(c, s, step.thread, s.pcs[step.thread], step.ok, step.slot, step.wake);
    }
  }

  lemma {:induction false} DueUntilReported(c: Config, p: State, steps: seq<Step>, s: State) returns (k: nat, m: State)
    requires Continues(c, p, steps, s) && p.f.dirty && !s.f.dirty
    ensures ReportBegins(c, p, steps, k, m)
    decreases |steps|
  {
    var before, step := steps[..|steps| - 1], steps[|steps| - 1];
    var last: State :| Continues(c, p, before, last) && Shape(c, last) && Enabled(c, last, step) && s == Apply(c, last, step);
    if last.f.dirty {
      OnlyReportsSettle(c, last, step);
      assert steps[..|steps|] == steps;
      return |steps|, s;
    }
    k, m := DueUntilReported(c, p, before, last);
    assert before[..k] == steps[..k];
  }

  /** In a run that completes its snapshot, whatever progress is told of, a report begins afterwards. */
  lemma EveryEventIsReported(c: Config, run: seq<Step>, p: State, step: Step, steps: seq<Step>, s: State)
    requires c.Valid() && Reaches(c, run, p) && Shape(c, p) && Enabled(c, p, step) && IsEvent(c, p, Apply(c, p, step))
    requires Continues(c, Apply(c, p, step), steps, s) && s.f.status == Complete
    ensures exists k, m :: ReportBegins(c, Apply(c, p, step), steps, k, m)
  {
    EventIsDue(c, p, step);
    ReachesStep(c, run, p, step);
    ContinuedIsReached(c, run + [step], Apply(c, p, step), steps, s);
    ReportsAreDelivered(c, run + [step] + steps, s);
    var k, m := DueUntilReported(c, Apply(c, p, step), steps, s);
  }
}
