/** The other half of publication: a run in which nothing fails and nobody cancels cannot end in
    anything but a published snapshot. */
module PipelineCompleteness {
  import opened Common
  import opened Queues
  import opened Pipeline
  import opened PipelineSafety
  import opened PipelineLedger
  import opened PipelinePublication
  import opened PipelineProgress

  /** No action throws, no cancellation is requested and every row fits the result queue. */
  predicate Untroubled(c: Config, step: Step) {
    match step
    case Move(_, ok, slot, _) => ok && c.resultLimits.Fits(slot.bytes)
    case ExternalStop => false
    case SpuriousWakeup(_, _) => true
  }

  predicate Calm(c: Config, pc: Pc) {
    !pc.Shut? && !pc.MMark? && !pc.MIncomplete? && (pc.OfferRow? ==> c.resultLimits.Fits(pc.slot.bytes))
  }

  predicate Quiet(q: Wires, f: Flags) {
    q.error.None? && !q.stop && !f.external && !f.cancelled
  }

  ghost predicate Peaceful(c: Config, s: State) {
    Quiet(s.q, s.f) && forall u :: u in s.pcs ==> Calm(c, s.pcs[u])
  }

  predicate StaysCalm(c: Config, e: Effect) {
    Quiet(e.q, e.f) && Calm(c, e.pc)
  }

  lemma ScannerCalm(c: Config, s: State, pc: Pc, wake: Thread)
    requires Quiet(s.q, s.f) && Calm(c, pc) && (pc.OfferJob? ==> !s.q.jobs.closed)
    ensures StaysCalm(c, ScannerAct(c, s, pc, true, wake))
  {
  }

  lemma WorkerCalm(c: Config, s: State, t: Thread, pc: Pc, slot: Slot<Row>, wake: Thread)
    requires Quiet(s.q, s.f) && Calm(c, pc) && (pc.OfferRow? ==> !s.q.results.closed) && c.resultLimits.Fits(slot.bytes)
    ensures StaysCalm(c, WorkerAct(c, s, t, pc, true, slot, wake))
  {
  }

  lemma WriterCalm(c: Config, s: State, pc: Pc, wake: Thread)
    requires Quiet(s.q, s.f) && Calm(c, pc)
    ensures StaysCalm(c, WriterAct(c, s, pc, true, wake))
  {
  }

  lemma MainCalm(c: Config, s: State, pc: Pc)
    requires Quiet(s.q, s.f) && Calm(c, pc)
    ensures StaysCalm(c, MainAct(c, s, pc, true))
  {
  }

  /** Without an error, a queue is open as long as anybody is at its producing end. */
  lemma ProducersFindOpenQueues(c: Config, s: State, t: Thread)
    requires Structure(c, s) && s.q.error.None? && t in s.pcs
    ensures t == Scanner && s.pcs[t].OfferJob? ==> !s.q.jobs.closed
    ensures t.Worker? && s.pcs[t].OfferRow? ==> !s.q.results.closed
  {
    CountingUpdate(s.pcs, c.workerCount, t, s.pcs[t]);
  }

  lemma OwnCalm(c: Config, s: State, t: Thread, slot: Slot<Row>, wake: Thread)
    requires Structure(c, s) && Peaceful(c, s) && CanMove(c, s, t, slot, wake) && c.resultLimits.Fits(slot.bytes)
    ensures StaysCalm(c, Act(c, s, t, s.pcs[t], true, slot, wake))
  {
    ProducersFindOpenQueues(c, s, t);
    var pc := s.pcs[t];
    assert Calm(c, pc);
    match t
    case Scanner => ScannerCalm(c, s, pc, wake);
    case Worker(_) => WorkerCalm(c, s, t, pc, slot, wake);
    case Writer => WriterCalm(c, s, pc, wake);
    case Progress =>
    case Main => MainCalm(c, s, pc);
    case Caller =>
  }

  lemma StepStaysPeaceful(c: Config, s: State, step: Step)
    requires Structure(c, s) && Peaceful(c, s) && Enabled(c, s, step) && Untroubled(c, step)
    ensures Peaceful(c, Apply(c, s, step))
  {
    if step.Move? {
      OwnCalm(c, s, step.thread, step.slot, step.wake);
    }
  }

  lemma {:induction false} UntroubledRunsArePeaceful(c: Config, run: seq<Step>, s: State)
    requires c.Valid() && Reaches(c, run, s)
    requires forall i :: 0 <= i < |run| ==> Untroubled(c, run[i])
    ensures Peaceful(c, s)
    decreases |run|
  {
    if run != [] {
      var before, step := run[..|run| - 1], run[|run| - 1];
      var p :| Reaches(c, before, p) && Shape(c, p) && Enabled(c, p, step) && s == Apply(c, p, step);
      UntroubledRunsArePeaceful(c, before, p);
      ReachedStatesAreGood(c, before, p);
      StepStaysPeaceful(c, p, step);
    }
  }

  /** Completeness: an untroubled run records no error, and where it can go no further the snapshot is
      complete, with every emission in it exactly once. Together with `EveryRunIsBounded` this says that
      an untroubled backup always ends in a published snapshot. */
  lemma UntroubledRunsPublish(c: Config, run: seq<Step>, s: State)
    requires c.Valid() && Reaches(c, run, s)
    requires forall i :: 0 <= i < |run| ==> Untroubled(c, run[i])
    ensures Shape(c, s) && s.q.error == None && !s.q.stop
    ensures !SomebodyMoves(c, s) ==> s.f.status == Complete && ExactlyOnce(c.plan, s.d.committed)
  {
    UntroubledRunsArePeaceful(c, run, s);
    StuckMeansFinished(c, run, s);
    ReachedStatesAreGood(c, run, s);
    assert Calm(c, s.pcs[Main]);
    if s.f.status == Complete {
      PublicationSafety(c, run, s);
    }
  }
}
