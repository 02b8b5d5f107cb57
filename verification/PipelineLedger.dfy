/** Where every emission of the scanner is: in some thread's hand, in a queue, in the open
    transaction, in the database, or given up. Nothing is lost, duplicated or changed on the way. */
module PipelineLedger {
  import opened Common
  import opened Queues
  import opened Pipeline
  import opened PipelineSafety

  /** How often `x` occurs in `ids`. */
  function Occ(ids: seq<nat>, x: nat): nat {
    if ids == [] then 0 else (if ids[0] == x then 1 else 0) + Occ(ids[1..], x)
  }

  function JobIds(items: seq<Slot<Job>>): seq<nat> {
    seq(|items|, i requires 0 <= i < |items| => items[i].value.id)
  }

  function RowIds(items: seq<Slot<Row>>): seq<nat> {
    seq(|items|, i requires 0 <= i < |items| => items[i].value.id)
  }

  /** The emission a thread holds. */
  function Hand(pc: Pc): seq<nat> {
    if pc.OfferJob? || pc.Busy? then [pc.job.id]
    else if pc.OfferRow? then [pc.slot.value.id]
    else if pc.Insert? then [pc.row.id]
    else []
  }

  ghost function WorkerHands(pcs: map<Thread, Pc>, n: nat, x: nat): nat
    requires forall i: nat :: i < n ==> Worker(i) in pcs
  {
    if n == 0 then 0 else WorkerHands(pcs, n - 1, x) + Occ(Hand(pcs[Worker(n - 1)]), x)
  }

  /** How many threads hold emission `x`. */
  ghost function Held(c: Config, s: State, x: nat): nat
    requires Shape(c, s)
  {
    Occ(Hand(s.pcs[Scanner]), x) + Occ(Hand(s.pcs[Writer]), x) + WorkerHands(s.pcs, c.workerCount, x)
  }

  /** How often emission `x` is in a queue, in the open transaction, in the database or given up. */
  function Stored(q: Wires, d: Ledger, x: nat): nat {
    Occ(JobIds(q.jobs.items), x) + Occ(RowIds(q.results.items), x)
    + Occ(Ids(d.tx), x) + Occ(Ids(d.committed), x) + Occ(d.dropped, x)
  }

  predicate JobOf(c: Config, emitted: nat, j: Job) {
    j.id < emitted <= |c.plan| && j.kind == c.plan[j.id]
  }

  predicate RowOf(c: Config, emitted: nat, r: Row) {
    r.id < emitted <= |c.plan| && MayBecome(c.plan[r.id], r.kind)
  }

  /** What a thread holds is what the scanner emitted. */
  predicate Carries(c: Config, emitted: nat, pc: Pc) {
    && (pc.OfferJob? || pc.Busy? ==> JobOf(c, emitted, pc.job))
    && (pc.OfferRow? ==> RowOf(c, emitted, pc.slot.value))
    && (pc.Insert? ==> RowOf(c, emitted, pc.row))
  }

  ghost predicate StoredFaithfully(c: Config, q: Wires, d: Ledger) {
    && (forall i :: 0 <= i < |q.jobs.items| ==> JobOf(c, d.emitted, q.jobs.items[i].value))
    && (forall i :: 0 <= i < |q.results.items| ==> RowOf(c, d.emitted, q.results.items[i].value))
    && (forall i :: 0 <= i < |d.tx| ==> RowOf(c, d.emitted, d.tx[i]))
    && (forall i :: 0 <= i < |d.committed| ==> RowOf(c, d.emitted, d.committed[i]))
  }

  /** The counters of rows inserted one after the other. */
  function TotalsOf(rows: seq<Row>): Totals {
    if rows == [] then Totals(0, 0, 0, 0, 0, 0, 0) else CountRow(TotalsOf(rows[..|rows| - 1]), rows[|rows| - 1])
  }

  ghost predicate SomebodyFails(s: State) {
    s.q.error.Some? || exists u :: u in s.pcs && s.pcs[u].Shut?
  }

  /** Every emission made so far is in exactly one place, and no other emission is anywhere. */
  ghost predicate Balanced(c: Config, s: State)
    requires Shape(c, s)
  {
    forall x: nat :: Stored(s.q, s.d, x) + Held(c, s, x) == if x < s.d.emitted then 1 else 0
  }

  ghost predicate Unchanged(c: Config, s: State) {
    && (forall u :: u in s.pcs ==> Carries(c, s.d.emitted, s.pcs[u]))
    && StoredFaithfully(c, s.q, s.d)
  }

  predicate Tallied(d: Ledger) {
    d.totals == TotalsOf(d.committed + d.tx)
  }

  ghost predicate Accounted(c: Config, s: State)
    requires Shape(c, s)
  {
    && Balanced(c, s)
    && Unchanged(c, s)
    && (s.d.dropped != [] ==> SomebodyFails(s))
    && (s.q.error.None? && !s.pcs[Writer].Shut? ==> Tallied(s.d))
  }

  // ----- sums and sequences --------------------------------------------------------------------

  lemma {:induction false} OccOfConcat(a: seq<nat>, b: seq<nat>, x: nat)
    ensures Occ(a + b, x) == Occ(a, x) + Occ(b, x)
  {
    if a == [] {
      assert a + b == b;
    } else {
      assert (a + b)[1..] == a[1..] + b;
      OccOfConcat(a[1..], b, x);
    }
  }

  lemma JobsMove(items: seq<Slot<Job>>, slot: Slot<Job>, x: nat)
    ensures Occ(JobIds(items + [slot]), x) == Occ(JobIds(items), x) + Occ([slot.value.id], x)
    ensures items != [] ==> Occ(JobIds(items), x) == Occ([items[0].value.id], x) + Occ(JobIds(items[1..]), x)
  {
    assert JobIds(items + [slot]) == JobIds(items) + [slot.value.id];
    OccOfConcat(JobIds(items), [slot.value.id], x);
    if items != [] {
      assert JobIds(items) == [items[0].value.id] + JobIds(items[1..]);
    }
  }

  lemma RowsMove(items: seq<Slot<Row>>, slot: Slot<Row>, x: nat)
    ensures Occ(RowIds(items + [slot]), x) == Occ(RowIds(items), x) + Occ([slot.value.id], x)
    ensures items != [] ==> Occ(RowIds(items), x) == Occ([items[0].value.id], x) + Occ(RowIds(items[1..]), x)
  {
    assert RowIds(items + [slot]) == RowIds(items) + [slot.value.id];
    OccOfConcat(RowIds(items), [slot.value.id], x);
    if items != [] {
      assert RowIds(items) == [items[0].value.id] + RowIds(items[1..]);
    }
  }

  lemma IdsMove(a: seq<Row>, b: seq<Row>, dropped: seq<nat>, ids: seq<nat>, x: nat)
    ensures Occ(Ids(a + b), x) == Occ(Ids(a), x) + Occ(Ids(b), x)
    ensures Occ(dropped + Ids(b), x) == Occ(dropped, x) + Occ(Ids(b), x)
    ensures Occ(dropped + ids, x) == Occ(dropped, x) + Occ(ids, x)
    ensures Occ(dropped + Ids(b) + ids, x) == Occ(dropped, x) + Occ(Ids(b), x) + Occ(ids, x)
  {
    assert Ids(a + b) == Ids(a) + Ids(b);
    OccOfConcat(Ids(a), Ids(b), x);
    OccOfConcat(dropped, Ids(b), x);
    OccOfConcat(dropped, ids, x);
    OccOfConcat(dropped + Ids(b), ids, x);
  }

  lemma {:induction false} HandsUpdate(pcs: map<Thread, Pc>, n: nat, t: Thread, pc: Pc, x: nat)
    requires t in pcs && forall i: nat :: i < n ==> Worker(i) in pcs
    ensures WorkerHands(pcs[t := pc], n, x) == WorkerHands(pcs, n, x) +
            if t.Worker? && t.index < n then Occ(Hand(pc), x) - Occ(Hand(pcs[t]), x) else 0
  {
    if n > 0 {
      HandsUpdate(pcs, n - 1, t, pc, x);
    }
  }

  // ----- one thread's step ---------------------------------------------------------------------

  /** A step moves emissions only between the stepping thread's hand and the shared state, adding the
      next emission when the scanner makes one. */
  predicate Transfers(s: State, pc: Pc, e: Effect, x: nat) {
    Stored(e.q, e.d, x) + Occ(Hand(e.pc), x) ==
    Stored(s.q, s.d, x) + Occ(Hand(pc), x) + (if e.d.emitted > s.d.emitted && x == s.d.emitted then 1 else 0)
  }

  lemma ShutTransfers(s: State, t: Thread, stage: Stage, x: nat)
    ensures Transfers(s, Shut(stage), ShutAct(s, t, stage), x)
  {
  }

  lemma ScannerTransfers(c: Config, s: State, pc: Pc, ok: bool, wake: Thread, x: nat)
    requires pc.Scan? || pc.FinishScan?
    ensures Transfers(s, pc, ScannerAct(c, s, pc, ok, wake), x)
  {
    assert s.d.dropped + [] == s.d.dropped;
  }

  lemma OfferJobTransfers(c: Config, s: State, job: Job, wake: Thread, x: nat)
    ensures Transfers(s, OfferJob(job), OfferJobAct(c, s, job, wake), x)
  {
    var e := OfferJobAct(c, s, job, wake);
    match DecidePush(c.JobLimits(), s.q.jobs.items, s.q.jobs.closed, 0, s.q.stop)
    case WaitForSpace =>
    case Accept => JobsMove(s.q.jobs.items, Slot(0, job), x);
    case Refuse => OccOfConcat(s.d.dropped, [job.id], x);
  }

  lemma FetchTransfers(s: State, t: Thread, wake: Thread, x: nat)
    ensures Transfers(s, FetchJob, FetchJobAct(s, t, wake), x)
  {
    if s.q.jobs.items != [] {
      JobsMove(s.q.jobs.items, s.q.jobs.items[0], x);
    }
  }

  lemma OfferTransfers(c: Config, s: State, t: Thread, slot: Slot<Row>, wake: Thread, x: nat)
    ensures Transfers(s, OfferRow(slot), OfferRowAct(c, s, t, slot, wake), x)
  {
    match DecidePush(c.resultLimits, s.q.results.items, s.q.results.closed, slot.bytes, s.q.stop)
    case WaitForSpace =>
    case Accept => RowsMove(s.q.results.items, slot, x);
    case Refuse => OccOfConcat(s.d.dropped, [slot.value.id], x);
  }

  lemma WorkerTransfers(c: Config, s: State, t: Thread, pc: Pc, ok: bool, slot: Slot<Row>, wake: Thread, x: nat)
    requires pc.StartWorker? || pc.Busy? || pc.Leave? || pc.CloseLast?
    requires pc.Busy? ==> slot.value.id == pc.job.id
    ensures Transfers(s, pc, WorkerAct(c, s, t, pc, ok, slot, wake), x)
  {
    assert s.d.dropped + [] == s.d.dropped;
    if pc.Busy? {
      OccOfConcat(s.d.dropped, [pc.job.id], x);
    }
  }

  lemma FetchRowTransfers(s: State, wake: Thread, x: nat)
    ensures Transfers(s, FetchRow, FetchRowAct(s, wake), x)
  {
    if s.q.results.items != [] {
      RowsMove(s.q.results.items, s.q.results.items[0], x);
    }
  }

  lemma InsertTransfers(c: Config, s: State, row: Row, ok: bool, wake: Thread, x: nat)
    ensures Transfers(s, Insert(row), WriterAct(c, s, Insert(row), ok, wake), x)
  {
    IdsMove(s.d.tx, [row], s.d.dropped, [], x);
    IdsMove([], s.d.tx, s.d.dropped, [row.id], x);
  }

  lemma CommitTransfers(c: Config, s: State, pc: Pc, ok: bool, wake: Thread, x: nat)
    requires pc.Commit?
    ensures Transfers(s, pc, WriterAct(c, s, pc, ok, wake), x)
  {
    IdsMove(s.d.committed, s.d.tx, s.d.dropped, [], x);
    assert s.d.dropped + Ids(s.d.tx) + [] == s.d.dropped + Ids(s.d.tx);
  }

  lemma LastCommitTransfers(c: Config, s: State, pc: Pc, ok: bool, wake: Thread, x: nat)
    requires pc.LastCommit?
    ensures Transfers(s, pc, WriterAct(c, s, pc, ok, wake), x)
  {
    IdsMove(s.d.committed, s.d.tx, s.d.dropped, [], x);
    assert s.d.dropped + Ids(s.d.tx) + [] == s.d.dropped + Ids(s.d.tx);
  }

  lemma WriterTransfers(c: Config, s: State, pc: Pc, ok: bool, wake: Thread, x: nat)
    requires pc.StartWriter? || pc.Drained?
    ensures Transfers(s, pc, WriterAct(c, s, pc, ok, wake), x)
  {
    IdsMove(s.d.committed, s.d.tx, s.d.dropped, [], x);
    assert s.d.dropped + [] == s.d.dropped;
  }

  lemma ProgressTransfers(s: State, pc: Pc, ok: bool, x: nat)
    requires pc.Report? || pc.Emit?
    ensures Transfers(s, pc, ProgressAct(s, pc, ok), x)
  {
    assert s.d.dropped + [] == s.d.dropped;
  }

  lemma WorkersTransfer(c: Config, s: State, t: Thread, ok: bool, slot: Slot<Row>, wake: Thread, x: nat)
    requires Shape(c, s) && CanMove(c, s, t, slot, wake) && Knows(c, t, s.pcs[t], s.q, s.d) && !s.pcs[t].Shut? && t.Worker?
    ensures Transfers(s, s.pcs[t], WorkerAct(c, s, t, s.pcs[t], ok, slot, wake), x)
  {
    var pc := s.pcs[t];
    if pc.FetchJob? {
      FetchTransfers(s, t, wake, x);
    } else if pc.OfferRow? {
      OfferTransfers(c, s, t, pc.slot, wake, x);
    } else {
      WorkerTransfers(c, s, t, pc, ok, slot, wake, x);
    }
  }

  lemma WritersTransfer(c: Config, s: State, pc: Pc, ok: bool, wake: Thread, x: nat)
    requires pc.StartWriter? || pc.FetchRow? || pc.Insert? || pc.Commit? || pc.Drained? || pc.LastCommit?
    ensures Transfers(s, pc, WriterAct(c, s, pc, ok, wake), x)
  {
    if pc.FetchRow? {
      FetchRowTransfers(s, wake, x);
    } else if pc.Insert? {
      InsertTransfers(c, s, pc.row, ok, wake, x);
    } else if pc.Commit? {
      CommitTransfers(c, s, pc, ok, wake, x);
    } else if pc.LastCommit? {
      LastCommitTransfers(c, s, pc, ok, wake, x);
    } else {
      WriterTransfers(c, s, pc, ok, wake, x);
    }
  }

  lemma ScannersTransfer(c: Config, s: State, pc: Pc, ok: bool, wake: Thread, x: nat)
    requires pc.Scan? || pc.OfferJob? || pc.FinishScan?
    ensures Transfers(s, pc, ScannerAct(c, s, pc, ok, wake), x)
  {
    if pc.OfferJob? {
      OfferJobTransfers(c, s, pc.job, wake, x);
    } else {
      ScannerTransfers(c, s, pc, ok, wake, x);
    }
  }

  lemma MainTransfers(c: Config, s: State, pc: Pc, ok: bool, x: nat)
    requires ScopePosition(pc) || AfterScope(pc)
    ensures Transfers(s, pc, MainAct(c, s, pc, ok), x)
  {
    if AfterScope(pc) {
      PublishFrame(s, pc, ok);
    } else {
      ScopeFrame(c, s, pc, ok);
    }
    assert MainFrame(s, MainAct(c, s, pc, ok));
  }

  lemma OwnTransfers(c: Config, s: State, t: Thread, ok: bool, slot: Slot<Row>, wake: Thread, x: nat)
    requires Shape(c, s) && CanMove(c, s, t, slot, wake) && Knows(c, t, s.pcs[t], s.q, s.d) && !s.pcs[t].Shut?
    ensures Transfers(s, s.pcs[t], OwnAct(c, s, t, s.pcs[t], ok, slot, wake), x)
  {
    var pc := s.pcs[t];
    match t
    case Scanner => ScannersTransfer(c, s, pc, ok, wake, x);
    case Worker(_) => WorkersTransfer(c, s, t, ok, slot, wake, x);
    case Writer => WritersTransfer(c, s, pc, ok, wake, x);
    case Progress => ProgressTransfers(s, pc, ok, x);
    case Main => MainTransfers(c, s, pc, ok, x);
    case Caller =>
  }

  /** What a step puts down is what the scanner emitted, and it gives emissions up only while failing. */
  ghost predicate Faithful(c: Config, s: State, t: Thread, pc: Pc, e: Effect) {
    && s.d.emitted <= e.d.emitted <= s.d.emitted + 1
    && Carries(c, e.d.emitted, e.pc)
    && StoredFaithfully(c, e.q, e.d)
    && (e.d.dropped != s.d.dropped ==> e.q.error.Some? || e.pc.Shut?)
    && (pc.Shut? && !e.pc.Shut? ==> e.q.error.Some?)
    && (t != Writer ==> e.d.tx == s.d.tx && e.d.committed == s.d.committed && e.d.totals == s.d.totals)
    && (s.q.error.Some? ==> e.q.error.Some?)
  }

  ghost predicate Loaded(c: Config, s: State, pc: Pc) {
    && Carries(c, s.d.emitted, pc) && StoredFaithfully(c, s.q, s.d) && s.d.emitted <= |c.plan|
    && (s.q.stop ==> s.q.error.Some?)
  }

  lemma ShutFaithful(c: Config, s: State, t: Thread, stage: Stage)
    requires Loaded(c, s, Shut(stage)) && StageReached(s.q, stage)
    ensures Faithful(c, s, t, Shut(stage), ShutAct(s, t, stage))
  {
  }

  lemma ScannerFaithful(c: Config, s: State, pc: Pc, ok: bool, wake: Thread)
    requires Loaded(c, s, pc) && (pc.Scan? || pc.OfferJob? || pc.FinishScan?)
    ensures Faithful(c, s, Scanner, pc, ScannerAct(c, s, pc, ok, wake))
  {
  }

  lemma OfferFaithful(c: Config, s: State, t: Thread, slot: Slot<Row>, wake: Thread)
    requires Loaded(c, s, OfferRow(slot)) && t.Worker?
    ensures Faithful(c, s, t, OfferRow(slot), OfferRowAct(c, s, t, slot, wake))
  {
  }

  lemma FetchFaithful(c: Config, s: State, t: Thread, wake: Thread)
    requires Loaded(c, s, FetchJob) && t.Worker?
    ensures Faithful(c, s, t, FetchJob, FetchJobAct(s, t, wake))
  {
  }

  lemma WorkerFaithful(c: Config, s: State, t: Thread, pc: Pc, ok: bool, slot: Slot<Row>, wake: Thread)
    requires Loaded(c, s, pc) && (pc.StartWorker? || pc.Busy? || pc.Leave? || pc.CloseLast?) && t.Worker?
    requires pc.Busy? ==> slot.value.id == pc.job.id && MayBecome(pc.job.kind, slot.value.kind)
    ensures Faithful(c, s, t, pc, WorkerAct(c, s, t, pc, ok, slot, wake))
  {
  }

  lemma WriterFaithful(c: Config, s: State, pc: Pc, ok: bool, wake: Thread)
    requires Loaded(c, s, pc)
    requires pc.StartWriter? || pc.FetchRow? || pc.Insert? || pc.Commit? || pc.Drained? || pc.LastCommit?
    ensures Faithful(c, s, Writer, pc, WriterAct(c, s, pc, ok, wake))
  {
  }

  lemma MainFaithful(c: Config, s: State, pc: Pc, ok: bool)
    requires Loaded(c, s, pc) && (ScopePosition(pc) || AfterScope(pc))
    ensures Faithful(c, s, Main, pc, MainAct(c, s, pc, ok))
  {
    if AfterScope(pc) {
      PublishFrame(s, pc, ok);
    } else {
      ScopeFrame(c, s, pc, ok);
    }
    assert MainFrame(s, MainAct(c, s, pc, ok));
  }

  lemma ProgressFaithful(c: Config, s: State, pc: Pc, ok: bool)
    requires Loaded(c, s, pc) && (pc.Report? || pc.Emit?)
    ensures Faithful(c, s, Progress, pc, ProgressAct(s, pc, ok))
  {
  }

  lemma WorkersFaithful(c: Config, s: State, t: Thread, ok: bool, slot: Slot<Row>, wake: Thread)
    requires Shape(c, s) && CanMove(c, s, t, slot, wake) && Knows(c, t, s.pcs[t], s.q, s.d) && !s.pcs[t].Shut?
    requires Loaded(c, s, s.pcs[t]) && t.Worker?
    ensures Faithful(c, s, t, s.pcs[t], WorkerAct(c, s, t, s.pcs[t], ok, slot, wake))
  {
    var pc := s.pcs[t];
    if pc.FetchJob? {
      FetchFaithful(c, s, t, wake);
    } else if pc.OfferRow? {
      OfferFaithful(c, s, t, pc.slot, wake);
    } else {
      WorkerFaithful(c, s, t, pc, ok, slot, wake);
    }
  }

  lemma OwnFaithful(c: Config, s: State, t: Thread, ok: bool, slot: Slot<Row>, wake: Thread)
    requires Shape(c, s) && CanMove(c, s, t, slot, wake) && Knows(c, t, s.pcs[t], s.q, s.d) && !s.pcs[t].Shut?
    requires Loaded(c, s, s.pcs[t])
    ensures Faithful(c, s, t, s.pcs[t], OwnAct(c, s, t, s.pcs[t], ok, slot, wake))
  {
    var pc := s.pcs[t];
    match t
    case Scanner => ScannerFaithful(c, s, pc, ok, wake);
    case Worker(_) => WorkersFaithful(c, s, t, ok, slot, wake);
    case Writer => WriterFaithful(c, s, pc, ok, wake);
    case Progress => ProgressFaithful(c, s, pc, ok);
    case Main => MainFaithful(c, s, pc, ok);
    case Caller =>
  }

  lemma ActFaithful(c: Config, s: State, t: Thread, ok: bool, slot: Slot<Row>, wake: Thread)
    requires Shape(c, s) && CanMove(c, s, t, slot, wake) && Knows(c, t, s.pcs[t], s.q, s.d)
    requires Loaded(c, s, s.pcs[t])
    ensures Faithful(c, s, t, s.pcs[t], Act(c, s, t, s.pcs[t], ok, slot, wake))
  {
    if s.pcs[t].Shut? {
      ShutFaithful(c, s, t, s.pcs[t].stage);
    } else {
      OwnFaithful(c, s, t, ok, slot, wake);
    }
  }

  lemma ActTransfers(c: Config, s: State, t: Thread, ok: bool, slot: Slot<Row>, wake: Thread, x: nat)
    requires Shape(c, s) && CanMove(c, s, t, slot, wake) && Knows(c, t, s.pcs[t], s.q, s.d)
    ensures Transfers(s, s.pcs[t], Act(c, s, t, s.pcs[t], ok, slot, wake), x)
  {
    if s.pcs[t].Shut? {
      ShutTransfers(s, t, s.pcs[t].stage, x);
    } else {
      OwnTransfers(c, s, t, ok, slot, wake, x);
    }
  }

  /** The in-memory counters follow the rows through insertions and commits. */
  lemma WriterCounts(c: Config, s: State, pc: Pc, ok: bool, wake: Thread)
    requires Tallied(s.d) && (s.q.stop ==> s.q.error.Some?)
    requires pc.StartWriter? || pc.FetchRow? || pc.Insert? || pc.Commit? || pc.Drained? || pc.LastCommit?
    ensures var e := WriterAct(c, s, pc, ok, wake);
            e.pc.Shut? || e.q.error.Some? || Tallied(e.d)
  {
    if pc.Insert? {
      var rows := s.d.committed + (s.d.tx + [pc.row]);
      assert rows[..|rows| - 1] == s.d.committed + s.d.tx && rows[|rows| - 1] == pc.row;
    }
    assert s.d.committed + s.d.tx + [] == s.d.committed + s.d.tx;
  }

  // ----- all threads ---------------------------------------------------------------------------

  lemma HeldAfter(c: Config, s: State, t: Thread, e: Effect, x: nat)
    requires Shape(c, s) && t in s.pcs
    requires t == Progress || t == Main || t == Caller ==> Hand(s.pcs[t]) == [] && Hand(e.pc) == []
    ensures Shape(c, After(s, t, e)) && Held(c, After(s, t, e), x) == Held(c, s, x) - Occ(Hand(s.pcs[t]), x) + Occ(Hand(e.pc), x)
  {
    HandsUpdate(s.pcs, c.workerCount, t, e.pc, x);
  }

  lemma BalancedAfter(c: Config, s: State, t: Thread, e: Effect)
    requires Shape(c, s) && Balanced(c, s) && t in s.pcs && s.d.emitted <= e.d.emitted <= s.d.emitted + 1
    requires forall x: nat :: Transfers(s, s.pcs[t], e, x)
    requires t == Progress || t == Main || t == Caller ==> Hand(s.pcs[t]) == [] && Hand(e.pc) == []
    ensures Shape(c, After(s, t, e)) && Balanced(c, After(s, t, e))
  {
    var s' := After(s, t, e);
    assert Shape(c, s');
    forall x: nat
      ensures Stored(s'.q, s'.d, x) + Held(c, s', x) == if x < s'.d.emitted then 1 else 0
    {
      HeldAfter(c, s, t, e, x);
      assert Transfers(s, s.pcs[t], e, x);
      assert Stored(s.q, s.d, x) + Held(c, s, x) == if x < s.d.emitted then 1 else 0;
    }
  }

  lemma UnchangedAfter(c: Config, s: State, t: Thread, e: Effect)
    requires Shape(c, s) && Unchanged(c, s) && t in s.pcs && Faithful(c, s, t, s.pcs[t], e) && e.d.emitted <= |c.plan|
    ensures Unchanged(c, After(s, t, e))
  {
    var s' := After(s, t, e);
    forall u | u in s'.pcs
      ensures Carries(c, s'.d.emitted, s'.pcs[u])
    {
      assert Carries(c, s.d.emitted, s.pcs[u]);
    }
  }

  lemma FailingAfter(c: Config, s: State, t: Thread, e: Effect)
    requires Shape(c, s) && t in s.pcs && (s.d.dropped != [] ==> SomebodyFails(s)) && Faithful(c, s, t, s.pcs[t], e)
    ensures After(s, t, e).d.dropped != [] ==> SomebodyFails(After(s, t, e))
  {
    var s' := After(s, t, e);
    if s'.d.dropped != [] && e.q.error.None? {
      if e.d.dropped != s.d.dropped {
        assert s'.pcs[t].Shut?;
      } else {
        var u :| u in s.pcs && s.pcs[u].Shut?;
        assert s'.pcs[u].Shut?;
      }
    }
  }

  predicate NoHand(t: Thread) {
    t == Progress || t == Main || t == Caller
  }

  lemma EmptyHands(c: Config, t: Thread, pc: Pc, q: Wires, d: Ledger)
    requires Knows(c, t, pc, q, d) && NoHand(t)
    ensures Hand(pc) == []
  {
  }

  lemma MoveKeepsTally(c: Config, s: State, t: Thread, ok: bool, slot: Slot<Row>, wake: Thread)
    requires Structure(c, s) && Accounted(c, s) && CanMove(c, s, t, slot, wake)
    requires Faithful(c, s, t, s.pcs[t], Act(c, s, t, s.pcs[t], ok, slot, wake))
    ensures var s' := After(s, t, Act(c, s, t, s.pcs[t], ok, slot, wake));
            s'.q.error.None? && !s'.pcs[Writer].Shut? ==> Tallied(s'.d)
  {
    if t == Writer && !s.pcs[t].Shut? && s.q.error.None? {
      assert Knows(c, t, s.pcs[t], s.q, s.d);
      WriterCounts(c, s, s.pcs[t], ok, wake);
    }
  }

  lemma MoveKeepsAccount(c: Config, s: State, t: Thread, ok: bool, slot: Slot<Row>, wake: Thread)
    requires c.Valid() && Structure(c, s) && Accounted(c, s) && CanMove(c, s, t, slot, wake)
    ensures Shape(c, After(s, t, Act(c, s, t, s.pcs[t], ok, slot, wake)))
    ensures Accounted(c, After(s, t, Act(c, s, t, s.pcs[t], ok, slot, wake)))
  {
    var pc := s.pcs[t];
    var e := Act(c, s, t, pc, ok, slot, wake);
    assert Knows(c, t, pc, s.q, s.d) && Carries(c, s.d.emitted, pc);
    ActFaithful(c, s, t, ok, slot, wake);
    MoveKeepsTally(c, s, t, ok, slot, wake);
    ActStep(c, s, t, ok, slot, wake);
    MoveAccounted(c, s, t, ok, slot, wake, e);
  }

  lemma MoveAccounted(c: Config, s: State, t: Thread, ok: bool, slot: Slot<Row>, wake: Thread, e: Effect)
    requires Shape(c, s) && Accounted(c, s) && CanMove(c, s, t, slot, wake)
    requires e == Act(c, s, t, s.pcs[t], ok, slot, wake) && Faithful(c, s, t, s.pcs[t], e) && e.d.emitted <= |c.plan|
    requires Knows(c, t, s.pcs[t], s.q, s.d) && Knows(c, t, e.pc, e.q, e.d)
    requires var s' := After(s, t, e); Writer in s'.pcs && (s'.q.error.None? && !s'.pcs[Writer].Shut? ==> Tallied(s'.d))
    ensures Shape(c, After(s, t, e)) && Accounted(c, After(s, t, e))
  {
    forall x: nat
      ensures Transfers(s, s.pcs[t], e, x)
    {
      ActTransfers(c, s, t, ok, slot, wake, x);
    }
    if NoHand(t) {
      EmptyHands(c, t, s.pcs[t], s.q, s.d);
      EmptyHands(c, t, e.pc, e.q, e.d);
    }
    BalancedAfter(c, s, t, e);
    UnchangedAfter(c, s, t, e);
    FailingAfter(c, s, t, e);
  }

  lemma CallerAccounted(c: Config, s: State, e: Effect)
    requires Shape(c, s) && Accounted(c, s) && e.q == s.q && e.d == s.d && Hand(s.pcs[Caller]) == [] && Hand(e.pc) == []
    requires Carries(c, s.d.emitted, e.pc) && !s.pcs[Caller].Shut? && s.d.emitted <= |c.plan|
    ensures Shape(c, After(s, Caller, e)) && Accounted(c, After(s, Caller, e))
  {
    BalancedAfter(c, s, Caller, e);
    UnchangedAfter(c, s, Caller, e);
    FailingAfter(c, s, Caller, e);
  }

  lemma SpuriousAccounted(c: Config, s: State, q: Wires)
    requires Shape(c, s) && Accounted(c, s)
    requires q.jobs.items == s.q.jobs.items && q.results.items == s.q.results.items && q.error == s.q.error
    ensures Shape(c, s.(q := q)) && Accounted(c, s.(q := q))
  {
    var s' := s.(q := q);
    forall x: nat
      ensures Stored(s'.q, s'.d, x) + Held(c, s', x) == if x < s'.d.emitted then 1 else 0
    {
      assert Stored(s.q, s.d, x) + Held(c, s, x) == if x < s.d.emitted then 1 else 0;
    }
  }

  lemma ExternalAccounted(c: Config, s: State)
    requires Structure(c, s) && Accounted(c, s) && !s.f.external
    ensures Shape(c, Apply(c, s, ExternalStop)) && Accounted(c, Apply(c, s, ExternalStop))
  {
    CallerAccounted(c, s, Effect(Apply(c, s, ExternalStop).pcs[Caller], s.q, s.d, s.f.(external := true)));
  }

  /** Every step keeps the account. */
  lemma StepKeepsAccount(c: Config, s: State, step: Step)
    requires c.Valid() && Structure(c, s) && Accounted(c, s) && Enabled(c, s, step)
    ensures Shape(c, Apply(c, s, step)) && Accounted(c, Apply(c, s, step))
  {
    match step
    case Move(t, ok, slot, wake) => MoveKeepsAccount(c, s, t, ok, slot, wake);
    case ExternalStop => ExternalAccounted(c, s);
    case SpuriousWakeup(onResults, t) => SpuriousAccounted(c, s, Apply(c, s, step).q);
  }

  lemma {:induction false} InitialHands(c: Config, n: nat, x: nat)
    requires n <= c.workerCount
    ensures WorkerHands(Init(c).pcs, n, x) == 0
  {
    if n > 0 {
      InitialHands(c, n - 1, x);
    }
  }

  lemma InitAccounted(c: Config)
    requires c.Valid()
    ensures Shape(c, Init(c)) && Accounted(c, Init(c))
  {
    InitHasStructure(c);
    var s := Init(c);
    forall x: nat
      ensures Stored(s.q, s.d, x) + Held(c, s, x) == 0
    {
      InitialHands(c, c.workerCount, x);
    }
  }
}
