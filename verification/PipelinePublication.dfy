/** Safety of publication over whole runs. */
module PipelinePublication {
  import opened Common
  import opened Queues
  import opened Pipeline
  import opened PipelineSafety
  import opened PipelineLedger

  ghost predicate Invariant(c: Config, s: State) {
    Structure(c, s) && Accounted(c, s)
  }

  lemma StepKeepsInvariant(c: Config, s: State, step: Step)
    requires c.Valid() && Invariant(c, s) && Enabled(c, s, step)
    ensures Invariant(c, Apply(c, s, step))
  {
    StepKeepsStructure(c, s, step);
    StepKeepsAccount(c, s, step);
  }

  /** The invariant holds in every state of every run. */
  lemma {:induction false} ReachedStatesAreGood(c: Config, run: seq<Step>, s: State)
    requires c.Valid() && Reaches(c, run, s)
    ensures Invariant(c, s)
    decreases |run|
  {
    if run == [] {
      InitHasStructure(c);
      InitAccounted(c);
    } else {
      var p :| Reaches(c, run[..|run| - 1], p) && Shape(c, p) && Enabled(c, p, run[|run| - 1]) && s == Apply(c, p, run[|run| - 1]);
      ReachedStatesAreGood(c, run[..|run| - 1], p);
      StepKeepsInvariant(c, p, run[|run| - 1]);
    }
  }

  // ----- from occurrences to a one-to-one correspondence ---------------------------------------

  lemma {:induction false} OccPositive(ids: seq<nat>, i: nat)
    requires i < |ids|
    ensures Occ(ids, ids[i]) >= 1
  {
    if i > 0 {
      OccPositive(ids[1..], i - 1);
    }
  }

  lemma {:induction false} OccFinds(ids: seq<nat>, x: nat) returns (i: nat)
    requires Occ(ids, x) >= 1
    ensures i < |ids| && ids[i] == x
  {
    if ids[0] == x {
      i := 0;
    } else {
      i := OccFinds(ids[1..], x);
      i := i + 1;
    }
  }

  lemma {:induction false} OccUnique(ids: seq<nat>, i: nat, j: nat)
    requires i < j < |ids| && ids[i] == ids[j]
    ensures Occ(ids, ids[i]) >= 2
  {
    assert ids == ids[..j] + ids[j..];
    OccOfConcat(ids[..j], ids[j..], ids[i]);
    OccPositive(ids[..j], i);
    OccPositive(ids[j..], 0);
  }

  /** A sequence in which each of 0..n-1 occurs once, and nothing else, has length n. */
  lemma {:induction false} OnceEachLength(ids: seq<nat>, n: nat)
    requires forall x: nat :: Occ(ids, x) == if x < n then 1 else 0
    ensures |ids| == n
  {
    if n == 0 {
      if ids != [] {
        OccPositive(ids, 0);
      }
    } else {
      var i := OccFinds(ids, n - 1);
      var rest := ids[..i] + ids[i + 1..];
      assert ids == ids[..i] + [n - 1] + ids[i + 1..];
      forall x: nat
        ensures Occ(rest, x) == if x < n - 1 then 1 else 0
      {
        OccOfConcat(ids[..i] + [n - 1], ids[i + 1..], x);
        OccOfConcat(ids[..i], [n - 1], x);
        OccOfConcat(ids[..i], ids[i + 1..], x);
        assert Occ([n - 1], x) == if x == n - 1 then 1 else 0;
      }
      OnceEachLength(rest, n - 1);
    }
  }

  /** The rows of `rows` correspond one-to-one to the emissions of `plan`, each row being its
      emission or, for a file, the warning that replaced it. */
  ghost predicate ExactlyOnce(plan: seq<Kind>, rows: seq<Row>) {
    && |rows| == |plan|
    && (forall i :: 0 <= i < |rows| ==> rows[i].id < |plan| && MayBecome(plan[rows[i].id], rows[i].kind))
    && (forall i, j :: 0 <= i < j < |rows| ==> rows[i].id != rows[j].id)
    && (forall k: nat :: k < |plan| ==> HasRow(rows, k))
  }

  ghost predicate HasRow(rows: seq<Row>, k: nat) {
    exists i :: 0 <= i < |rows| && rows[i].id == k
  }

  lemma OnceEach(c: Config, rows: seq<Row>)
    requires forall x: nat :: Occ(Ids(rows), x) == if x < |c.plan| then 1 else 0
    requires forall i :: 0 <= i < |rows| ==> RowOf(c, |c.plan|, rows[i])
    ensures ExactlyOnce(c.plan, rows)
  {
    OnceEachLength(Ids(rows), |c.plan|);
    forall i, j | 0 <= i < j < |rows|
      ensures rows[i].id != rows[j].id
    {
      if rows[i].id == rows[j].id {
        OccUnique(Ids(rows), i, j);
      }
    }
    forall k: nat | k < |c.plan|
      ensures HasRow(rows, k)
    {
      var i := OccFinds(Ids(rows), k);
      assert rows[i].id == k;
    }
  }

  // ----- publication ---------------------------------------------------------------------------

  ghost predicate AllDone(c: Config, s: State)
    requires Shape(c, s)
  {
    s.pcs[Scanner] == Done && s.pcs[Writer] == Done && s.pcs[Progress] == Done &&
    forall i: nat :: i < c.workerCount ==> s.pcs[Worker(i)] == Done
  }

  /** While publication is under way every thread has been started, has run to its end and been joined. */
  lemma PublishingAllDone(c: Config, s: State)
    requires c.Valid() && Structure(c, s) && Publishing(s.pcs[Main])
    ensures AllDone(c, s) && !s.q.stop
  {
    forall t | t == Scanner || t == Writer || (t.Worker? && t.index < c.workerCount)
      ensures s.pcs[t] == Done
    {
      var k := JoinOrder(c, t);
      assert Finished(c, s, ThreadToJoin(c, k));
    }
  }

  lemma {:induction false} NoHands(c: Config, s: State, n: nat, x: nat)
    requires Shape(c, s) && AllDone(c, s) && n <= c.workerCount
    ensures WorkerHands(s.pcs, n, x) == 0
  {
    if n > 0 {
      NoHands(c, s, n - 1, x);
    }
  }

  lemma PublishingAccount(c: Config, s: State)
    requires c.Valid() && Invariant(c, s) && Publishing(s.pcs[Main])
    ensures s.d.tx == [] && s.d.emitted == |c.plan| && s.d.dropped == []
    ensures ExactlyOnce(c.plan, s.d.committed) && s.d.totals == TotalsOf(s.d.committed)
  {
    PublishingAllDone(c, s);
    assert Knows(c, Scanner, Done, s.q, s.d);
    assert Knows(c, Worker(0), s.pcs[Worker(0)], s.q, s.d);
    assert Knows(c, Writer, Done, s.q, s.d);
    assert forall u :: u in s.pcs ==> !s.pcs[u].Shut?;
    forall x: nat
      ensures Occ(Ids(s.d.committed), x) == if x < |c.plan| then 1 else 0
    {
      NoHands(c, s, c.workerCount, x);
      assert Stored(s.q, s.d, x) + Held(c, s, x) == if x < s.d.emitted then 1 else 0;
    }
    OnceEach(c, s.d.committed);
    assert s.d.committed + s.d.tx == s.d.committed;
  }

  /** A snapshot becomes `complete` only in runs where no error or stop was recorded, every thread ran
      to its end and was joined, and nothing is left in the open transaction. Its committed rows then
      correspond one-to-one to the scanner's emissions, and the counters kept in memory are the ones
      that those rows add up to: for all interleavings, failures, capacities and batch limits. */
  lemma PublicationSafety(c: Config, run: seq<Step>, s: State)
    requires c.Valid() && Reaches(c, run, s) && s.f.status == Complete
    ensures s.q.error == None && !s.q.stop && Shape(c, s) && AllDone(c, s)
    ensures s.d.tx == [] && ExactlyOnce(c.plan, s.d.committed) && s.d.totals == TotalsOf(s.d.committed)
  {
    ReachedStatesAreGood(c, run, s);
    PublishingAllDone(c, s);
    PublishingAccount(c, s);
  }

  /** After publication no thread of the engine can move. */
  lemma CompleteIsStill(c: Config, s: State, t: Thread, slot: Slot<Row>, wake: Thread)
    requires c.Valid() && Structure(c, s) && s.f.status == Complete
    ensures !CanMove(c, s, t, slot, wake)
  {
    if t != Main {
      AloneAfterScope(c, s, t, slot, wake);
    }
  }

  /** Whatever happens after publication, the snapshot and its rows stay as they are. */
  lemma CompleteIsFinal(c: Config, s: State, step: Step)
    requires c.Valid() && Invariant(c, s) && s.f.status == Complete && Enabled(c, s, step)
    ensures var s' := Apply(c, s, step); s'.f.status == Complete && s'.d == s.d && s'.q.error == None && !s'.q.stop
  {
    if step.Move? {
      CompleteIsStill(c, s, step.thread, step.slot, step.wake);
    }
  }

  /** In every run, whether it fails or not, no emission is ever stored twice or invented: the
      committed rows carry distinct emissions of the scanner, each as emitted. */
  lemma NeverTwice(c: Config, run: seq<Step>, s: State)
    requires c.Valid() && Reaches(c, run, s)
    ensures forall i, j :: 0 <= i < j < |s.d.committed| ==> s.d.committed[i].id != s.d.committed[j].id
    ensures forall i :: 0 <= i < |s.d.committed| ==> RowOf(c, s.d.emitted, s.d.committed[i])
  {
    ReachedStatesAreGood(c, run, s);
    forall i, j | 0 <= i < j < |s.d.committed|
      ensures s.d.committed[i].id != s.d.committed[j].id
    {
      var x := s.d.committed[i].id;
      assert Stored(s.q, s.d, x) + Held(c, s, x) == if x < s.d.emitted then 1 else 0;
      if x == s.d.committed[j].id {
        OccUnique(Ids(s.d.committed), i, j);
      }
    }
  }
}
