/** Crash recovery: what it is to have recovered, that every transaction of a recovery leads there, and
    the code that does it. */
module Recovery {
  import opened Common
  import opened Metadata

  // ----- the recovered database ----------------------------------------------------------------

  /** Rows of a snapshot that is not complete are to go. */
  predicate Kept(db: Db, id: nat) {
    id in db.snapshots ==> db.snapshots[id].status == Complete
  }

  function Settled(row: SnapshotRow): SnapshotRow {
    if row.status == Pending then Interrupted(row) else row
  }

  /** What a whole recovery makes of a database: interrupted snapshots have failed, those being deleted
      are gone, and neither these nor failed or cancelled ones have any rows left. */
  function Recovered(db: Db): Db {
    db.(snapshots := map id | id in db.snapshots && db.snapshots[id].status != Deleting :: Settled(db.snapshots[id]),
        entries := map e | e in db.entries && Kept(db, db.entries[e].snapshot) :: db.entries[e],
        warnings := map w | w in db.warnings && Kept(db, db.warnings[w].snapshot) :: db.warnings[w],
        mappings := map m | m in db.mappings && (m.0 in db.entries ==> Kept(db, db.entries[m.0].snapshot)) :: db.mappings[m])
  }

  predicate Unfinished(status: Status) {
    status == Failed || status == Cancelled || status == Deleting
  }

  predicate IsUnfinished(db: Db, id: nat) {
    id in db.snapshots && Unfinished(db.snapshots[id].status)
  }

  function Trim(db: Db, entries: set<nat>, warnings: set<nat>): Db {
    WithoutWarnings(WithoutEntries(db, entries), warnings)
  }

  /** The transactions that a recovery is made of. */
  datatype Cleaning = Fail(id: nat) | Trimming(id: nat, entries: set<nat>, warnings: set<nat>) | Remove(id: nat)

  predicate CanClean(db: Db, step: Cleaning) {
    match step
    case Fail(id) => HasStatus(db, id, Pending)
    case Trimming(id, entries, warnings) => IsUnfinished(db, id) && entries <= EntriesOf(db, id) && warnings <= WarningsOf(db, id)
    case Remove(id) => HasStatus(db, id, Deleting)
  }

  function Clean(db: Db, step: Cleaning): Db
    requires CanClean(db, step)
  {
    match step
    case Fail(id) => SetStatus(db, id, Interrupted(db.snapshots[id]))
    case Trimming(_, entries, warnings) => Trim(db, entries, warnings)
    case Remove(id) => WithoutSnapshot(db, id)
  }

  predicate CheckPasses(db: Db) {
    && ForeignKeys(db)
    && (forall id :: id in db.snapshots ==> db.snapshots[id].status != Pending && db.snapshots[id].status != Deleting)
    && (forall e :: e in db.entries ==> !HasStatus(db, db.entries[e].snapshot, Failed) && !HasStatus(db, db.entries[e].snapshot, Cancelled))
    && (forall w :: w in db.warnings ==> !HasStatus(db, db.warnings[w].snapshot, Failed) && !HasStatus(db, db.warnings[w].snapshot, Cancelled))
    && ProperlyHashed(db)
  }

  // ----- every transaction leads there ---------------------------------------------------------

  predicate StaysSnapshot(db: Db, id: nat) {
    id in db.snapshots && db.snapshots[id].status != Deleting
  }

  predicate StaysEntry(db: Db, e: nat) {
    e in db.entries && Kept(db, db.entries[e].snapshot)
  }

  predicate StaysWarning(db: Db, w: nat) {
    w in db.warnings && Kept(db, db.warnings[w].snapshot)
  }

  predicate StaysMapping(db: Db, m: (nat, nat)) {
    m in db.mappings && (m.0 in db.entries ==> Kept(db, db.entries[m.0].snapshot))
  }

  lemma SameRecovered(a: Db, b: Db)
    requires a.chunks == b.chunks && a.lastSnapshot == b.lastSnapshot && a.lastEntry == b.lastEntry && a.lastWarning == b.lastWarning
    requires forall id :: (StaysSnapshot(a, id) <==> StaysSnapshot(b, id)) && (StaysSnapshot(a, id) ==> Settled(a.snapshots[id]) == Settled(b.snapshots[id]))
    requires forall e :: (StaysEntry(a, e) <==> StaysEntry(b, e)) && (StaysEntry(a, e) ==> a.entries[e] == b.entries[e])
    requires forall w :: (StaysWarning(a, w) <==> StaysWarning(b, w)) && (StaysWarning(a, w) ==> a.warnings[w] == b.warnings[w])
    requires forall m :: (StaysMapping(a, m) <==> StaysMapping(b, m)) && (StaysMapping(a, m) ==> a.mappings[m] == b.mappings[m])
    ensures Recovered(a) == Recovered(b)
  {
    var r, s := Recovered(a), Recovered(b);
    assert r.snapshots == s.snapshots by {
      assert forall id :: id in r.snapshots <==> StaysSnapshot(a, id);
      assert forall id :: id in s.snapshots <==> StaysSnapshot(b, id);
    }
    assert r.entries == s.entries by {
      assert forall e :: e in r.entries <==> StaysEntry(a, e);
      assert forall e :: e in s.entries <==> StaysEntry(b, e);
    }
    assert r.warnings == s.warnings by {
      assert forall w :: w in r.warnings <==> StaysWarning(a, w);
      assert forall w :: w in s.warnings <==> StaysWarning(b, w);
    }
    assert r.mappings == s.mappings by {
      assert forall m :: m in r.mappings <==> StaysMapping(a, m);
      assert forall m :: m in s.mappings <==> StaysMapping(b, m);
    }
  }

  lemma TrimLeadsThere(db: Db, id: nat, entries: set<nat>, warnings: set<nat>)
    requires CanClean(db, Trimming(id, entries, warnings))
    ensures Recovered(Trim(db, entries, warnings)) == Recovered(db)
  {
    assert forall e :: e in entries ==> e in db.entries && db.entries[e].snapshot == id;
    assert forall w :: w in warnings ==> w in db.warnings && db.warnings[w].snapshot == id;
    SameRecovered(Trim(db, entries, warnings), db);
  }

  lemma FailLeadsThere(db: Db, id: nat)
    requires HasStatus(db, id, Pending)
    ensures Recovered(Clean(db, Fail(id))) == Recovered(db)
  {
    var db' := Clean(db, Fail(id));
    assert forall i :: Kept(db', i) <==> Kept(db, i);
    SameRecovered(db', db);
  }

  lemma RemoveLeadsThere(db: Db, id: nat)
    requires HasStatus(db, id, Deleting)
    ensures Recovered(Clean(db, Remove(id))) == Recovered(db)
  {
    assert forall e :: e in EntriesOf(db, id) <==> e in db.entries && db.entries[e].snapshot == id;
    assert forall w :: w in WarningsOf(db, id) <==> w in db.warnings && db.warnings[w].snapshot == id;
    SameRecovered(Clean(db, Remove(id)), db);
  }

  /** Convergence: no transaction of a recovery changes where the recovery leads. So however often it is
      interrupted and begun again, it ends in the same database. */
  lemma CleaningConverges(db: Db, step: Cleaning)
    requires CanClean(db, step)
    ensures Recovered(Clean(db, step)) == Recovered(db)
  {
    match step
    case Fail(id) => FailLeadsThere(db, id);
    case Trimming(id, entries, warnings) => TrimLeadsThere(db, id, entries, warnings);
    case Remove(id) => RemoveLeadsThere(db, id);
  }

  lemma RecoveryIsIdempotent(db: Db)
    requires ForeignKeys(db)
    ensures Recovered(Recovered(db)) == Recovered(db)
  {
    var r := Recovered(db);
    forall id
      ensures (StaysSnapshot(r, id) <==> StaysSnapshot(db, id)) && (StaysSnapshot(r, id) ==> Settled(r.snapshots[id]) == Settled(db.snapshots[id]))
    {
    }
    assert forall e :: StaysEntry(r, e) <==> StaysEntry(db, e);
    SameRecovered(r, db);
  }

  /** A recovered database has no snapshot pending or being deleted and no row of an unsuccessful one. */
  lemma RecoveredIsClean(db: Db)
    requires ForeignKeys(db)
    ensures var r := Recovered(db);
            && ForeignKeys(r)
            && forall id :: id in r.snapshots ==>
                 match r.snapshots[id].status
                 case Complete => true
                 case Failed => EntriesOf(r, id) == {} && WarningsOf(r, id) == {}
                 case Cancelled => EntriesOf(r, id) == {} && WarningsOf(r, id) == {}
                 case _ => false
  {
  }

  /** What recovery makes of the row of snapshot `id`: a pending one has failed, with the message that says
      so and the counters it had; one being deleted is gone; all others stay; and no row is new. */
  predicate RowRecovered(db: Db, r: Db, id: nat) {
    if id !in db.snapshots || db.snapshots[id].status == Deleting then id !in r.snapshots
    else
      && id in r.snapshots
      && var row, now := db.snapshots[id], r.snapshots[id];
         if row.status == Pending then
           now.status == Failed && now.failure == Some(INTERRUPTED) && now.counts == row.counts && now.chunkCounts == row.chunkCounts
         else now == row
  }

  /** Row by row, for the whole recovery and for every transaction that begins it: none undoes what the
      rest of the recovery then makes of a row. */
  lemma RecoveryRowByRow(db: Db, id: nat)
    ensures RowRecovered(db, Recovered(db), id)
    ensures forall step :: CanClean(db, step) ==> RowRecovered(db, Recovered(Clean(db, step)), id)
  {
    forall step | CanClean(db, step)
      ensures RowRecovered(db, Recovered(Clean(db, step)), id)
    {
      CleaningConverges(db, step);
    }
  }

  predicate ProperlyHashed(db: Db) {
    forall e :: e in db.entries && HasStatus(db, db.entries[e].snapshot, Complete) && db.entries[e].kind == Regular ==>
      db.entries[e].fileHash.Some? && IsHash(db.entries[e].fileHash.value)
  }

  /** It passes the relationship check exactly if the files of complete snapshots have their hashes. */
  lemma RecoveredPassesIff(db: Db)
    requires ForeignKeys(db)
    ensures CheckPasses(Recovered(db)) <==> ProperlyHashed(db)
  {
    RecoveredIsClean(db);
    RecoveredHashes(db);
  }

  lemma RecoveredHashes(db: Db)
    requires ForeignKeys(db)
    ensures ProperlyHashed(Recovered(db)) <==> ProperlyHashed(db)
  {
    var r := Recovered(db);
    assert forall e :: e in r.entries <==> StaysEntry(db, e);
    assert forall e :: StaysEntry(db, e) ==> r.entries[e] == db.entries[e] && HasStatus(r, db.entries[e].snapshot, Complete);
  }

  /** What the check says of any database: it passes exactly if the references resolve, the files of
      complete snapshots have their hashes, and a recovery would find nothing to do. */
  lemma CheckPassesIff(db: Db)
    ensures CheckPasses(db) <==> ForeignKeys(db) && ProperlyHashed(db) && Recovered(db) == db
  {
    if CheckPasses(db) {
      var r := Recovered(db);
      assert r.snapshots == db.snapshots && r.entries == db.entries && r.warnings == db.warnings && r.mappings == db.mappings;
    }
    if ForeignKeys(db) && Recovered(db) == db {
      RecoveredIsClean(db);
      RecoveredPassesIff(db);
    }
  }

  lemma KeptIsComplete(db: Db)
    requires ForeignKeys(db)
    ensures forall i :: HasStatus(Recovered(db), i, Complete) <==> HasStatus(db, i, Complete)
    ensures forall e :: e in Recovered(db).entries <==> e in db.entries && HasStatus(db, db.entries[e].snapshot, Complete)
    ensures forall w :: w in Recovered(db).warnings <==> w in db.warnings && HasStatus(db, db.warnings[w].snapshot, Complete)
  {
  }

  lemma ListedChunksStay(db: Db, e: nat)
    requires ForeignKeys(db)
    ensures ListChunks(Recovered(db), e) == ListChunks(db, e)
  {
    KeptIsComplete(db);
  }

  lemma ListedEntriesStay(db: Db, id: nat)
    requires ForeignKeys(db)
    ensures ListEntries(Recovered(db), id) == ListEntries(db, id)
  {
    KeptIsComplete(db);
  }

  lemma CompleteStays(db: Db, id: nat)
    requires ForeignKeys(db) && HasStatus(db, id, Complete)
    ensures SameSnapshot(db, Recovered(db), id)
  {
    var r := Recovered(db);
    KeptIsComplete(db);
    assert forall e :: e in EntriesOf(db, id) <==> e in db.entries && db.entries[e].snapshot == id;
    assert EntriesOf(r, id) == EntriesOf(db, id);
  }

  /** Recovery changes nothing of a complete snapshot, no chunk row, and nothing a reader sees. */
  lemma RecoveryKeepsWhatIsComplete(db: Db, id: nat)
    requires ForeignKeys(db)
    ensures Recovered(db).chunks == db.chunks
    ensures HasStatus(db, id, Complete) ==> SameSnapshot(db, Recovered(db), id)
    ensures ListEntries(Recovered(db), id) == ListEntries(db, id)
    ensures forall e :: ListChunks(Recovered(db), e) == ListChunks(db, e)
  {
    ListedEntriesStay(db, id);
    forall e
      ensures ListChunks(Recovered(db), e) == ListChunks(db, e)
    {
      ListedChunksStay(db, e);
    }
    if HasStatus(db, id, Complete) {
      CompleteStays(db, id);
    }
  }

  lemma RecoveredStaysSound(db: Db)
    requires Sound(db)
    ensures Sound(Recovered(db)) && CheckPasses(Recovered(db))
  {
    var r := Recovered(db);
    RecoveredIsClean(db);
    forall id | HasStatus(r, id, Complete)
      ensures AllHashed(r, id) && r.snapshots[id].counts == Recount(r, id)
    {
      RecoveryKeepsWhatIsComplete(db, id);
      RecountFrame(db, r, id);
    }
    SoundIsHashed(db);
    RecoveredPassesIff(db);
  }

  lemma SoundIsHashed(db: Db)
    requires Sound(db)
    ensures ProperlyHashed(db)
  {
    forall e | e in db.entries && HasStatus(db, db.entries[e].snapshot, Complete) && db.entries[e].kind == Regular
      ensures db.entries[e].fileHash.Some? && IsHash(db.entries[e].fileHash.value)
    {
      assert e in OfKind(db, db.entries[e].snapshot, Regular);
    }
  }

  // ----- whole histories -----------------------------------------------------------------------

  /** The database as committed, and as the open transaction sees it. */
  datatype World = World(committed: Db, working: Db)

  /** The writer changes the open transaction and commits it; a crash, or an error, rolls it back; and a
      recovery, or the cleaning up after a failed snapshot, performs its transactions one by one. */
  datatype Event = Write(op: Op) | CommitAll | Crash | Recover(step: Cleaning)

  predicate Happens(w: World, event: Event) {
    match event
    case Write(op) => Allowed(w.working, op) && Do(w.working, op).Ok?
    case CommitAll => true
    case Crash => true
    case Recover(step) => w.working == w.committed && CanClean(w.committed, step)
  }

  function After(w: World, event: Event): World
    requires Happens(w, event)
  {
    match event
    case Write(op) => w.(working := Do(w.working, op).value)
    case CommitAll => World(w.working, w.working)
    case Crash => World(w.committed, w.committed)
    case Recover(step) => World(Clean(w.committed, step), Clean(w.committed, step))
  }

  predicate Leads(w: World, event: Event, w': World) {
    Happens(w, event) && After(w, event) == w'
  }

  function Last(history: seq<Event>): Event
    requires history != []
  {
    history[|history| - 1]
  }

  ghost predicate Reaches(history: seq<Event>, w: World)
    decreases |history|
  {
    if history == [] then w == World(EmptyDb(), EmptyDb())
    else exists p: World :: Reaches(history[..|history| - 1], p) && Leads(p, Last(history), w)
  }

  lemma CleaningKeepsEntries(db: Db, step: Cleaning, id: nat)
    requires ForeignKeys(db) && CanClean(db, step) && HasStatus(db, id, Complete)
    ensures HasStatus(Clean(db, step), id, Complete) && SameEntries(db, Clean(db, step), id)
  {
    var db' := Clean(db, step);
    assert forall e :: e in EntriesOf(db, id) <==> e in db.entries && db.entries[e].snapshot == id;
    assert forall e :: e in EntriesOf(db', id) <==> e in db'.entries && db'.entries[e].snapshot == id;
    if step.Trimming? {
      assert forall e :: e in step.entries ==> db.entries[e].snapshot == step.id;
    }
  }

  lemma CleaningKeepsKeys(db: Db, step: Cleaning)
    requires Sound(db) && CanClean(db, step)
    ensures ForeignKeys(Clean(db, step)) && IdsBounded(Clean(db, step)) && PathsUnique(Clean(db, step))
  {
    match step
    case Fail(_) =>
    case Trimming(_, _, _) =>
    case Remove(id) =>
      assert forall e :: e in EntriesOf(db, id) <==> e in db.entries && db.entries[e].snapshot == id;
      assert forall w :: w in WarningsOf(db, id) <==> w in db.warnings && db.warnings[w].snapshot == id;
  }

  lemma CleaningKeepsSound(db: Db, step: Cleaning)
    requires Sound(db) && CanClean(db, step)
    ensures Sound(Clean(db, step))
  {
    var db' := Clean(db, step);
    CleaningKeepsKeys(db, step);
    forall id | HasStatus(db', id, Complete)
      ensures AllHashed(db', id) && db'.snapshots[id].counts == Recount(db', id)
    {
      CleaningKeepsEntries(db, step, id);
      RecountFrame(db, db', id);
    }
  }

  lemma EmptyIsSound()
    ensures Sound(EmptyDb())
  {
  }

  /** In every history the committed tables, and those the open transaction sees, are sound: references
      resolve, paths are unique, and complete snapshots are fully hashed with true counters. */
  lemma {:induction false} HistoriesAreSound(history: seq<Event>, w: World)
    requires Reaches(history, w)
    ensures Sound(w.committed) && Sound(w.working)
    decreases |history|
  {
    if history == [] {
      EmptyIsSound();
    } else {
      var p :| Reaches(history[..|history| - 1], p) && Leads(p, Last(history), w);
      HistoriesAreSound(history[..|history| - 1], p);
      match Last(history)
      case Write(op) => OpKeepsSound(p.working, op);
      case CommitAll =>
      case Crash =>
      case Recover(step) => CleaningKeepsSound(p.committed, step);
    }
  }

  /** `db'` is what any number of interrupted recoveries, with these transactions, leave of `db`. */
  predicate Interrupts(db: Db, steps: seq<Cleaning>, db': Db)
    decreases |steps|
  {
    if steps == [] then db' == db
    else CanClean(db, steps[0]) && Interrupts(Clean(db, steps[0]), steps[1..], db')
  }

  lemma {:induction false} InterruptionsLeadThere(db: Db, steps: seq<Cleaning>, db': Db)
    requires Sound(db) && Interrupts(db, steps, db')
    ensures Sound(db') && Recovered(db') == Recovered(db)
    decreases |steps|
  {
    if steps != [] {
      CleaningKeepsSound(db, steps[0]);
      CleaningConverges(db, steps[0]);
      InterruptionsLeadThere(Clean(db, steps[0]), steps[1..], db');
    }
  }

  /** Recovery converges. After any history that ended in a crash at any moment, and any interrupted
      recoveries since, a whole recovery ends in the one database that recovering at once would have
      given. That database passes the relationship check, has no pending or deleting snapshot and no
      rows of unsuccessful ones; its chunk rows, its complete snapshots and everything readers see are
      those of the moment of the crash. */
  lemma RecoveryConverges(history: seq<Event>, w: World, steps: seq<Cleaning>, db: Db)
    requires Reaches(history, w) && Interrupts(w.committed, steps, db)
    ensures Recovered(db) == Recovered(w.committed) && CheckPasses(Recovered(db))
    ensures Recovered(db).chunks == w.committed.chunks
    ensures forall id :: RowRecovered(w.committed, Recovered(db), id)
    ensures forall id :: HasStatus(w.committed, id, Complete) ==> SameSnapshot(w.committed, Recovered(db), id)
    ensures forall id :: ListEntries(Recovered(db), id) == ListEntries(w.committed, id)
  {
    HistoriesAreSound(history, w);
    InterruptionsLeadThere(w.committed, steps, db);
    RecoveredStaysSound(db);
    forall id
      ensures HasStatus(w.committed, id, Complete) ==> SameSnapshot(w.committed, Recovered(db), id)
      ensures ListEntries(Recovered(db), id) == ListEntries(w.committed, id)
    {
      RecoveryKeepsWhatIsComplete(w.committed, id);
    }
    forall id
      ensures RowRecovered(w.committed, Recovered(db), id)
    {
      RecoveryRowByRow(w.committed, id);
    }
    RecoveryKeepsWhatIsComplete(w.committed, 0);
  }

  /** From `w`, the events lead to `w'`. */
  predicate Plays(w: World, events: seq<Event>, w': World)
    decreases |events|
  {
    if events == [] then w' == w else Happens(w, events[0]) && Plays(After(w, events[0]), events[1..], w')
  }

  /** The operations, one after the other, make `db'` of `db`. */
  predicate Performs(db: Db, events: seq<Event>, db': Db)
    decreases |events|
  {
    if events == [] then db' == db
    else events[0].Write? && Do(db, events[0].op).Ok? && Performs(Do(db, events[0].op).value, events[1..], db')
  }

  /** Transactions are atomic and durable: until the commit nothing of them is in the tables; with it,
      everything; and a crash before it leaves the tables as they were. */
  lemma {:induction false} TransactionsAreAtomic(w: World, writes: seq<Event>, end: Event, w': World)
    requires (forall i :: 0 <= i < |writes| ==> writes[i].Write?) && Plays(w, writes + [end], w')
    ensures end == Crash ==> w' == World(w.committed, w.committed)
    ensures end == CommitAll ==> w'.working == w'.committed && Performs(w.working, writes, w'.committed)
    ensures end.Write? ==> w'.committed == w.committed
    decreases |writes|
  {
    var events := writes + [end];
    if writes == [] {
      assert events[0] == end && events[1..] == [];
    } else {
      assert events[0] == writes[0] && events[1..] == writes[1..] + [end];
      TransactionsAreAtomic(After(w, writes[0]), writes[1..], end, w');
    }
  }

  // ----- the life of a snapshot ----------------------------------------------------------------

  /** What may become of a snapshot's row: from pending it is completed, or fails or is cancelled with a
      message and the counters it had; from complete it is only ever deleted; all else is final. */
  predicate MayFollow(row: SnapshotRow, now: SnapshotRow) {
    || now == row
    || (row.status == Pending && (now.status == Complete || now.status == Deleting) && now.failure == row.failure)
    || (row.status == Pending && (now.status == Failed || now.status == Cancelled) && now.failure.Some?
        && now.counts == row.counts && now.chunkCounts == row.chunkCounts)
    || (row.status == Complete && now == row.(status := Deleting))
  }

  /** `b` may come later than `a`; what is not in `a` any more never comes back under its id. */
  ghost predicate Evolves(a: Db, b: Db) {
    && a.lastSnapshot <= b.lastSnapshot
    && (forall id :: id in b.snapshots && id in a.snapshots ==> MayFollow(a.snapshots[id], b.snapshots[id]))
    && (forall id :: id in b.snapshots && id !in a.snapshots ==> id > a.lastSnapshot)
  }

  lemma EvolvesFurther(a: Db, b: Db, c: Db)
    requires IdsBounded(a) && Evolves(a, b) && Evolves(b, c)
    ensures Evolves(a, c)
  {
    forall id | id in c.snapshots
      ensures if id in a.snapshots then MayFollow(a.snapshots[id], c.snapshots[id]) else id > a.lastSnapshot
    {
      if id in a.snapshots && id in b.snapshots {
        assert MayFollow(a.snapshots[id], b.snapshots[id]) && MayFollow(b.snapshots[id], c.snapshots[id]);
      }
    }
  }

  lemma OpsEvolve(db: Db, op: Op)
    requires Sound(db) && Do(db, op).Ok?
    ensures Evolves(db, Do(db, op).value)
  {
  }

  lemma CleaningEvolves(db: Db, step: Cleaning)
    requires Sound(db) && CanClean(db, step)
    ensures Evolves(db, Clean(db, step))
  {
  }

  /** One event of a history, for the open transaction and for the committed tables. */
  lemma EventsEvolve(w: World, event: Event)
    requires Sound(w.committed) && Sound(w.working) && Evolves(w.committed, w.working) && Happens(w, event)
    ensures var w' := After(w, event); Evolves(w.committed, w'.committed) && Evolves(w'.committed, w'.working)
  {
    match event
    case Write(op) =>
      OpsEvolve(w.working, op);
      EvolvesFurther(w.committed, w.working, Do(w.working, op).value);
    case CommitAll =>
    case Crash =>
    case Recover(step) => CleaningEvolves(w.committed, step);
  }

  lemma {:induction false} OpenEvolves(history: seq<Event>, w: World)
    requires Reaches(history, w)
    ensures Evolves(w.committed, w.working)
    decreases |history|
  {
    if history != [] {
      var p :| Reaches(history[..|history| - 1], p) && Leads(p, Last(history), w);
      OpenEvolves(history[..|history| - 1], p);
      HistoriesAreSound(history[..|history| - 1], p);
      EventsEvolve(p, Last(history));
    }
  }

  lemma {:induction false} HistoriesAreUnique(history: seq<Event>, w: World, v: World)
    requires Reaches(history, w) && Reaches(history, v)
    ensures v == w
    decreases |history|
  {
    if history != [] {
      var p :| Reaches(history[..|history| - 1], p) && Leads(p, Last(history), w);
      var q :| Reaches(history[..|history| - 1], q) && Leads(q, Last(history), v);
      HistoriesAreUnique(history[..|history| - 1], p, q);
    }
  }

  /** The life of a snapshot, over every history of transactions, crashes and recoveries: from any moment
      to any later one, a committed row changes only along its life, an unsuccessful or deleted snapshot
      never comes back, and no id is ever used again. */
  lemma {:induction false} SnapshotsLiveOnce(history: seq<Event>, n: nat, p: World, w: World)
    requires n <= |history| && Reaches(history[..n], p) && Reaches(history, w)
    ensures forall id :: id in p.committed.snapshots && id in w.committed.snapshots ==>
              MayFollow(p.committed.snapshots[id], w.committed.snapshots[id])
    ensures forall id :: id in w.committed.snapshots && id !in p.committed.snapshots ==> id > p.committed.lastSnapshot
    ensures Evolves(p.committed, w.committed)
    decreases |history|
  {
    if n == |history| {
      assert history[..n] == history;
      HistoriesAreUnique(history, p, w);
    } else {
      var m :| Reaches(history[..|history| - 1], m) && Leads(m, Last(history), w);
      assert history[..|history| - 1][..n] == history[..n];
      SnapshotsLiveOnce(history[..|history| - 1], n, p, m);
      HistoriesAreSound(history[..|history| - 1], m);
      HistoriesAreSound(history[..n], p);
      OpenEvolves(history[..|history| - 1], m);
      EventsEvolve(m, Last(history));
      EvolvesFurther(p.committed, m.committed, w.committed);
    }
  }
}
