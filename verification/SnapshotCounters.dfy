/** The counters of a published snapshot are those of its rows: what the writer counted chunk by chunk is
    what counting the tables gives, for every run of the pipeline that publishes. */
module SnapshotCounters {
  import opened Common
  import opened Capturing
  import opened Queues
  import opened Pipeline
  import opened PipelinePublication
  import opened SnapshotWriters
  import D = Durability
  import L = PipelineLedger
  import O = Objects
  import R = Reassembly
  import M = Metadata

  /** The mapping rows of a snapshot. */
  function MappingsOf(db: M.Db, id: nat): set<(nat, nat)> {
    set m | m in db.mappings && m.0 in M.EntriesOf(db, id)
  }

  /** The snapshot is being written. */
  ghost predicate Open(db: M.Db, id: nat) {
    M.Sound(db) && M.HasStatus(db, id, M.Pending)
  }

  /** The counters are those of the rows. */
  predicate Agrees(db: M.Db, id: nat, t: Totals, warnings: nat) {
    && M.Recount(db, id) == M.Counts(t.files, t.directories, t.links, t.logicalSize)
    && |MappingsOf(db, id)| == t.newChunks + t.reusedChunks && |M.WarningsOf(db, id)| == warnings
  }

  // ----- one operation -------------------------------------------------------------------------

  lemma OpKeepsOpen(db: M.Db, id: nat, op: M.Op)
    requires Open(db, id) && M.Allowed(db, op) && M.Do(db, op).Ok?
    requires !op.MarkComplete? && !op.MarkIncomplete? && !op.MarkDeleting?
    ensures Open(M.Do(db, op).value, id)
  {
    M.OpKeepsSound(db, op);
  }

  lemma {:induction false} SizeAgrees(db: M.Db, db': M.Db, id: nat, n: nat)
    requires forall e :: 0 <= e < n ==> (e in M.OfKind(db, id, M.Regular) <==> e in M.OfKind(db', id, M.Regular))
    requires forall e :: e in M.OfKind(db, id, M.Regular) && e in M.OfKind(db', id, M.Regular) && e < n ==> db'.entries[e].logicalSize == db.entries[e].logicalSize
    ensures M.SizeBelow(db', id, n) == M.SizeBelow(db, id, n)
  {
    if n > 0 {
      SizeAgrees(db, db', id, n - 1);
    }
  }

  lemma KindsAfterInsert(db: M.Db, id: nat, row: M.EntryRow, kind: M.EntryKind)
    requires M.IdsBounded(db) && row.snapshot == id
    ensures var e := db.lastEntry + 1; var db' := M.AfterInsert(db, row);
            M.OfKind(db', id, kind) == M.OfKind(db, id, kind) + if row.kind == kind then {e} else {}
  {
  }

  lemma KindCounts(db: M.Db, id: nat, row: M.EntryRow, kind: M.EntryKind)
    requires M.IdsBounded(db) && row.snapshot == id
    ensures |M.OfKind(M.AfterInsert(db, row), id, kind)| == |M.OfKind(db, id, kind)| + if row.kind == kind then 1 else 0
  {
    KindsAfterInsert(db, id, row, kind);
    assert db.lastEntry + 1 !in M.OfKind(db, id, kind);
  }

  lemma SizeCounts(db: M.Db, id: nat, row: M.EntryRow)
    requires M.IdsBounded(db) && row.snapshot == id
    ensures var db' := M.AfterInsert(db, row);
            M.SizeBelow(db', id, db'.lastEntry + 1) == M.SizeBelow(db, id, db.lastEntry + 1) + if row.kind == M.Regular then row.logicalSize else 0
  {
    KindsAfterInsert(db, id, row, M.Regular);
    SizeAgrees(db, M.AfterInsert(db, row), id, db.lastEntry + 1);
  }

  lemma InsertCounts(db: M.Db, id: nat, row: M.EntryRow)
    requires M.IdsBounded(db) && row.snapshot == id
    ensures var db' := M.AfterInsert(db, row); var was, now := M.Recount(db, id), M.Recount(db', id);
            && now.files == was.files + (if row.kind == M.Regular then 1 else 0)
            && now.folders == was.folders + (if row.kind == M.Folder then 1 else 0)
            && now.links == was.links + (if row.kind == M.Link then 1 else 0)
            && now.logicalSize == was.logicalSize + (if row.kind == M.Regular then row.logicalSize else 0)
  {
    KindCounts(db, id, row, M.Regular);
    KindCounts(db, id, row, M.Folder);
    KindCounts(db, id, row, M.Link);
    SizeCounts(db, id, row);
  }

  lemma InsertKeepsOthers(db: M.Db, id: nat, row: M.EntryRow)
    requires M.Sound(db) && row.snapshot == id
    ensures var db' := M.AfterInsert(db, row);
            MappingsOf(db', id) == MappingsOf(db, id) && M.WarningsOf(db', id) == M.WarningsOf(db, id)
  {
    var db' := M.AfterInsert(db, row);
    assert M.EntriesOf(db', id) == M.EntriesOf(db, id) + {db.lastEntry + 1};
  }

  lemma SameEntriesSame(db: M.Db, db': M.Db, id: nat)
    requires db'.entries == db.entries
    ensures M.EntriesOf(db', id) == M.EntriesOf(db, id) && M.SameEntries(db, db', id)
    ensures db'.mappings == db.mappings ==> MappingsOf(db', id) == MappingsOf(db, id)
  {
  }

  lemma WarningCounts(db: M.Db, id: nat, row: M.WarningRow)
    requires M.IdsBounded(db) && row.snapshot == id
    ensures |M.WarningsOf(M.AfterWarning(db, row), id)| == |M.WarningsOf(db, id)| + 1
  {
    assert M.WarningsOf(M.AfterWarning(db, row), id) == M.WarningsOf(db, id) + {db.lastWarning + 1};
    assert db.lastWarning + 1 !in M.WarningsOf(db, id);
  }

  /** Nothing but chunk and mapping rows differs, and there are `n` more of the snapshot's mappings. */
  ghost predicate MappedMore(db: M.Db, db': M.Db, id: nat, n: nat) {
    && db' == db.(chunks := db'.chunks, mappings := db'.mappings)
    && |MappingsOf(db', id)| == |MappingsOf(db, id)| + n
  }

  lemma MappingCounts(db: M.Db, id: nat, entry: nat, sequence: nat, row: M.MappingRow)
    requires entry in M.EntriesOf(db, id) && M.Do(db, M.InsertMapping(entry, sequence, row)).Ok?
    ensures MappedMore(db, M.Do(db, M.InsertMapping(entry, sequence, row)).value, id, 1)
  {
    var db' := M.Do(db, M.InsertMapping(entry, sequence, row)).value;
    assert M.EntriesOf(db', id) == M.EntriesOf(db, id);
    assert MappingsOf(db', id) == MappingsOf(db, id) + {(entry, sequence)};
    assert (entry, sequence) !in MappingsOf(db, id);
  }

  lemma RefCounts(db: M.Db, id: nat, entry: nat, ref: Ref)
    requires Open(db, id) && entry in M.EntriesOf(db, id) && R.WriteRef(db, entry, ref).Ok?
    ensures var db' := R.WriteRef(db, entry, ref).value; Open(db', id) && MappedMore(db, db', id, 1)
  {
    var register := M.EnsureChunk(ref.stored.hash, O.ChunkRow(ref.stored.rawSize, ref.stored.storedSize));
    OpKeepsOpen(db, id, register);
    var with := M.Do(db, register).value;
    SameEntriesSame(db, with, id);
    var row := M.MappingRow(ref.stored.hash, ref.offset, ref.stored.rawSize);
    OpKeepsOpen(with, id, M.InsertMapping(entry, ref.sequence, row));
    MappingCounts(with, id, entry, ref.sequence, row);
  }

  lemma {:induction false} RefsCount(db: M.Db, id: nat, entry: nat, refs: seq<Ref>)
    requires Open(db, id) && entry in M.EntriesOf(db, id) && R.WriteRefs(db, entry, refs).Ok?
    ensures var db' := R.WriteRefs(db, entry, refs).value; Open(db', id) && MappedMore(db, db', id, |refs|)
    decreases |refs|
  {
    if refs != [] {
      RefsCount(db, id, entry, refs[..|refs| - 1]);
      var before := R.WriteRefs(db, entry, refs[..|refs| - 1]).value;
      assert M.EntriesOf(before, id) == M.EntriesOf(db, id);
      RefCounts(before, id, entry, refs[|refs| - 1]);
    }
  }

  lemma HashCounts(db: M.Db, id: nat, entry: nat, hash: Bytes)
    requires entry in db.entries
    ensures var db' := M.AfterHash(db, entry, hash);
            && M.Recount(db', id) == M.Recount(db, id) && M.EntriesOf(db', id) == M.EntriesOf(db, id)
            && MappingsOf(db', id) == MappingsOf(db, id) && M.WarningsOf(db', id) == M.WarningsOf(db, id)
  {
    var db' := M.AfterHash(db, entry, hash);
    assert M.EntriesOf(db', id) == M.EntriesOf(db, id);
    forall kind: M.EntryKind
      ensures M.OfKind(db', id, kind) == M.OfKind(db, id, kind)
    {
    }
    SizeAgrees(db, db', id, db.lastEntry + 1);
  }

  // ----- one result ----------------------------------------------------------------------------

  function Noted(item: Processed): nat {
    if item.Note? then 1 else 0
  }

  /** Every file but `entry` has its hash. */
  predicate HashedBut(db: M.Db, id: nat, entry: nat) {
    forall e :: e in M.OfKind(db, id, M.Regular) && e != entry ==> db.entries[e].fileHash.Some?
  }

  lemma HashCompletes(db: M.Db, id: nat, entry: nat, hash: Bytes)
    requires entry in db.entries && HashedBut(db, id, entry)
    ensures M.AllHashed(M.AfterHash(db, entry, hash), id)
  {
  }

  lemma FileCounts(db: M.Db, id: nat, entry: nat, item: Processed)
    requires Open(db, id) && entry in M.EntriesOf(db, id) && HashedBut(db, id, entry) && item.Item? && WriteFile(db, entry, item).Ok?
    ensures var db' := WriteFile(db, entry, item).value;
            && Open(db', id) && M.AllHashed(db', id) && M.Recount(db', id) == M.Recount(db, id)
            && |MappingsOf(db', id)| == |MappingsOf(db, id)| + |item.refs| && M.WarningsOf(db', id) == M.WarningsOf(db, id)
  {
    RefsCount(db, id, entry, item.refs);
    var mapped := R.WriteRefs(db, entry, item.refs).value;
    SameEntriesCount(db, mapped, id);
    assert HashedBut(mapped, id, entry);
    OpKeepsOpen(mapped, id, M.SetFileHash(entry, item.fileHash));
    assert WriteFile(db, entry, item).value == M.AfterHash(mapped, entry, item.fileHash);
    HashCounts(mapped, id, entry, item.fileHash);
    HashCompletes(mapped, id, entry, item.fileHash);
  }

  lemma SameEntriesCount(db: M.Db, db': M.Db, id: nat)
    requires db'.entries == db.entries && db'.warnings == db.warnings && db'.lastEntry == db.lastEntry
    ensures M.Recount(db', id) == M.Recount(db, id) && M.EntriesOf(db', id) == M.EntriesOf(db, id) && M.WarningsOf(db', id) == M.WarningsOf(db, id)
  {
    assert M.EntriesOf(db', id) == M.EntriesOf(db, id);
    forall kind: M.EntryKind
      ensures M.OfKind(db', id, kind) == M.OfKind(db, id, kind)
    {
    }
    SizeAgrees(db, db', id, db.lastEntry + 1);
  }

  lemma NoteCounts(db: M.Db, id: nat, path: Bytes, t: Totals, warnings: nat)
    requires Open(db, id) && M.AllHashed(db, id) && Agrees(db, id, t, warnings)
    ensures var db' := M.AfterWarning(db, M.WarningRow(id, path)); Open(db', id) && M.AllHashed(db', id) && Agrees(db', id, t, warnings + 1)
  {
    var db' := M.AfterWarning(db, M.WarningRow(id, path));
    OpKeepsOpen(db, id, M.InsertWarning(id, path));
    WarningCounts(db, id, M.WarningRow(id, path));
    SameEntriesSame(db, db', id);
    M.RecountFrame(db, db', id);
  }

  /** The counters after an entry, before its chunks. */
  function CountEntry(t: Totals, kind: M.EntryKind, size: nat): Totals {
    match kind
    case Folder => t.(directories := t.directories + 1)
    case Link => t.(links := t.links + 1)
    case Regular => t.(files := t.files + 1, logicalSize := t.logicalSize + size)
  }

  lemma EntryKeeps(db: M.Db, id: nat, row: M.EntryRow)
    requires Open(db, id) && M.AllHashed(db, id) && row.snapshot == id && row.fileHash == None
    requires M.Do(db, M.InsertEntry(id, row.path, row.kind, row.logicalSize)).Ok?
    ensures var db' := M.AfterInsert(db, row);
            && Open(db', id) && HashedBut(db', id, db.lastEntry + 1) && db.lastEntry + 1 in M.EntriesOf(db', id)
            && (row.kind != M.Regular ==> M.AllHashed(db', id))
  {
    OpKeepsOpen(db, id, M.InsertEntry(id, row.path, row.kind, row.logicalSize));
    KindsAfterInsert(db, id, row, M.Regular);
  }

  lemma EntryAgrees(db: M.Db, id: nat, row: M.EntryRow, t: Totals, warnings: nat)
    requires Open(db, id) && Agrees(db, id, t, warnings) && row.snapshot == id
    ensures Agrees(M.AfterInsert(db, row), id, CountEntry(t, row.kind, row.logicalSize), warnings)
  {
    InsertCounts(db, id, row);
    InsertKeepsOthers(db, id, row);
  }

  lemma ItemIsWritten(db: M.Db, id: nat, item: Processed)
    requires item.Item? && WriteProcessed(db, id, item).Ok?
    ensures M.Do(db, M.InsertEntry(id, item.path, item.kind, item.logicalSize)).Ok?
    ensures var with := M.AfterInsert(db, M.EntryRow(id, item.path, item.kind, item.logicalSize, None));
            WriteProcessed(db, id, item) == if item.kind == M.Regular then WriteFile(with, db.lastEntry + 1, item) else Ok(with)
  {
  }

  lemma FileAgrees(db: M.Db, id: nat, entry: nat, item: Processed, t: Totals, warnings: nat)
    requires Open(db, id) && entry in M.EntriesOf(db, id) && HashedBut(db, id, entry) && item.Item? && WriteFile(db, entry, item).Ok?
    requires Agrees(db, id, t, warnings)
    ensures var db' := WriteFile(db, entry, item).value;
            Open(db', id) && M.AllHashed(db', id) && Agrees(db', id, CountRefs(t, item.refs), warnings)
  {
    FileCounts(db, id, entry, item);
  }

  lemma CountedInParts(t: Totals, item: Processed)
    requires item.Item?
    ensures var entered := CountEntry(t, item.kind, item.logicalSize);
            CountRow(t, Summary(0, item)) == if item.kind == M.Regular then CountRefs(entered, item.refs) else entered
  {
  }

  /** With the rows of a result the counters go on agreeing, and no file is left without a hash. */
  lemma ProcessedCounts(db: M.Db, id: nat, item: Processed, t: Totals, warnings: nat)
    requires Open(db, id) && M.AllHashed(db, id) && Agrees(db, id, t, warnings) && WriteProcessed(db, id, item).Ok?
    ensures var db' := WriteProcessed(db, id, item).value;
            Open(db', id) && M.AllHashed(db', id) && Agrees(db', id, CountRow(t, Summary(0, item)), warnings + Noted(item))
  {
    if item.Note? {
      NoteCounts(db, id, item.path, t, warnings);
    } else {
      var row := M.EntryRow(id, item.path, item.kind, item.logicalSize, None);
      var entered := CountEntry(t, item.kind, item.logicalSize);
      ItemIsWritten(db, id, item);
      EntryKeeps(db, id, row);
      EntryAgrees(db, id, row, t, warnings);
      CountedInParts(t, item);
      if item.kind == M.Regular {
        FileAgrees(M.AfterInsert(db, row), id, db.lastEntry + 1, item, entered, warnings);
      }
    }
  }

  function NotesIn(items: seq<Processed>): nat {
    if items == [] then 0 else NotesIn(items[..|items| - 1]) + Noted(items[|items| - 1])
  }

  /** The snapshot has been created, and nothing written for it yet. */
  ghost predicate Fresh(db: M.Db, id: nat) {
    Open(db, id) && M.EntriesOf(db, id) == {} && M.WarningsOf(db, id) == {}
  }

  lemma FreshAgrees(db: M.Db, id: nat)
    requires Fresh(db, id)
    ensures M.AllHashed(db, id) && Agrees(db, id, NoTotals(), 0)
  {
    forall kind: M.EntryKind
      ensures M.OfKind(db, id, kind) == {}
    {
      assert forall e :: e in M.OfKind(db, id, kind) ==> e in M.EntriesOf(db, id);
    }
    M.SizeBeyond(db, id, 0, db.lastEntry + 1);
    assert MappingsOf(db, id) == {};
  }

  lemma {:induction false} AllCounts(db: M.Db, id: nat, items: seq<Processed>)
    requires Fresh(db, id) && WriteAll(db, id, items).Ok?
    ensures var db' := WriteAll(db, id, items).value;
            Open(db', id) && M.AllHashed(db', id) && Agrees(db', id, TotalsFor(items), NotesIn(items))
    decreases |items|
  {
    if items == [] {
      FreshAgrees(db, id);
    } else {
      var front, last := items[..|items| - 1], items[|items| - 1];
      AllCounts(db, id, front);
      ProcessedCounts(WriteAll(db, id, front).value, id, last, TotalsFor(front), NotesIn(front));
    }
  }

  // ----- the chunks that are new ---------------------------------------------------------------

  predicate IsNew(items: seq<Processed>, i: nat, k: nat) {
    i < |items| && items[i].Item? && items[i].kind == M.Regular && k < |items[i].refs| && items[i].refs[k].stored.newly
  }

  /** Where, among all the chunks of all files, the new ones are. */
  function NewPlaces(items: seq<Processed>): set<(nat, nat)> {
    set i: nat, k: nat | i < |items| && items[i].Item? && k < |items[i].refs| && IsNew(items, i, k) :: (i, k)
  }

  function Beside(i: nat, ks: set<nat>): set<(nat, nat)> {
    set k | k in ks :: (i, k)
  }

  lemma {:induction false} BesideCount(i: nat, ks: set<nat>)
    ensures |Beside(i, ks)| == |ks|
    decreases |ks|
  {
    if ks != {} {
      var k :| k in ks;
      BesideCount(i, ks - {k});
      assert Beside(i, ks) == Beside(i, ks - {k}) + {(i, k)};
    }
  }

  function NewOfLast(items: seq<Processed>): set<nat>
    requires items != []
  {
    var last := items[|items| - 1];
    if last.Item? && last.kind == M.Regular then NewAt(last.refs) else {}
  }

  lemma NewPlacesGrow(items: seq<Processed>)
    requires items != []
    ensures var front := items[..|items| - 1];
            NewPlaces(items) == NewPlaces(front) + Beside(|items| - 1, NewOfLast(items)) && NewPlaces(front) !! Beside(|items| - 1, NewOfLast(items))
  {
    var front := items[..|items| - 1];
    assert forall i: nat, k: nat :: (i, k) in NewPlaces(items) <==> IsNew(items, i, k);
    assert forall i: nat, k: nat :: (i, k) in NewPlaces(front) <==> IsNew(front, i, k);
    assert forall i: nat, k: nat :: i < |front| ==> (IsNew(items, i, k) <==> IsNew(front, i, k));
  }

  lemma LastCounts(items: seq<Processed>)
    requires items != []
    ensures var t, before := TotalsFor(items), TotalsFor(items[..|items| - 1]);
            && t.newChunks == before.newChunks + |NewOfLast(items)|
            && t.files + t.directories + t.links + NotesIn(items)
               == before.files + before.directories + before.links + NotesIn(items[..|items| - 1]) + 1
  {
    var last := items[|items| - 1];
    if last.Item? {
      CountedInParts(TotalsFor(items[..|items| - 1]), last);
    }
  }

  lemma NewPlacesCount(items: seq<Processed>)
    requires items != []
    ensures |NewPlaces(items)| == |NewPlaces(items[..|items| - 1])| + |NewOfLast(items)|
  {
    NewPlacesGrow(items);
    BesideCount(|items| - 1, NewOfLast(items));
  }

  /** The counter of new chunks is their number, and each row counts once. */
  lemma {:induction false} CountersMean(items: seq<Processed>)
    ensures var t := TotalsFor(items);
            t.newChunks == |NewPlaces(items)| && t.files + t.directories + t.links + NotesIn(items) == |items|
    decreases |items|
  {
    if items != [] {
      CountersMean(items[..|items| - 1]);
      LastCounts(items);
      NewPlacesCount(items);
    }
  }

  // ----- a published run -----------------------------------------------------------------------

  /** The results that rows of the pipeline stand for; `what` is what came of each emission. */
  function Items(what: nat -> Processed, rows: seq<Row>): (items: seq<Processed>)
    ensures |items| == |rows|
  {
    seq(|rows|, i requires 0 <= i < |rows| => what(rows[i].id))
  }

  ghost predicate Stand(what: nat -> Processed, rows: seq<Row>) {
    forall i :: 0 <= i < |rows| ==> rows[i] == Summary(rows[i].id, what(rows[i].id))
  }

  lemma ItemsMore(what: nat -> Processed, rows: seq<Row>, more: seq<Row>)
    ensures Items(what, rows + more) == Items(what, rows) + Items(what, more)
  {
  }

  lemma {:induction false} TotalsMatch(what: nat -> Processed, rows: seq<Row>)
    requires Stand(what, rows)
    ensures L.TotalsOf(rows) == TotalsFor(Items(what, rows))
    decreases |rows|
  {
    if rows != [] {
      var front := rows[..|rows| - 1];
      TotalsMatch(what, front);
      assert Items(what, rows)[..|rows| - 1] == Items(what, front);
    }
  }

  /** The tables as last committed, and as the writer's open transaction sees them. */
  function Durable(what: nat -> Processed, db: M.Db, id: nat, s: State): Result<M.Db, M.DbError> {
    WriteAll(db, id, Items(what, s.d.committed))
  }

  function Working(what: nat -> Processed, db: M.Db, id: nat, s: State): Result<M.Db, M.DbError> {
    WriteAll(db, id, Items(what, s.d.committed + s.d.tx))
  }

  lemma OneMoreWritten(what: nat -> Processed, db: M.Db, id: nat, rows: seq<Row>, row: Row)
    ensures var before := WriteAll(db, id, Items(what, rows));
            WriteAll(db, id, Items(what, rows + [row])) == if before.Err? then before else WriteProcessed(before.value, id, what(row.id))
  {
    ItemsMore(what, rows, [row]);
    assert Items(what, rows + [row])[..|rows|] == Items(what, rows);
  }

  ghost predicate MovesWriter(c: Config, s: State, step: Step)
    requires Shape(c, s)
  {
    step.Move? && step.thread == Writer && Enabled(c, s, step)
  }

  /** What the ledger of the pipeline abstracts from is a transactional database: an insertion changes what
      the transaction sees by the rows of that one result and counts them, a commit makes durable what it
      sees, giving it up goes back to what is durable, and no other step of any thread changes either. */
  lemma LedgerIsTransactional(c: Config, s: State, step: Step, what: nat -> Processed, db: M.Db, id: nat)
    requires Shape(c, s) && Enabled(c, s, step)
    ensures var s' := Apply(c, s, step); var pc := s.pcs[Writer];
            var durable, working := Durable(what, db, id, s), Working(what, db, id, s);
            var durable', working' := Durable(what, db, id, s'), Working(what, db, id, s');
            if MovesWriter(c, s, step) && pc.Insert? && step.ok then
              && durable' == durable && s'.d.totals == CountRow(s.d.totals, pc.row)
              && working' == if working.Err? then working else WriteProcessed(working.value, id, what(pc.row.id))
            else if MovesWriter(c, s, step) && (pc.Commit? || pc.LastCommit?) && step.ok && !s.q.stop then
              durable' == working && working' == working && s'.d.totals == s.d.totals
            else if MovesWriter(c, s, step) && (pc.Insert? || pc.Commit? || pc.LastCommit? || (pc.Drained? && s.q.stop)) && s.d.tx != [] then
              durable' == durable && working' == durable && s'.d.totals == s.d.totals
            else
              durable' == durable && working' == working && s'.d.totals == s.d.totals
  {
    var s' := Apply(c, s, step);
    assert s.d.committed + [] == s.d.committed;
    if MovesWriter(c, s, step) {
      var pc := s.pcs[Writer];
      if pc.Insert? && step.ok {
        OneMoreWritten(what, db, id, s.d.committed + s.d.tx, pc.row);
        assert s.d.committed + (s.d.tx + [pc.row]) == s.d.committed + s.d.tx + [pc.row];
      }
      assert (s.d.committed + s.d.tx) + [] == s.d.committed + s.d.tx;
    }
  }

  lemma KindsPartition(db: M.Db, id: nat)
    ensures var counts := M.Recount(db, id); |M.EntriesOf(db, id)| == counts.files + counts.folders + counts.links
  {
    var files, folders, links := M.OfKind(db, id, M.Regular), M.OfKind(db, id, M.Folder), M.OfKind(db, id, M.Link);
    assert M.EntriesOf(db, id) == files + folders + links;
    assert files !! folders && files + folders !! links;
  }

  /** The operation that publishes, with the counters that the writer kept. */
  function Publish(id: nat, t: Totals): M.Op {
    M.MarkComplete(id, M.ChunkCounts(t.newChunks, t.reusedChunks, t.newStored))
  }

  /** The counters in the snapshot's row: those kept in memory, which are what counting its entries gives;
      new plus reused chunks are its mapping rows, and each of `n` results is one row. */
  predicate CountersAreTrue(db: M.Db, id: nat, t: Totals, n: nat) {
    M.HasStatus(db, id, M.Complete) &&
    var row := db.snapshots[id];
    && row.counts == M.Recount(db, id) == M.Counts(t.files, t.directories, t.links, t.logicalSize)
    && row.chunkCounts == M.ChunkCounts(t.newChunks, t.reusedChunks, t.newStored)
    && row.chunkCounts.newChunks + row.chunkCounts.reusedChunks == |MappingsOf(db, id)|
    && |M.EntriesOf(db, id)| + |M.WarningsOf(db, id)| == n
  }

  lemma PublishingKeepsRows(db: M.Db, id: nat, t: Totals)
    requires M.HasStatus(db, id, M.Pending) && M.AllHashed(db, id)
    ensures M.Do(db, Publish(id, t)).Ok?
    ensures var done := M.Do(db, Publish(id, t)).value;
            && M.HasStatus(done, id, M.Complete) && done.snapshots[id].counts == M.Recount(done, id) == M.Recount(db, id)
            && done.snapshots[id].chunkCounts == M.ChunkCounts(t.newChunks, t.reusedChunks, t.newStored)
            && MappingsOf(done, id) == MappingsOf(db, id) && M.EntriesOf(done, id) == M.EntriesOf(db, id)
            && M.WarningsOf(done, id) == M.WarningsOf(db, id)
  {
    var done := M.Do(db, Publish(id, t)).value;
    SameEntriesSame(db, done, id);
    SameEntriesCount(db, done, id);
  }

  lemma AgreeingIsTrue(db: M.Db, id: nat, t: Totals, warnings: nat)
    requires M.HasStatus(db, id, M.Pending) && M.AllHashed(db, id) && Agrees(db, id, t, warnings)
    ensures M.Do(db, Publish(id, t)).Ok?
    ensures CountersAreTrue(M.Do(db, Publish(id, t)).value, id, t, t.files + t.directories + t.links + warnings)
  {
    PublishingKeepsRows(db, id, t);
    KindsPartition(db, id);
  }

  /** Rows written without error for a snapshot just created can be published, and the counters are then
      true; the new chunks counted are those that the store had not had. */
  lemma WrittenCountersAreTrue(db: M.Db, id: nat, items: seq<Processed>)
    requires Fresh(db, id) && WriteAll(db, id, items).Ok?
    ensures var written, t := WriteAll(db, id, items).value, TotalsFor(items);
            && M.Do(written, Publish(id, t)).Ok? && CountersAreTrue(M.Do(written, Publish(id, t)).value, id, t, |items|)
            && t.newChunks == |NewPlaces(items)|
  {
    AllCounts(db, id, items);
    CountersMean(items);
    AgreeingIsTrue(WriteAll(db, id, items).value, id, TotalsFor(items), NotesIn(items));
  }

  /** In every run that publishes, whatever the interleaving: publishing the rows succeeds; the counters that
      the writer kept in memory, the ones recomputed from the tables, and the rows there are agree; and every
      emission of the scanner is one row. */
  lemma PublishedCounters(c: Config, run: seq<Step>, s: State, what: nat -> Processed, db: M.Db, id: nat)
    requires c.Valid() && Reaches(c, run, s) && s.f.status == Complete && Stand(what, s.d.committed)
    requires Fresh(db, id) && Durable(what, db, id, s).Ok?
    ensures Working(what, db, id, s) == Durable(what, db, id, s)
    ensures var published := M.Do(Durable(what, db, id, s).value, Publish(id, s.d.totals));
            published.Ok? && CountersAreTrue(published.value, id, s.d.totals, |c.plan|)
    ensures s.d.totals.newChunks == |NewPlaces(Items(what, s.d.committed))|
  {
    PublicationSafety(c, run, s);
    TotalsMatch(what, s.d.committed);
    WrittenCountersAreTrue(db, id, Items(what, s.d.committed));
    assert s.d.committed + s.d.tx == s.d.committed;
  }

  // ----- new chunks are new objects ------------------------------------------------------------

  function HashAt(items: seq<Processed>, place: (nat, nat)): O.Digest
    requires IsNew(items, place.0, place.1)
  {
    items[place.0].refs[place.1].stored.hash
  }

  function NewHashes(items: seq<Processed>, places: set<(nat, nat)>): set<O.Digest>
    requires forall p :: p in places ==> IsNew(items, p.0, p.1)
  {
    set p | p in places :: HashAt(items, p)
  }

  lemma {:induction false} DistinctHashesCount(items: seq<Processed>, places: set<(nat, nat)>)
    requires forall p :: p in places ==> IsNew(items, p.0, p.1)
    requires forall p, q :: p in places && q in places && p != q ==> HashAt(items, p) != HashAt(items, q)
    ensures |NewHashes(items, places)| == |places|
    decreases |places|
  {
    if places != {} {
      var p :| p in places;
      DistinctHashesCount(items, places - {p});
      assert NewHashes(items, places) == NewHashes(items, places - {p}) + {HashAt(items, p)};
    }
  }

  /** Each chunk recorded as new came of a call of its own that returned so. */
  ghost predicate CameOf(items: seq<Processed>, newly: seq<O.Digest>, call: map<(nat, nat), nat>) {
    && (forall p :: p in NewPlaces(items) ==> p in call && call[p] < |newly| && newly[call[p]] == HashAt(items, p))
    && (forall p, q :: p in NewPlaces(items) && q in NewPlaces(items) && p != q ==> call[p] != call[q])
  }

  /** The counter of new chunks is the number of distinct objects that were new, and these are durable:
      however many workers stored the same content, in whatever order, and through whatever crashes. */
  lemma NewChunksAreNewObjects(c: O.Settings, run: seq<D.Step>, s: D.State, items: seq<Processed>, call: map<(nat, nat), nat>)
    requires c.Valid() && D.Reaches(c, run, s) && CameOf(items, s.newly, call)
    ensures var hashes := NewHashes(items, NewPlaces(items));
            TotalsFor(items).newChunks == |hashes| && forall h :: h in hashes ==> O.Durable(s.disk, h)
  {
    D.NewlyStoredOnce(c, run, s);
    CountersMean(items);
    DistinctHashesCount(items, NewPlaces(items));
  }

  // ----- writing is never refused --------------------------------------------------------------

  /** A file's chunks describe some content that the store holds, and its hash is one. */
  ghost predicate Writable(c: O.Settings, d: O.Disk, item: Processed) {
    item.Item? && item.kind == M.Regular ==> M.IsHash(item.fileHash) && exists content: Bytes :: Describes(c, d, content, item.refs)
  }

  predicate DistinctPaths(items: seq<Processed>) {
    forall i, j :: 0 <= i < j < |items| && items[i].Item? && items[j].Item? ==> items[i].path != items[j].path
  }

  predicate HasPath(items: seq<Processed>, path: Bytes) {
    exists i :: 0 <= i < |items| && items[i].Item? && items[i].path == path
  }

  lemma FileSucceeds(c: O.Settings, d: O.Disk, db: M.Db, id: nat, entry: nat, item: Processed)
    requires c.Valid() && Open(db, id) && R.RowsAgree(c, d, db) && Writable(c, d, item) && item.Item? && item.kind == M.Regular
    requires entry in M.EntriesOf(db, id) && db.entries[entry].kind == M.Regular && db.entries[entry].fileHash == None
    requires R.ListsAs(db, entry, [])
    ensures WriteFile(db, entry, item).Ok? && R.RowsAgree(c, d, WriteFile(db, entry, item).value)
    ensures var db' := WriteFile(db, entry, item).value; db'.entries == db.entries[entry := db.entries[entry].(fileHash := Some(item.fileHash))]
  {
    var content :| Describes(c, d, content, item.refs);
    R.WritingSucceeds(c, d, content, item.refs, db, entry);
    RefsCount(db, id, entry, item.refs);
  }

  lemma EntryIsBare(db: M.Db, id: nat, row: M.EntryRow)
    requires M.Sound(db) && row.snapshot == id
    ensures var db' := M.AfterInsert(db, row); db.lastEntry + 1 in M.EntriesOf(db', id) && R.ListsAs(db', db.lastEntry + 1, [])
  {
  }

  lemma ProcessedSucceeds(c: O.Settings, d: O.Disk, db: M.Db, id: nat, item: Processed)
    requires c.Valid() && Open(db, id) && M.AllHashed(db, id) && R.RowsAgree(c, d, db) && Writable(c, d, item)
    requires item.Item? ==> !M.PathTaken(db, id, item.path)
    ensures WriteProcessed(db, id, item).Ok?
    ensures var db' := WriteProcessed(db, id, item).value;
            R.RowsAgree(c, d, db') && forall path :: M.PathTaken(db', id, path) ==> M.PathTaken(db, id, path) || (item.Item? && item.path == path)
  {
    if item.Item? {
      var row := M.EntryRow(id, item.path, item.kind, item.logicalSize, None);
      EntryKeeps(db, id, row);
      EntryIsBare(db, id, row);
      if item.kind == M.Regular {
        FileSucceeds(c, d, M.AfterInsert(db, row), id, db.lastEntry + 1, item);
      }
    }
  }

  /** The tables refuse no row of results captured for distinct paths, so a run that is neither stopped nor
      failed by the system writes them all, and can publish them. */
  lemma {:induction false} WritingAllSucceeds(c: O.Settings, d: O.Disk, db: M.Db, id: nat, items: seq<Processed>)
    requires c.Valid() && Fresh(db, id) && R.RowsAgree(c, d, db) && DistinctPaths(items)
    requires forall i :: 0 <= i < |items| ==> Writable(c, d, items[i])
    ensures WriteAll(db, id, items).Ok?
    ensures var db' := WriteAll(db, id, items).value;
            R.RowsAgree(c, d, db') && forall path :: M.PathTaken(db', id, path) ==> HasPath(items, path)
    decreases |items|
  {
    if items == [] {
      assert forall e :: e in db.entries && db.entries[e].snapshot == id ==> e in M.EntriesOf(db, id);
    } else {
      var front, last := items[..|items| - 1], items[|items| - 1];
      WritingAllSucceeds(c, d, db, id, front);
      AllCounts(db, id, front);
      var before := WriteAll(db, id, front).value;
      assert last.Item? ==> !HasPath(front, last.path);
      ProcessedSucceeds(c, d, before, id, last);
      forall path | M.PathTaken(WriteAll(db, id, items).value, id, path)
        ensures HasPath(items, path)
      {
        PathGoesOn(items, path);
      }
    }
  }

  lemma PathGoesOn(items: seq<Processed>, path: Bytes)
    requires items != []
    ensures var last := items[|items| - 1];
            HasPath(items[..|items| - 1], path) || (last.Item? && last.path == path) ==> HasPath(items, path)
  {
  }
}
