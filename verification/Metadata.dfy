/** The metadata tables as values, the operations that change them, and what they keep: complete
    snapshots never change, their counters stay true, and no reader ever sees an unfinished one. */
module Metadata {
  import opened Common
  import Objects

  type Digest = Objects.Digest

  type ChunkRow = Objects.ChunkRow

  datatype Status = Pending | Complete | Failed | Cancelled | Deleting

  datatype EntryKind = Regular | Folder | Link

  datatype Counts = Counts(files: nat, folders: nat, links: nat, logicalSize: nat)

  /** What the snapshot added to the store, as the writer counted it. */
  datatype ChunkCounts = ChunkCounts(newChunks: nat, reusedChunks: nat, newStored: nat)

  datatype SnapshotRow = SnapshotRow(status: Status, counts: Counts, chunkCounts: ChunkCounts, failure: Option<string>)

  datatype EntryRow = EntryRow(snapshot: nat, path: Bytes, kind: EntryKind, logicalSize: nat, fileHash: Option<Bytes>)

  datatype WarningRow = WarningRow(snapshot: nat, path: Bytes)

  datatype MappingRow = MappingRow(chunk: Digest, offset: nat, length: nat)

  /** The tables. Mappings are keyed by entry and sequence number; the last ids handed out are part of
      the database, because a rollback takes them back. */
  datatype Db = Db(snapshots: map<nat, SnapshotRow>, entries: map<nat, EntryRow>, warnings: map<nat, WarningRow>,
                   chunks: map<Digest, ChunkRow>, mappings: map<(nat, nat), MappingRow>,
                   lastSnapshot: nat, lastEntry: nat, lastWarning: nat)

  datatype DbError = InvalidArgument | DatabaseError | ObjectCorrupt

  const INTERRUPTED := "snapshot operation was interrupted before publication"

  function EmptyDb(): Db {
    Db(map[], map[], map[], map[], map[], 0, 0, 0)
  }

  // ----- selections ----------------------------------------------------------------------------

  predicate HasStatus(db: Db, id: nat, status: Status) {
    id in db.snapshots && db.snapshots[id].status == status
  }

  function EntriesOf(db: Db, id: nat): set<nat> {
    set e | e in db.entries && db.entries[e].snapshot == id
  }

  function WarningsOf(db: Db, id: nat): set<nat> {
    set w | w in db.warnings && db.warnings[w].snapshot == id
  }

  function OfKind(db: Db, id: nat, kind: EntryKind): set<nat> {
    set e | e in db.entries && db.entries[e].snapshot == id && db.entries[e].kind == kind
  }

  /** What readers get: the entries of a complete snapshot, and nothing of any other. */
  function ListEntries(db: Db, id: nat): map<nat, EntryRow> {
    map e | e in db.entries && db.entries[e].snapshot == id && HasStatus(db, id, Complete) :: db.entries[e]
  }

  function ListChunks(db: Db, entry: nat): map<(nat, nat), (MappingRow, ChunkRow)> {
    map m | m in db.mappings && m.0 == entry && entry in db.entries && HasStatus(db, db.entries[entry].snapshot, Complete)
            && db.mappings[m].chunk in db.chunks
      :: (db.mappings[m], db.chunks[db.mappings[m].chunk])
  }

  /** The logical size of the files of snapshot `id` among the entries below `n`. */
  function SizeBelow(db: Db, id: nat, n: nat): nat {
    if n == 0 then 0
    else SizeBelow(db, id, n - 1) +
         if n - 1 in OfKind(db, id, Regular) then db.entries[n - 1].logicalSize else 0
  }

  /** The counters as recomputed from the rows. */
  function Recount(db: Db, id: nat): Counts {
    Counts(|OfKind(db, id, Regular)|, |OfKind(db, id, Folder)|, |OfKind(db, id, Link)|, SizeBelow(db, id, db.lastEntry + 1))
  }

  predicate IsHexDigit(b: Byte) {
    48 <= b <= 57 || 97 <= b <= 102
  }

  predicate IsHash(h: Bytes) {
    |h| == 64 && forall i :: 0 <= i < 64 ==> IsHexDigit(h[i])
  }

  predicate AllHashed(db: Db, id: nat) {
    forall e :: e in OfKind(db, id, Regular) ==> db.entries[e].fileHash.Some?
  }

  // ----- the mutators --------------------------------------------------------------------------

  datatype Op =
    | CreatePending
    | InsertEntry(snapshot: nat, path: Bytes, kind: EntryKind, logicalSize: nat)
    | SetFileHash(entry: nat, hash: Bytes)
    | EnsureChunk(chunk: Digest, row: ChunkRow)
    | InsertMapping(entry: nat, sequence: nat, mapping: MappingRow)
    | InsertWarning(snapshot: nat, path: Bytes)
    | MarkComplete(snapshot: nat, chunkCounts: ChunkCounts)
    | MarkIncomplete(snapshot: nat, status: Status, message: string)
    | MarkDeleting(snapshot: nat)

  function SetStatus(db: Db, id: nat, row: SnapshotRow): Db {
    db.(snapshots := db.snapshots[id := row])
  }

  predicate PathTaken(db: Db, snapshot: nat, path: Bytes) {
    exists e :: e in db.entries && db.entries[e].snapshot == snapshot && db.entries[e].path == path
  }

  function AfterCreate(db: Db): Db {
    db.(lastSnapshot := db.lastSnapshot + 1,
        snapshots := db.snapshots[db.lastSnapshot + 1 := SnapshotRow(Pending, Counts(0, 0, 0, 0), ChunkCounts(0, 0, 0), None)])
  }

  function AfterInsert(db: Db, row: EntryRow): Db {
    db.(lastEntry := db.lastEntry + 1, entries := db.entries[db.lastEntry + 1 := row])
  }

  function AfterWarning(db: Db, row: WarningRow): Db {
    db.(lastWarning := db.lastWarning + 1, warnings := db.warnings[db.lastWarning + 1 := row])
  }

  function AfterHash(db: Db, entry: nat, hash: Bytes): Db
    requires entry in db.entries
  {
    db.(entries := db.entries[entry := db.entries[entry].(fileHash := Some(hash))])
  }

  /** One mutator, with the constraints of the schema and the guards of its statement. */
  function Do(db: Db, op: Op): Result<Db, DbError> {
    match op
    case CreatePending => Ok(AfterCreate(db))
    case InsertEntry(id, path, kind, size) =>
      if id !in db.snapshots || PathTaken(db, id, path) then Err(DatabaseError)
      else Ok(AfterInsert(db, EntryRow(id, path, kind, size, None)))
    case SetFileHash(e, hash) =>
      if !IsHash(hash) then Err(InvalidArgument)
      else if e !in db.entries || db.entries[e].kind != Regular || db.entries[e].fileHash.Some?
              || !HasStatus(db, db.entries[e].snapshot, Pending) then Err(InvalidArgument)
      else Ok(AfterHash(db, e, hash))
    case EnsureChunk(h, row) =>
      if row.rawSize == 0 || row.storedSize == 0 then Err(DatabaseError)
      else if h !in db.chunks then Ok(db.(chunks := db.chunks[h := row]))
      else if db.chunks[h] == row then Ok(db)
      else Err(ObjectCorrupt)
    case InsertMapping(e, sequence, m) =>
      if e !in db.entries || m.chunk !in db.chunks || m.length == 0 || (e, sequence) in db.mappings then Err(DatabaseError)
      else Ok(db.(mappings := db.mappings[(e, sequence) := m]))
    case InsertWarning(id, path) =>
      if id !in db.snapshots then Err(DatabaseError) else Ok(AfterWarning(db, WarningRow(id, path)))
    case MarkComplete(id, chunkCounts) =>
      if !HasStatus(db, id, Pending) || !AllHashed(db, id) then Err(InvalidArgument)
      else Ok(SetStatus(db, id, db.snapshots[id].(status := Complete, counts := Recount(db, id), chunkCounts := chunkCounts)))
    case MarkIncomplete(id, status, message) =>
      if status != Failed && status != Cancelled then Err(InvalidArgument)
      else if !HasStatus(db, id, Pending) then Err(InvalidArgument)
      else Ok(SetStatus(db, id, db.snapshots[id].(status := status, failure := Some(message))))
    case MarkDeleting(id) =>
      if !HasStatus(db, id, Complete) then Err(InvalidArgument)
      else Ok(SetStatus(db, id, db.snapshots[id].(status := Deleting)))
  }

  /** The discipline of the one writer that holds the repository lock: it inserts rows only for the
      pending snapshot it has created. */
  predicate Allowed(db: Db, op: Op) {
    match op
    case InsertEntry(id, _, _, _) => id in db.snapshots ==> HasStatus(db, id, Pending)
    case InsertWarning(id, _) => id in db.snapshots ==> HasStatus(db, id, Pending)
    case InsertMapping(e, _, _) => e in db.entries ==> HasStatus(db, db.entries[e].snapshot, Pending)
    case _ => true
  }

  // ----- the steps of cleaning up --------------------------------------------------------------

  /** Deleting entries takes their mappings with them. */
  function WithoutEntries(db: Db, ids: set<nat>): Db {
    db.(entries := map e | e in db.entries && e !in ids :: db.entries[e],
        mappings := map m | m in db.mappings && m.0 !in ids :: db.mappings[m])
  }

  function WithoutWarnings(db: Db, ids: set<nat>): Db {
    db.(warnings := map w | w in db.warnings && w !in ids :: db.warnings[w])
  }

  /** Deleting a snapshot takes everything that refers to it along. */
  function WithoutSnapshot(db: Db, id: nat): Db {
    var bare := WithoutWarnings(WithoutEntries(db, EntriesOf(db, id)), WarningsOf(db, id));
    bare.(snapshots := map i | i in db.snapshots && i != id :: db.snapshots[i])
  }

  function Interrupted(row: SnapshotRow): SnapshotRow {
    row.(status := Failed, failure := Some(INTERRUPTED))
  }

  // ----- the invariant -------------------------------------------------------------------------

  predicate ForeignKeys(db: Db) {
    && (forall e :: e in db.entries ==> db.entries[e].snapshot in db.snapshots)
    && (forall w :: w in db.warnings ==> db.warnings[w].snapshot in db.snapshots)
    && (forall m :: m in db.mappings ==> m.0 in db.entries && db.mappings[m].chunk in db.chunks)
  }

  ghost predicate IdsBounded(db: Db) {
    && (forall id :: id in db.snapshots ==> id <= db.lastSnapshot)
    && (forall e :: e in db.entries ==> e <= db.lastEntry)
    && (forall w :: w in db.warnings ==> w <= db.lastWarning)
  }

  ghost predicate PathsUnique(db: Db) {
    forall a, b ::
      a in db.entries && b in db.entries && a != b && db.entries[a].snapshot == db.entries[b].snapshot ==>
        db.entries[a].path != db.entries[b].path
  }

  /** A complete snapshot has a hash for every file, and counters that are those of its rows. */
  ghost predicate CompleteIsTrue(db: Db) {
    && (forall e :: e in db.entries && db.entries[e].fileHash.Some? ==> IsHash(db.entries[e].fileHash.value))
    && (forall id :: HasStatus(db, id, Complete) ==> AllHashed(db, id) && db.snapshots[id].counts == Recount(db, id))
  }

  ghost predicate Sound(db: Db) {
    ForeignKeys(db) && IdsBounded(db) && PathsUnique(db) && CompleteIsTrue(db)
  }

  /** The two databases agree on the snapshot `id`: its row, its entries and their mappings, its
      warnings. */
  ghost predicate SameSnapshot(db: Db, db': Db, id: nat) {
    && (id in db'.snapshots <==> id in db.snapshots) && (id in db.snapshots ==> db'.snapshots[id] == db.snapshots[id])
    && SameEntries(db, db', id)
    && (forall w :: w in WarningsOf(db, id) || w in WarningsOf(db', id) ==>
          w in db.warnings && w in db'.warnings && db'.warnings[w] == db.warnings[w])
    && (forall m :: m in db.mappings && m.0 in EntriesOf(db, id) ==> m in db'.mappings && db'.mappings[m] == db.mappings[m])
    && (forall m :: m in db'.mappings && m.0 in EntriesOf(db, id) ==> m in db.mappings)
  }

  ghost predicate SameEntries(db: Db, db': Db, id: nat) {
    && EntriesOf(db', id) == EntriesOf(db, id)
    && (forall e :: e in EntriesOf(db, id) ==> db'.entries[e] == db.entries[e])
  }

  lemma {:induction false} SizeFrame(db: Db, db': Db, id: nat, n: nat)
    requires SameEntries(db, db', id)
    ensures SizeBelow(db', id, n) == SizeBelow(db, id, n)
  {
    if n > 0 {
      SizeFrame(db, db', id, n - 1);
      assert n - 1 in OfKind(db, id, Regular) ==> n - 1 in EntriesOf(db, id);
      assert n - 1 in OfKind(db', id, Regular) ==> n - 1 in EntriesOf(db', id);
    }
  }

  lemma {:induction false} SizeBeyond(db: Db, id: nat, m: nat, n: nat)
    requires m <= n && forall e :: e in EntriesOf(db, id) ==> e < m
    ensures SizeBelow(db, id, n) == SizeBelow(db, id, m)
  {
    if m < n {
      SizeBeyond(db, id, m, n - 1);
      assert n - 1 in OfKind(db, id, Regular) ==> n - 1 in EntriesOf(db, id);
    }
  }

  /** Counters and hashes of a snapshot depend on its entries only. */
  lemma RecountFrame(db: Db, db': Db, id: nat)
    requires SameEntries(db, db', id) && IdsBounded(db) && db.lastEntry <= db'.lastEntry
    ensures Recount(db', id) == Recount(db, id) && (AllHashed(db', id) <==> AllHashed(db, id))
  {
    forall kind: EntryKind
      ensures OfKind(db', id, kind) == OfKind(db, id, kind)
    {
      KindFrame(db, db', id, kind);
    }
    SizeFrame(db, db', id, db'.lastEntry + 1);
    SizeBeyond(db, id, db.lastEntry + 1, db'.lastEntry + 1);
    assert forall e :: e in OfKind(db, id, Regular) ==> e in EntriesOf(db, id);
  }

  lemma KindFrame(db: Db, db': Db, id: nat, kind: EntryKind)
    requires SameEntries(db, db', id)
    ensures OfKind(db', id, kind) == OfKind(db, id, kind)
  {
    assert forall e :: e in OfKind(db, id, kind) <==> e in EntriesOf(db, id) && db.entries[e].kind == kind;
    assert forall e :: e in OfKind(db', id, kind) <==> e in EntriesOf(db', id) && db'.entries[e].kind == kind;
  }

  // ----- what the mutators keep ----------------------------------------------------------------

  lemma EntriesStay(db: Db, op: Op, id: nat)
    requires Sound(db) && Allowed(db, op) && Do(db, op).Ok? && HasStatus(db, id, Complete)
    ensures SameEntries(db, Do(db, op).value, id)
  {
    var db' := Do(db, op).value;
    assert forall e :: e in EntriesOf(db, id) <==> e in db.entries && db.entries[e].snapshot == id;
    assert forall e :: e in EntriesOf(db', id) <==> e in db'.entries && db'.entries[e].snapshot == id;
  }

  lemma OthersStay(db: Db, op: Op, id: nat)
    requires Sound(db) && Allowed(db, op) && Do(db, op).Ok? && HasStatus(db, id, Complete)
    requires op.InsertMapping? || op.InsertWarning?
    ensures SameSnapshot(db, Do(db, op).value, id)
  {
    EntriesStay(db, op, id);
  }

  /** No operation of the writer touches a complete snapshot, but for the one that starts deleting it. */
  lemma CompleteSnapshotsStay(db: Db, op: Op, id: nat)
    requires Sound(db) && Allowed(db, op) && Do(db, op).Ok? && HasStatus(db, id, Complete)
    ensures SameEntries(db, Do(db, op).value, id)
    ensures op != MarkDeleting(id) ==> SameSnapshot(db, Do(db, op).value, id)
  {
    EntriesStay(db, op, id);
    if op.InsertMapping? || op.InsertWarning? {
      OthersStay(db, op, id);
    }
  }

  lemma KeysStay(db: Db, op: Op)
    requires Sound(db) && Do(db, op).Ok?
    ensures ForeignKeys(Do(db, op).value) && IdsBounded(Do(db, op).value)
  {
  }

  lemma PathsStay(db: Db, op: Op)
    requires Sound(db) && Do(db, op).Ok?
    ensures PathsUnique(Do(db, op).value)
  {
  }

  lemma TruthStays(db: Db, op: Op)
    requires Sound(db) && Allowed(db, op) && Do(db, op).Ok?
    ensures CompleteIsTrue(Do(db, op).value)
  {
    var db' := Do(db, op).value;
    forall id | HasStatus(db', id, Complete)
      ensures AllHashed(db', id) && db'.snapshots[id].counts == Recount(db', id)
    {
      if HasStatus(db, id, Complete) {
        CompleteSnapshotsStay(db, op, id);
        RecountFrame(db, db', id);
      } else {
        assert op.MarkComplete? && op.snapshot == id;
        assert EntriesOf(db', id) == EntriesOf(db, id);
        RecountFrame(db, db', id);
      }
    }
  }

  lemma OpKeepsSound(db: Db, op: Op)
    requires Sound(db) && Allowed(db, op) && Do(db, op).Ok?
    ensures Sound(Do(db, op).value)
  {
    KeysStay(db, op);
    PathsStay(db, op);
    TruthStays(db, op);
  }

  /** No operation changes or removes a chunk row. */
  lemma ChunkRowsStay(db: Db, op: Op, h: Digest)
    requires Do(db, op).Ok? && h in db.chunks
    ensures h in Do(db, op).value.chunks && Do(db, op).value.chunks[h] == db.chunks[h]
  {
  }

  predicate Publishes(op: Op, id: nat) {
    op.MarkComplete? && op.snapshot == id
  }

  lemma CompletenessStays(db: Db, op: Op, id: nat)
    requires Sound(db) && Do(db, op).Ok? && !Publishes(op, id) && op != MarkDeleting(id)
    ensures HasStatus(Do(db, op).value, id, Complete) <==> HasStatus(db, id, Complete)
  {
  }

  lemma SameEntriesAreListed(db: Db, db': Db, id: nat)
    requires SameEntries(db, db', id) && (HasStatus(db', id, Complete) <==> HasStatus(db, id, Complete))
    ensures ListEntries(db', id) == ListEntries(db, id)
  {
    assert forall e :: e in EntriesOf(db, id) <==> e in db.entries && db.entries[e].snapshot == id;
    assert forall e :: e in EntriesOf(db', id) <==> e in db'.entries && db'.entries[e].snapshot == id;
  }

  /** Publication is atomic for readers: what they see of a snapshot changes only with the operation that
      completes it and the one that starts deleting it. */
  lemma ReadersSeePublicationOnly(db: Db, op: Op, id: nat)
    requires Sound(db) && Allowed(db, op) && Do(db, op).Ok? && !Publishes(op, id) && op != MarkDeleting(id)
    ensures ListEntries(Do(db, op).value, id) == ListEntries(db, id)
  {
    var db' := Do(db, op).value;
    CompletenessStays(db, op, id);
    if HasStatus(db, id, Complete) {
      EntriesStay(db, op, id);
      SameEntriesAreListed(db, db', id);
    }
  }

  /** What the operations that decide a snapshot make of its row, and that they touch nothing else: only a
      pending snapshot is decided, it gets the counters of its rows or the failure it is given, and a new
      one is pending, empty and never had its id before. */
  lemma SnapshotsAreDecidedOnce(db: Db, op: Op, id: nat)
    requires Sound(db) && Do(db, op).Ok?
    ensures var db' := Do(db, op).value;
            && (op.MarkComplete? && op.snapshot == id ==>
                  && HasStatus(db, id, Pending) && HasStatus(db', id, Complete) && db'.snapshots[id].counts == Recount(db', id)
                  && db'.snapshots[id].chunkCounts == op.chunkCounts && db'.snapshots[id].failure == db.snapshots[id].failure)
            && (op.MarkIncomplete? && op.snapshot == id ==>
                  && HasStatus(db, id, Pending) && HasStatus(db', id, op.status) && (op.status == Failed || op.status == Cancelled)
                  && db'.snapshots[id] == db.snapshots[id].(status := op.status, failure := Some(op.message)))
            && (op == MarkDeleting(id) ==> HasStatus(db, id, Complete) && HasStatus(db', id, Deleting))
            && (op.CreatePending? && id !in db.snapshots && id in db'.snapshots ==>
                  && id > db.lastSnapshot && HasStatus(db', id, Pending) && EntriesOf(db', id) == {} && WarningsOf(db', id) == {}
                  && db'.snapshots[id].counts == Recount(db', id) && db'.snapshots[id].failure == None)
            && (op.CreatePending? ==> db'.lastSnapshot in db'.snapshots && db'.lastSnapshot !in db.snapshots)
            && (op.MarkComplete? || op.MarkIncomplete? || op.MarkDeleting? ==>
                  db' == db.(snapshots := db'.snapshots) && db'.snapshots.Keys == db.snapshots.Keys)
            && (id in db.snapshots && db'.snapshots[id] != db.snapshots[id] ==>
                  (op.MarkComplete? || op.MarkIncomplete? || op.MarkDeleting?) && op.snapshot == id)
  {
    var db' := Do(db, op).value;
    if op.MarkComplete? && op.snapshot == id {
      assert EntriesOf(db', id) == EntriesOf(db, id);
      RecountFrame(db, db', id);
    } else if op.CreatePending? {
      assert EntriesOf(db', db'.lastSnapshot) == {} && WarningsOf(db', db'.lastSnapshot) == {};
      NothingCounted(db', db'.lastSnapshot, db'.lastEntry + 1);
    }
  }

  lemma {:induction false} NothingCounted(db: Db, id: nat, n: nat)
    requires EntriesOf(db, id) == {}
    ensures SizeBelow(db, id, n) == 0 && Recount(db, id).(logicalSize := 0) == Counts(0, 0, 0, 0)
  {
    assert OfKind(db, id, Regular) <= EntriesOf(db, id) && OfKind(db, id, Folder) <= EntriesOf(db, id) && OfKind(db, id, Link) <= EntriesOf(db, id);
    if n > 0 {
      NothingCounted(db, id, n - 1);
    }
  }

  /** What readers get: all rows of a complete snapshot and nothing of any other; and of its entries all
      chunks, each mapping with its chunk row. */
  lemma ReadersGetTheRows(db: Db, id: nat, e: nat)
    requires ForeignKeys(db)
    ensures HasStatus(db, id, Complete) ==>
              ListEntries(db, id).Keys == EntriesOf(db, id) && forall x :: x in EntriesOf(db, id) ==> ListEntries(db, id)[x] == db.entries[x]
    ensures !HasStatus(db, id, Complete) ==> ListEntries(db, id) == map[]
    ensures e in EntriesOf(db, id) && HasStatus(db, id, Complete) ==>
              forall k :: ((e, k) in ListChunks(db, e) <==> (e, k) in db.mappings)
                          && ((e, k) in db.mappings ==> ListChunks(db, e)[(e, k)] == (db.mappings[(e, k)], db.chunks[db.mappings[(e, k)].chunk]))
    ensures (e in EntriesOf(db, id) && !HasStatus(db, id, Complete)) || e !in db.entries ==> ListChunks(db, e) == map[]
  {
    assert forall x :: x in EntriesOf(db, id) <==> x in db.entries && db.entries[x].snapshot == id;
    if HasStatus(db, id, Complete) {
      assert ListEntries(db, id).Keys == EntriesOf(db, id);
    }
  }

  /** Exactly when an operation is accepted. */
  lemma AcceptedIff(db: Db, op: Op)
    ensures Do(db, op).Ok? <==>
            match op
            case CreatePending => true
            case InsertEntry(id, path, _, _) => id in db.snapshots && forall e :: e in EntriesOf(db, id) ==> db.entries[e].path != path
            case SetFileHash(e, hash) =>
              && |hash| == 64 && (forall b :: b in hash ==> (48 <= b <= 57) || (97 <= b <= 102))
              && e in db.entries && db.entries[e].kind == Regular && db.entries[e].fileHash == None
              && db.entries[e].snapshot in db.snapshots && db.snapshots[db.entries[e].snapshot].status == Pending
            case EnsureChunk(h, row) => row.rawSize > 0 && row.storedSize > 0 && (h in db.chunks ==> db.chunks[h] == row)
            case InsertMapping(e, k, m) => e in db.entries && m.chunk in db.chunks && m.length > 0 && (e, k) !in db.mappings
            case InsertWarning(id, _) => id in db.snapshots
            case MarkComplete(id, _) =>
              && id in db.snapshots && db.snapshots[id].status == Pending
              && forall e :: e in EntriesOf(db, id) && db.entries[e].kind == Regular ==> db.entries[e].fileHash.Some?
            case MarkIncomplete(id, status, _) =>
              id in db.snapshots && db.snapshots[id].status == Pending && (status == Failed || status == Cancelled)
            case MarkDeleting(id) => id in db.snapshots && db.snapshots[id].status == Complete
  {
    match op
    case InsertEntry(id, _, _, _) =>
      assert forall e :: e in EntriesOf(db, id) <==> e in db.entries && db.entries[e].snapshot == id;
    case SetFileHash(_, hash) =>
      assert (forall b :: b in hash ==> IsHexDigit(b)) <==> forall i :: 0 <= i < |hash| ==> IsHexDigit(hash[i]);
    case MarkComplete(id, _) =>
      assert forall e :: e in OfKind(db, id, Regular) <==> e in EntriesOf(db, id) && db.entries[e].kind == Regular;
    case _ =>
  }
}
