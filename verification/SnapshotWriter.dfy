/** What the writer of a snapshot does to the tables with what the workers hand it: the rows of each entry
    and of its chunks, the counters kept alongside, and that these are the counters of the rows. */
module SnapshotWriters {
  import opened Common
  import opened Capturing
  import opened Pipeline
  import O = Objects
  import R = Reassembly
  import M = Metadata

  /** What comes out of the queue of results: a warning, or an entry with, for a file, its chunks as they
      were spooled and its hash. */
  datatype Processed =
    | Note(path: Bytes)
    | Item(path: Bytes, kind: M.EntryKind, logicalSize: nat, refs: seq<Ref>, fileHash: Bytes)

  // ----- as rows -------------------------------------------------------------------------------

  /** What a file has beyond its entry: its chunks in order, and last its hash. */
  function WriteFile(db: M.Db, entry: nat, item: Processed): Result<M.Db, M.DbError>
    requires item.Item?
  {
    match R.WriteRefs(db, entry, item.refs)
    case Err(e) => Err(e)
    case Ok(mapped) => M.Do(mapped, M.SetFileHash(entry, item.fileHash))
  }

  /** The rows of one result. */
  function WriteProcessed(db: M.Db, id: nat, item: Processed): Result<M.Db, M.DbError> {
    match item
    case Note(path) => M.Do(db, M.InsertWarning(id, path))
    case Item(path, kind, size, _, _) =>
      match M.Do(db, M.InsertEntry(id, path, kind, size))
      case Err(e) => Err(e)
      case Ok(with) => if kind == M.Regular then WriteFile(with, with.lastEntry, item) else Ok(with)
  }

  function WriteAll(db: M.Db, id: nat, items: seq<Processed>): Result<M.Db, M.DbError>
    decreases |items|
  {
    if items == [] then Ok(db)
    else
      match WriteAll(db, id, items[..|items| - 1])
      case Err(e) => Err(e)
      case Ok(before) => WriteProcessed(before, id, items[|items| - 1])
  }

  // ----- as counters ---------------------------------------------------------------------------

  /** The positions of the chunks that were not in the store before. */
  function NewAt(refs: seq<Ref>): set<nat> {
    set k: nat | k < |refs| && refs[k].stored.newly
  }

  function NewBytes(refs: seq<Ref>): nat {
    if refs == [] then 0
    else NewBytes(refs[..|refs| - 1]) + if refs[|refs| - 1].stored.newly then refs[|refs| - 1].stored.storedSize else 0
  }

  lemma {:induction false} NewAtMost(refs: seq<Ref>)
    ensures |NewAt(refs)| <= |refs|
    decreases |refs|
  {
    if refs != [] {
      OneMoreRef(refs, |refs| - 1);
      NewAtMost(refs[..|refs| - 1]);
      assert refs[..|refs|] == refs;
    }
  }

  lemma OneMoreRef(refs: seq<Ref>, i: nat)
    requires i < |refs|
    ensures refs[..i + 1][..i] == refs[..i] && refs[..i + 1][i] == refs[i]
    ensures |NewAt(refs[..i + 1])| == |NewAt(refs[..i])| + if refs[i].stored.newly then 1 else 0
    ensures NewBytes(refs[..i + 1]) == NewBytes(refs[..i]) + if refs[i].stored.newly then refs[i].stored.storedSize else 0
  {
    assert refs[..i + 1][..i] == refs[..i];
    assert NewAt(refs[..i + 1]) == NewAt(refs[..i]) + if refs[i].stored.newly then {i} else {};
  }

  function KindOf(kind: M.EntryKind): Kind {
    match kind
    case Regular => RegularFile
    case Folder => Directory
    case Link => SymbolicLink
  }

  /** What the pipeline says of an entry: its kind, its size, and how many of its chunks are new. */
  function Summary(id: nat, item: Processed): Row {
    match item
    case Note(_) => Row(id, Warning, 0, 0, 0, 0)
    case Item(_, kind, size, refs, _) =>
      if kind != M.Regular then Row(id, KindOf(kind), size, 0, 0, 0)
      else
        NewAtMost(refs);
        Row(id, RegularFile, size, |NewAt(refs)|, |refs| - |NewAt(refs)|, NewBytes(refs))
  }

  function NoTotals(): Totals {
    Totals(0, 0, 0, 0, 0, 0, 0)
  }

  function TotalsFor(items: seq<Processed>): Totals {
    if items == [] then NoTotals() else CountRow(TotalsFor(items[..|items| - 1]), Summary(0, items[|items| - 1]))
  }

  // ----- the writer ----------------------------------------------------------------------------

  datatype WriteError = Stopped | Overflow | Database(error: M.DbError)

  function CountRefs(t: Totals, refs: seq<Ref>): Totals {
    NewAtMost(refs);
    t.(newChunks := t.newChunks + |NewAt(refs)|, reusedChunks := t.reusedChunks + (|refs| - |NewAt(refs)|),
       newStored := t.newStored + NewBytes(refs))
  }

  /** The counters after one chunk. */
  function CountRef(t: Totals, ref: Ref): Totals {
    if ref.stored.newly then t.(newChunks := t.newChunks + 1, newStored := t.newStored + ref.stored.storedSize)
    else t.(reusedChunks := t.reusedChunks + 1)
  }

  lemma CountedOneByOne(t: Totals, db: M.Db, entry: nat, refs: seq<Ref>, i: nat)
    requires i < |refs|
    ensures CountRefs(t, refs[..i + 1]) == CountRef(CountRefs(t, refs[..i]), refs[i])
    ensures R.WriteRefs(db, entry, refs[..i + 1]) ==
            match R.WriteRefs(db, entry, refs[..i]) case Err(e) => R.WriteRefs(db, entry, refs[..i]) case Ok(before) => R.WriteRef(before, entry, refs[i])
  {
    OneMoreRef(refs, i);
  }

  /** A counter would leave the 64-bit range. */
  predicate TooMuch(t: Totals, item: Processed) {
    var t' := CountRow(t, Summary(0, item));
    t'.logicalSize > MAX_UINT64 || t'.newStored > MAX_UINT64
  }

  /** The writer with its open transaction. The position in the spool and the counters advance chunk by
      chunk; with patience, that many looks at the stop token pass before a stop is seen. */
  class SnapshotWriter {
    const snapshot: nat
    var db: M.Db
    var totals: Totals
    var patience: Budget

    constructor (snapshot: nat, db: M.Db, patience: Budget)
      ensures this.snapshot == snapshot && this.db == db && totals == NoTotals() && this.patience == patience
    {
      this.snapshot, this.db, totals, this.patience := snapshot, db, NoTotals(), patience;
    }

    method StopSeen() returns (stop: bool)
      modifies this`patience
      ensures old(patience) == None ==> !stop && patience == None
    {
      stop, patience := Spent(patience), OneLess(patience);
    }

    /** One chunk of the spool: registered, mapped and counted. */
    method InsertRef(entry: nat, ref: Ref) returns (r: Result<nat, WriteError>)
      requires totals.newStored <= MAX_UINT64
      modifies this
      ensures r.Ok? ==> R.WriteRef(old(db), entry, ref) == Ok(db) && totals.newStored <= MAX_UINT64
      ensures r.Ok? ==> totals == CountRef(old(totals), ref)
      ensures old(patience) == None ==> patience == None
      ensures r.Err? ==> old(patience).Some? || R.WriteRef(old(db), entry, ref).Err? || CountRef(old(totals), ref).newStored > MAX_UINT64
    {
      var stop := StopSeen();
      if stop {
        return Err(WriteError.Stopped);
      }
      var with := M.Do(db, M.EnsureChunk(ref.stored.hash, O.ChunkRow(ref.stored.rawSize, ref.stored.storedSize)));
      if with.Err? {
        return Err(Database(with.error));
      }
      db := with.value;
      with := M.Do(db, M.InsertMapping(entry, ref.sequence, M.MappingRow(ref.stored.hash, ref.offset, ref.stored.rawSize)));
      if with.Err? {
        return Err(Database(with.error));
      }
      db := with.value;
      if ref.stored.newly {
        if totals.newStored > MAX_UINT64 - ref.stored.storedSize {
          return Err(Overflow);
        }
        totals := totals.(newChunks := totals.newChunks + 1, newStored := totals.newStored + ref.stored.storedSize);
      } else {
        totals := totals.(reusedChunks := totals.reusedChunks + 1);
      }
      return Ok(ref.sequence);
    }

    /** The loop over the spool. */
    method InsertRefs(entry: nat, refs: seq<Ref>) returns (r: Result<nat, WriteError>)
      requires totals.newStored <= MAX_UINT64
      modifies this
      ensures r.Ok? ==> R.WriteRefs(old(db), entry, refs) == Ok(db) && totals == CountRefs(old(totals), refs) && totals.newStored <= MAX_UINT64
      ensures old(patience) == None ==> patience == None
      ensures r.Err? ==> old(patience).Some? || R.WriteRefs(old(db), entry, refs).Err? || old(totals).newStored + NewBytes(refs) > MAX_UINT64
    {
      ghost var start, before := db, totals;
      for index := 0 to |refs|
        invariant totals.newStored <= MAX_UINT64 && (old(patience) == None ==> patience == None)
        invariant R.WriteRefs(start, entry, refs[..index]) == Ok(db) && totals == CountRefs(before, refs[..index])
      {
        CountedOneByOne(before, start, entry, refs, index);
        var one := InsertRef(entry, refs[index]);
        if one.Err? {
          FailsLater(start, entry, refs, index + 1);
          return one;
        }
      }
      assert refs[..|refs|] == refs;
      return Ok(|refs|);
    }

    /** What a file has beyond its entry: the counters, the chunks and the hash. */
    method InsertFile(entry: nat, item: Processed) returns (r: Result<nat, WriteError>)
      requires item.Item? && item.kind == M.Regular && totals.logicalSize <= MAX_UINT64 && totals.newStored <= MAX_UINT64
      modifies this
      ensures r.Ok? ==> WriteFile(old(db), entry, item) == Ok(db) && totals == CountRow(old(totals), Summary(0, item))
      ensures r.Ok? ==> totals.logicalSize <= MAX_UINT64 && totals.newStored <= MAX_UINT64
      ensures old(patience) == None ==> patience == None
      ensures r.Err? ==> old(patience).Some? || WriteFile(old(db), entry, item).Err? || TooMuch(old(totals), item)
    {
      totals := totals.(files := totals.files + 1);
      if totals.logicalSize > MAX_UINT64 - item.logicalSize {
        return Err(Overflow);
      }
      totals := totals.(logicalSize := totals.logicalSize + item.logicalSize);
      r := InsertRefs(entry, item.refs);
      if r.Ok? {
        var done := M.Do(db, M.SetFileHash(entry, item.fileHash));
        if done.Err? {
          return Err(Database(done.error));
        }
        db := done.value;
      }
    }

    /** One result: its rows, and the counters as the pipeline says. It fails only if a stop is seen, the
        tables refuse a row, or a counter would leave its range. */
    method InsertProcessed(item: Processed) returns (r: Result<nat, WriteError>)
      requires totals.logicalSize <= MAX_UINT64 && totals.newStored <= MAX_UINT64
      modifies this
      ensures r.Ok? ==> WriteProcessed(old(db), snapshot, item) == Ok(db) && totals == CountRow(old(totals), Summary(0, item))
      ensures r.Ok? ==> totals.logicalSize <= MAX_UINT64 && totals.newStored <= MAX_UINT64
      ensures old(patience) == None ==> patience == None
      ensures r.Err? ==> old(patience).Some? || WriteProcessed(old(db), snapshot, item).Err? || TooMuch(old(totals), item)
    {
      if item.Note? {
        var noted := M.Do(db, M.InsertWarning(snapshot, item.path));
        if noted.Err? {
          return Err(Database(noted.error));
        }
        db := noted.value;
        return Ok(0);
      }
      var stop := StopSeen();
      if stop {
        return Err(WriteError.Stopped);
      }
      var with := M.Do(db, M.InsertEntry(snapshot, item.path, item.kind, item.logicalSize));
      if with.Err? {
        return Err(Database(with.error));
      }
      db := with.value;
      match item.kind {
        case Folder =>
          totals := totals.(directories := totals.directories + 1);
          return Ok(db.lastEntry);
        case Link =>
          totals := totals.(links := totals.links + 1);
          return Ok(db.lastEntry);
        case Regular =>
          r := InsertFile(db.lastEntry, item);
      }
    }
  }

  lemma {:induction false} FailsLater(db: M.Db, entry: nat, refs: seq<Ref>, i: nat)
    requires i <= |refs|
    ensures R.WriteRefs(db, entry, refs[..i]).Err? ==> R.WriteRefs(db, entry, refs).Err?
    ensures NewBytes(refs[..i]) <= NewBytes(refs)
    decreases |refs| - i
  {
    if i < |refs| {
      OneMoreRef(refs, i);
      FailsLater(db, entry, refs, i + 1);
    } else {
      assert refs[..i] == refs;
    }
  }
}
