/** What is in the tables once a snapshot has been written: for each result of the workers exactly its rows,
    and nothing else. */
module SnapshotRows {
  import opened Common
  import opened Capturing
  import opened SnapshotWriters
  import C = SnapshotCounters
  import M = Metadata
  import O = Objects
  import R = Reassembly

  /** Row `e` of the entries is the item's, with its hash and its chunks in order if it is a file. */
  ghost predicate IsRowOf(db: M.Db, id: nat, item: Processed, e: nat) {
    && item.Item? && e in db.entries
    && db.entries[e] == M.EntryRow(id, item.path, item.kind, item.logicalSize, if item.kind == M.Regular then Some(item.fileHash) else None)
    && R.ListsAs(db, e, if item.kind == M.Regular then R.ListedAll(item.refs) else [])
  }

  predicate IsWarningOf(db: M.Db, id: nat, item: Processed, w: nat) {
    item.Note? && w in db.warnings && db.warnings[w] == M.WarningRow(id, item.path)
  }

  /** The chunks of a file are numbered in order, as those of every captured file are. */
  ghost predicate IsNumbered(item: Processed) {
    item.Item? ==> R.Numbered(item.refs)
  }

  // ----- nothing else changes ------------------------------------------------------------------

  /** What was there before is still there: entry `e` with its chunks. */
  ghost predicate EntryStays(db: M.Db, db': M.Db, e: nat) {
    && e in db.entries && e in db'.entries && db'.entries[e] == db.entries[e]
    && forall rows :: R.ListsAs(db, e, rows) ==> R.ListsAs(db', e, rows)
  }

  lemma RefKeepsOthers(db: M.Db, entry: nat, ref: Ref, e: nat, rows: seq<R.Listed>)
    requires R.WriteRef(db, entry, ref).Ok? && e != entry && R.ListsAs(db, e, rows)
    ensures R.ListsAs(R.WriteRef(db, entry, ref).value, e, rows)
  {
    var db' := R.WriteRef(db, entry, ref).value;
    forall k | 0 <= k < |rows|
      ensures R.HasRow(db', e, k, rows[k])
    {
      assert R.HasRow(db, e, k, rows[k]);
    }
  }

  lemma {:induction false} RefsKeepOthers(db: M.Db, entry: nat, refs: seq<Ref>, e: nat, rows: seq<R.Listed>)
    requires R.WriteRefs(db, entry, refs).Ok? && e != entry && R.ListsAs(db, e, rows)
    ensures R.ListsAs(R.WriteRefs(db, entry, refs).value, e, rows)
    decreases |refs|
  {
    if refs != [] {
      RefsKeepOthers(db, entry, refs[..|refs| - 1], e, rows);
      RefKeepsOthers(R.WriteRefs(db, entry, refs[..|refs| - 1]).value, entry, refs[|refs| - 1], e, rows);
    }
  }

  lemma {:induction false} RefsKeepTables(db: M.Db, entry: nat, refs: seq<Ref>)
    requires R.WriteRefs(db, entry, refs).Ok?
    ensures var db' := R.WriteRefs(db, entry, refs).value;
            db'.entries == db.entries && db'.warnings == db.warnings && db'.snapshots == db.snapshots && db'.lastEntry == db.lastEntry
    decreases |refs|
  {
    if refs != [] {
      RefsKeepTables(db, entry, refs[..|refs| - 1]);
    }
  }

  lemma SameMappingsSameList(db: M.Db, db': M.Db, e: nat, rows: seq<R.Listed>)
    requires db'.mappings == db.mappings && db'.chunks == db.chunks && R.ListsAs(db, e, rows)
    ensures R.ListsAs(db', e, rows)
  {
    forall k | 0 <= k < |rows|
      ensures R.HasRow(db', e, k, rows[k])
    {
      assert R.HasRow(db, e, k, rows[k]);
    }
  }

  /** A file beyond its entry: its chunks and its hash, and nothing of any other entry. */
  lemma FileRows(db: M.Db, entry: nat, item: Processed)
    requires item.Item? && IsNumbered(item) && WriteFile(db, entry, item).Ok? && R.ListsAs(db, entry, [])
    ensures var db' := WriteFile(db, entry, item).value;
            && entry in db.entries && db'.entries == db.entries[entry := db.entries[entry].(fileHash := Some(item.fileHash))]
            && db'.warnings == db.warnings && R.ListsAs(db', entry, R.ListedAll(item.refs))
            && forall e, rows :: e != entry && R.ListsAs(db, e, rows) ==> R.ListsAs(db', e, rows)
  {
    var mapped, db' := R.WriteRefs(db, entry, item.refs).value, WriteFile(db, entry, item).value;
    RefsKeepTables(db, entry, item.refs);
    R.WrittenIsListed(db, entry, item.refs);
    SameMappingsSameList(mapped, db', entry, R.ListedAll(item.refs));
    forall e, rows | e != entry && R.ListsAs(db, e, rows)
      ensures R.ListsAs(db', e, rows)
    {
      RefsKeepOthers(db, entry, item.refs, e, rows);
      SameMappingsSameList(mapped, db', e, rows);
    }
  }

  /** The rows of one result: they are there, and everything else is as it was. */
  ghost predicate AddsOne(db: M.Db, db': M.Db, id: nat, item: Processed) {
    && (forall e :: e in db.entries ==> EntryStays(db, db', e))
    && (forall w :: w in db.warnings ==> w in db'.warnings && db'.warnings[w] == db.warnings[w])
    && match item
       case Note(path) =>
         && db'.entries.Keys == db.entries.Keys
         && db.lastWarning + 1 !in db.warnings && IsWarningOf(db', id, item, db.lastWarning + 1)
         && db'.warnings.Keys == db.warnings.Keys + {db.lastWarning + 1}
       case Item(_, _, _, _, _) =>
         && db'.warnings.Keys == db.warnings.Keys
         && db.lastEntry + 1 !in db.entries && IsRowOf(db', id, item, db.lastEntry + 1)
         && db'.entries.Keys == db.entries.Keys + {db.lastEntry + 1}
  }

  lemma NoteAdds(db: M.Db, id: nat, item: Processed)
    requires M.Sound(db) && item.Note? && WriteProcessed(db, id, item).Ok?
    ensures AddsOne(db, WriteProcessed(db, id, item).value, id, item)
  {
    var db' := WriteProcessed(db, id, item).value;
    forall e | e in db.entries
      ensures EntryStays(db, db', e)
    {
      forall rows | R.ListsAs(db, e, rows)
        ensures R.ListsAs(db', e, rows)
      {
        SameMappingsSameList(db, db', e, rows);
      }
    }
  }

  lemma ItemAdds(db: M.Db, id: nat, item: Processed)
    requires M.Sound(db) && item.Item? && IsNumbered(item) && WriteProcessed(db, id, item).Ok?
    ensures AddsOne(db, WriteProcessed(db, id, item).value, id, item)
  {
    var entry, row := db.lastEntry + 1, M.EntryRow(id, item.path, item.kind, item.logicalSize, None);
    var with, db' := M.AfterInsert(db, row), WriteProcessed(db, id, item).value;
    C.ItemIsWritten(db, id, item);
    C.EntryIsBare(db, id, row);
    if item.kind == M.Regular {
      FileRows(with, entry, item);
    }
    forall e | e in db.entries
      ensures EntryStays(db, db', e)
    {
      forall rows | R.ListsAs(db, e, rows)
        ensures R.ListsAs(db', e, rows)
      {
        SameMappingsSameList(db, with, e, rows);
      }
    }
  }

  // ----- all results ---------------------------------------------------------------------------

  ghost predicate HasRow(db: M.Db, id: nat, item: Processed) {
    if item.Note? then exists w :: IsWarningOf(db, id, item, w) else exists e :: IsRowOf(db, id, item, e)
  }

  ghost predicate EntryComesOf(db: M.Db, id: nat, items: seq<Processed>, e: nat) {
    exists i :: 0 <= i < |items| && IsRowOf(db, id, items[i], e)
  }

  ghost predicate WarningComesOf(db: M.Db, id: nat, items: seq<Processed>, w: nat) {
    exists i :: 0 <= i < |items| && IsWarningOf(db, id, items[i], w)
  }

  /** The rows of the snapshot are those of the results, and no others. */
  ghost predicate RowsAreThose(db: M.Db, id: nat, items: seq<Processed>) {
    && (forall i :: 0 <= i < |items| ==> HasRow(db, id, items[i]))
    && (forall e :: e in M.EntriesOf(db, id) ==> EntryComesOf(db, id, items, e))
    && (forall w :: w in M.WarningsOf(db, id) ==> WarningComesOf(db, id, items, w))
  }

  lemma RowStays(db: M.Db, db': M.Db, id: nat, item: Processed, e: nat)
    requires IsRowOf(db, id, item, e) && EntryStays(db, db', e)
    ensures IsRowOf(db', id, item, e)
  {
  }

  lemma OneMore(db: M.Db, db': M.Db, id: nat, items: seq<Processed>, last: Processed)
    requires RowsAreThose(db, id, items) && AddsOne(db, db', id, last)
    ensures RowsAreThose(db', id, items + [last])
  {
    var all := items + [last];
    forall i | 0 <= i < |all|
      ensures HasRow(db', id, all[i])
    {
      if i < |items| {
        assert all[i] == items[i] && HasRow(db, id, items[i]);
        HasRowStays(db, db', id, items[i], last);
      } else {
        LastHasRow(db, db', id, last);
      }
    }
    forall e | e in M.EntriesOf(db', id)
      ensures EntryComesOf(db', id, all, e)
    {
      EntryOfAll(db, db', id, items, last, e);
    }
    forall w | w in M.WarningsOf(db', id)
      ensures WarningComesOf(db', id, all, w)
    {
      if w in db.warnings {
        assert w in M.WarningsOf(db, id);
        var i :| 0 <= i < |items| && IsWarningOf(db, id, items[i], w);
        assert all[i] == items[i];
      } else {
        assert all[|items|] == last;
      }
    }
  }

  lemma HasRowStays(db: M.Db, db': M.Db, id: nat, item: Processed, last: Processed)
    requires HasRow(db, id, item) && AddsOne(db, db', id, last)
    ensures HasRow(db', id, item)
  {
    if item.Note? {
      var w :| IsWarningOf(db, id, item, w);
      assert IsWarningOf(db', id, item, w);
    } else {
      var e :| IsRowOf(db, id, item, e);
      RowStays(db, db', id, item, e);
    }
  }

  lemma LastHasRow(db: M.Db, db': M.Db, id: nat, last: Processed)
    requires AddsOne(db, db', id, last)
    ensures HasRow(db', id, last)
  {
    if last.Note? {
      assert IsWarningOf(db', id, last, db.lastWarning + 1);
    } else {
      assert IsRowOf(db', id, last, db.lastEntry + 1);
    }
  }

  lemma EntryOfAll(db: M.Db, db': M.Db, id: nat, items: seq<Processed>, last: Processed, e: nat)
    requires RowsAreThose(db, id, items) && AddsOne(db, db', id, last) && e in M.EntriesOf(db', id)
    ensures EntryComesOf(db', id, items + [last], e)
  {
    if e in db.entries {
      assert EntryStays(db, db', e) && e in M.EntriesOf(db, id);
      var i :| 0 <= i < |items| && IsRowOf(db, id, items[i], e);
      RowStays(db, db', id, items[i], e);
      assert (items + [last])[i] == items[i];
    } else {
      assert IsRowOf(db', id, last, e);
      assert (items + [last])[|items|] == last;
    }
  }

  lemma ProcessedAdds(db: M.Db, id: nat, item: Processed)
    requires M.Sound(db) && IsNumbered(item) && WriteProcessed(db, id, item).Ok?
    ensures AddsOne(db, WriteProcessed(db, id, item).value, id, item)
  {
    if item.Note? {
      NoteAdds(db, id, item);
    } else {
      ItemAdds(db, id, item);
    }
  }

  lemma FreshHasNone(db: M.Db, id: nat)
    requires C.Fresh(db, id)
    ensures RowsAreThose(db, id, [])
  {
  }

  predicate AllNumbered(items: seq<Processed>) {
    forall i :: 0 <= i < |items| && items[i].Item? ==> forall k :: 0 <= k < |items[i].refs| ==> items[i].refs[k].sequence == k
  }

  lemma FrontIsNumbered(items: seq<Processed>)
    requires items != [] && AllNumbered(items)
    ensures AllNumbered(items[..|items| - 1]) && IsNumbered(items[|items| - 1]) && items[..|items| - 1] + [items[|items| - 1]] == items
  {
  }

  /** Writing a snapshot leaves exactly its rows: every entry with its path, kind, size and, for a file, its
      hash and its chunks in order; every warning with its path; and nothing that is not of some result. */
  lemma {:induction false} WrittenRowsAreThose(db: M.Db, id: nat, items: seq<Processed>)
    requires C.Fresh(db, id) && WriteAll(db, id, items).Ok? && AllNumbered(items)
    ensures RowsAreThose(WriteAll(db, id, items).value, id, items)
    decreases |items|
  {
    if items == [] {
      FreshHasNone(db, id);
    } else {
      var front, last := items[..|items| - 1], items[|items| - 1];
      FrontIsNumbered(items);
      WrittenRowsAreThose(db, id, front);
      C.AllCounts(db, id, front);
      ProcessedAdds(WriteAll(db, id, front).value, id, last);
      OneMore(WriteAll(db, id, front).value, WriteAll(db, id, items).value, id, front, last);
    }
  }

  // ----- what the store says of the counters ---------------------------------------------------

  /** The sizes of the object files of the chunks that were new. */
  function FileBytes(d: O.Disk, refs: seq<Ref>): nat {
    if refs == [] then 0
    else
      var last := refs[|refs| - 1].stored;
      FileBytes(d, refs[..|refs| - 1]) + if last.newly && last.hash in d.names then |d.names[last.hash].data| else 0
  }

  /** The counter of new bytes is made of the sizes of object files. */
  lemma {:induction false} NewBytesAreFileSizes(c: O.Settings, d: O.Disk, refs: seq<Ref>)
    requires forall k :: 0 <= k < |refs| ==> O.Readable(c, d, refs[k].stored)
    ensures NewBytes(refs) == FileBytes(d, refs)
  {
    if refs != [] {
      NewBytesAreFileSizes(c, d, refs[..|refs| - 1]);
      assert O.Readable(c, d, refs[|refs| - 1].stored);
    }
  }
}
