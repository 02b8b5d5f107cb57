/** The way back: the chunk list a snapshot records is written to the tables, read back, validated, and
    the file put together again. */
module Reassembly {
  import opened Common
  import opened Objects
  import opened Capturing
  import M = Metadata

  // ----- the rows of one file ------------------------------------------------------------------

  /** A chunk of an entry as readers get it: the mapping row joined with its chunk row. */
  datatype Listed = Listed(sequence: nat, hash: Digest, offset: nat, length: nat, rawSize: nat, storedSize: nat)

  function ListedOf(ref: Ref): Listed {
    Listed(ref.sequence, ref.stored.hash, ref.offset, ref.stored.rawSize, ref.stored.rawSize, ref.stored.storedSize)
  }

  function ListedAll(refs: seq<Ref>): (rows: seq<Listed>)
    ensures |rows| == |refs| && forall i :: 0 <= i < |refs| ==> rows[i] == ListedOf(refs[i])
  {
    seq(|refs|, i requires 0 <= i < |refs| => ListedOf(refs[i]))
  }

  /** The writer registers each chunk and maps it to the entry. */
  function WriteRef(db: M.Db, entry: nat, ref: Ref): Result<M.Db, M.DbError> {
    match M.Do(db, M.EnsureChunk(ref.stored.hash, ChunkRow(ref.stored.rawSize, ref.stored.storedSize)))
    case Err(e) => Err(e)
    case Ok(with) => M.Do(with, M.InsertMapping(entry, ref.sequence, M.MappingRow(ref.stored.hash, ref.offset, ref.stored.rawSize)))
  }

  function WriteRefs(db: M.Db, entry: nat, refs: seq<Ref>): Result<M.Db, M.DbError>
    decreases |refs|
  {
    if refs == [] then Ok(db)
    else
      match WriteRefs(db, entry, refs[..|refs| - 1])
      case Err(e) => Err(e)
      case Ok(before) => WriteRef(before, entry, refs[|refs| - 1])
  }

  /** Row number `k` of the entry, as the join delivers it. */
  predicate HasRow(db: M.Db, entry: nat, k: nat, row: Listed) {
    && (entry, k) in db.mappings && db.mappings[(entry, k)].chunk in db.chunks
    && var m := db.mappings[(entry, k)];
       row == Listed(k, m.chunk, m.offset, m.length, db.chunks[m.chunk].rawSize, db.chunks[m.chunk].storedSize)
  }

  /** Ordered by sequence number, the rows of the entry are exactly `rows`. */
  ghost predicate ListsAs(db: M.Db, entry: nat, rows: seq<Listed>) {
    && (forall k :: 0 <= k < |rows| ==> HasRow(db, entry, k, rows[k]))
    && (forall m :: m in db.mappings && m.0 == entry ==> m.1 < |rows|)
  }

  lemma RefWritten(db: M.Db, entry: nat, rows: seq<Listed>, ref: Ref)
    requires ListsAs(db, entry, rows) && ref.sequence == |rows| && WriteRef(db, entry, ref).Ok?
    ensures ListsAs(WriteRef(db, entry, ref).value, entry, rows + [ListedOf(ref)])
  {
    var db' := WriteRef(db, entry, ref).value;
    forall k | 0 <= k < |rows|
      ensures HasRow(db', entry, k, rows[k])
    {
      assert HasRow(db, entry, k, rows[k]);
    }
  }

  ghost predicate Numbered(refs: seq<Ref>) {
    forall i :: 0 <= i < |refs| ==> refs[i].sequence == i
  }

  /** What was written for a new entry is what readers list, in order. */
  lemma {:induction false} WrittenIsListed(db: M.Db, entry: nat, refs: seq<Ref>)
    requires ListsAs(db, entry, []) && Numbered(refs) && WriteRefs(db, entry, refs).Ok?
    ensures ListsAs(WriteRefs(db, entry, refs).value, entry, ListedAll(refs))
    decreases |refs|
  {
    if refs != [] {
      var front, last := refs[..|refs| - 1], refs[|refs| - 1];
      WrittenIsListed(db, entry, front);
      RefWritten(WriteRefs(db, entry, front).value, entry, ListedAll(front), last);
      assert ListedAll(front) + [ListedOf(last)] == ListedAll(refs);
    }
  }

  // ----- validation ----------------------------------------------------------------------------

  /** The reader's bound on a compressed chunk, saturating at the largest 64-bit value. */
  function MaximumStoredSize(chunkSize: nat): (limit: nat)
    ensures var exact := chunkSize + chunkSize / 8 + 64 * 1024; limit == if exact <= MAX_UINT64 then exact else MAX_UINT64
  {
    var fraction := chunkSize / 8;
    if fraction > MAX_UINT64 - chunkSize then MAX_UINT64
    else
      var subtotal := chunkSize + fraction;
      if ALLOWANCE > MAX_UINT64 - subtotal then MAX_UINT64 else subtotal + ALLOWANCE
  }

  function TotalLength(rows: seq<Listed>): nat {
    if rows == [] then 0 else TotalLength(rows[..|rows| - 1]) + rows[|rows| - 1].length
  }

  predicate GoodRow(row: Listed, chunkSize: nat) {
    && 0 < row.length == row.rawSize <= chunkSize
    && 0 < row.storedSize <= MaximumStoredSize(chunkSize)
  }

  /** Row `i` is in its place. */
  predicate Placed(rows: seq<Listed>, i: nat, chunkSize: nat)
    requires i < |rows|
  {
    rows[i].sequence == i && rows[i].offset == TotalLength(rows[..i]) && GoodRow(rows[i], chunkSize)
  }

  /** A chunk list that covers a file of `size` bytes: numbered from zero, contiguous from offset zero,
      each chunk within the limits, ending at the file's end. */
  ghost predicate Covers(rows: seq<Listed>, size: nat, chunkSize: nat) {
    && |rows| <= MAX_INT64 && TotalLength(rows) == size <= MAX_UINT64
    && forall i :: 0 <= i < |rows| ==> Placed(rows, i, chunkSize)
  }

  lemma {:induction false} TotalGrows(rows: seq<Listed>, i: nat)
    requires i <= |rows|
    ensures TotalLength(rows[..i]) <= TotalLength(rows)
    decreases |rows|
  {
    if i < |rows| {
      TotalGrows(rows[..|rows| - 1], i);
      assert rows[..|rows| - 1][..i] == rows[..i];
    } else {
      assert rows[..i] == rows;
    }
  }

  lemma OneMore(rows: seq<Listed>, i: nat)
    requires i < |rows|
    ensures TotalLength(rows[..i + 1]) == TotalLength(rows[..i]) + rows[i].length <= TotalLength(rows)
  {
    assert rows[..i + 1][..i] == rows[..i];
    TotalGrows(rows, i + 1);
  }

  /** `validate_chunks`: accepts exactly the chunk lists that cover the file. */
  method ValidateChunks(size: nat, rows: seq<Listed>, chunkSize: nat) returns (ok: bool)
    requires size <= MAX_UINT64
    ensures ok <==> Covers(rows, size, chunkSize)
  {
    var expectedOffset, expectedSequence := 0, 0;
    var limit := MaximumStoredSize(chunkSize);
    while expectedSequence < |rows|
      invariant expectedSequence <= |rows| && expectedSequence <= MAX_INT64
      invariant expectedOffset == TotalLength(rows[..expectedSequence]) <= MAX_UINT64
      invariant forall i :: 0 <= i < expectedSequence ==> Placed(rows, i, chunkSize)
    {
      var row := rows[expectedSequence];
      OneMore(rows, expectedSequence);
      if row.sequence != expectedSequence || row.offset != expectedOffset || row.length == 0 || row.length != row.rawSize
         || row.length > chunkSize || row.rawSize > chunkSize || row.storedSize == 0 || row.storedSize > limit
      {
        assert !Placed(rows, expectedSequence, chunkSize);
        return false;
      }
      if row.length > MAX_UINT64 - expectedOffset {
        return false;
      }
      expectedOffset := expectedOffset + row.length;
      if expectedSequence == MAX_INT64 {
        return false;
      }
      expectedSequence := expectedSequence + 1;
    }
    assert rows[..|rows|] == rows;
    if expectedOffset != size || (size == 0 && rows != []) || (size != 0 && rows == []) {
      if expectedOffset == size {
        NoRowsOfNothing(rows, chunkSize);
      }
      return false;
    }
    return true;
  }

  lemma NoRowsOfNothing(rows: seq<Listed>, chunkSize: nat)
    requires forall i :: 0 <= i < |rows| ==> Placed(rows, i, chunkSize)
    ensures TotalLength(rows) == 0 <==> rows == []
  {
    if rows != [] {
      assert Placed(rows, |rows| - 1, chunkSize);
    }
  }

  // ----- putting the file together -------------------------------------------------------------

  function Reassembled(c: Settings, d: Disk, rows: seq<Listed>): Result<Bytes, ObjectError>
    decreases |rows|
  {
    if rows == [] then Ok([])
    else
      match Reassembled(c, d, rows[..|rows| - 1])
      case Err(e) => Err(e)
      case Ok(front) =>
        var last := rows[|rows| - 1];
        match ReadVerified(c, d, last.hash, last.rawSize, last.storedSize)
        case Err(e) => Err(e)
        case Ok(raw) => if |raw| != last.length then Err(Corrupt) else Ok(front + raw)
  }

  // ----- the round trip ------------------------------------------------------------------------

  lemma PlacedMore(front: seq<Listed>, rows: seq<Listed>, chunkSize: nat)
    requires rows != [] && rows[..|rows| - 1] == front && forall i :: 0 <= i < |front| ==> Placed(front, i, chunkSize)
    requires Placed(rows, |front|, chunkSize)
    ensures forall i :: 0 <= i < |rows| ==> Placed(rows, i, chunkSize)
  {
    forall i | 0 <= i < |front|
      ensures Placed(rows, i, chunkSize)
    {
      assert Placed(front, i, chunkSize);
      assert rows[..i] == front[..i] && rows[i] == front[i];
    }
  }

  lemma {:induction false} DescribedRefs(c: Settings, d: Disk, content: Bytes, refs: seq<Ref>)
    requires c.Valid() && Describes(c, d, content, refs)
    ensures TotalLength(ListedAll(refs)) == |content| && |refs| <= |content|
    ensures forall i :: 0 <= i < |refs| ==> Placed(ListedAll(refs), i, c.maxChunk)
    decreases |refs|
  {
    if refs != [] {
      var front, last := refs[..|refs| - 1], refs[|refs| - 1];
      DescribedRefs(c, d, content[..last.offset], front);
      assert ListedAll(refs)[..|refs| - 1] == ListedAll(front);
      LastIsGood(c, d, last);
      PlacedMore(ListedAll(front), ListedAll(refs), c.maxChunk);
    }
  }

  lemma LastIsGood(c: Settings, d: Disk, last: Ref)
    requires c.Valid() && Readable(c, d, last.stored)
    ensures GoodRow(ListedOf(last), c.maxChunk)
  {
  }

  lemma PlacedIsNumbered(refs: seq<Ref>, chunkSize: nat)
    requires forall i :: 0 <= i < |refs| ==> Placed(ListedAll(refs), i, chunkSize)
    ensures Numbered(refs)
  {
    forall i | 0 <= i < |refs|
      ensures refs[i].sequence == i
    {
      assert Placed(ListedAll(refs), i, chunkSize);
    }
  }

  /** Every chunk list the snapshot engine records passes the reader's validation: in particular the
      writer's bound on compressed sizes never exceeds the reader's. */
  lemma RecordedListsValidate(c: Settings, d: Disk, content: Bytes, refs: seq<Ref>)
    requires c.Valid() && Describes(c, d, content, refs) && |content| <= MAX_INT64
    ensures Covers(ListedAll(refs), |content|, c.maxChunk)
  {
    DescribedRefs(c, d, content, refs);
  }

  lemma {:induction false} DescribedReassembles(c: Settings, d: Disk, content: Bytes, refs: seq<Ref>)
    requires c.Valid() && c.codec.CollisionFree() && Describes(c, d, content, refs)
    ensures Reassembled(c, d, ListedAll(refs)) == Ok(content)
    decreases |refs|
  {
    if refs != [] {
      var front, last := refs[..|refs| - 1], refs[|refs| - 1];
      DescribedReassembles(c, d, content[..last.offset], front);
      assert ListedAll(refs)[..|refs| - 1] == ListedAll(front);
      assert Readable(c, d, last.stored);
      assert !c.codec.Collide(ReadVerified(c, d, last.stored.hash, last.stored.rawSize, last.stored.storedSize).value, content[last.offset..]);
      assert content == content[..last.offset] + content[last.offset..];
    }
  }

  /** The round trip. Of a file captured from content read in any number of chunks, the rows written for
      it are listed back in order, accepted by validation, and put together to exactly the bytes that were
      read, through however many later steps of the store and power losses: for every chunk limit, the empty
      file, and lengths that are exact multiples of the limit. */
  lemma RoundTrip(c: Settings, ds: seq<Disk>, content: Bytes, refs: seq<Ref>, db: M.Db, entry: nat)
    requires c.Valid() && c.codec.CollisionFree() && Linked(ds) && Describes(c, ds[0], content, refs) && |content| <= MAX_INT64
    requires ListsAs(db, entry, []) && WriteRefs(db, entry, refs).Ok?
    ensures var rows := ListedAll(refs);
            && ListsAs(WriteRefs(db, entry, refs).value, entry, rows)
            && Covers(rows, |content|, c.maxChunk)
            && Reassembled(c, ds[|ds| - 1], rows) == Ok(content)
  {
    DescribedRefs(c, ds[0], content, refs);
    PlacedIsNumbered(refs, c.maxChunk);
    WrittenIsListed(db, entry, refs);
    RecordedListsValidate(c, ds[0], content, refs);
    DescriptionLasts(c, ds, content, refs);
    DescribedReassembles(c, ds[|ds| - 1], content, refs);
  }

  /** The chunk rows there are agree with the store. */
  ghost predicate RowsAgree(c: Settings, d: Disk, db: M.Db) {
    forall h :: h in db.chunks ==> Readable(c, d, Stored(h, db.chunks[h].rawSize, db.chunks[h].storedSize, false))
  }

  lemma RefCanBeWritten(c: Settings, d: Disk, db: M.Db, entry: nat, rows: seq<Listed>, ref: Ref)
    requires entry in db.entries && RowsAgree(c, d, db) && Readable(c, d, ref.stored)
    requires ListsAs(db, entry, rows) && ref.sequence == |rows|
    ensures WriteRef(db, entry, ref).Ok?
    ensures var db' := WriteRef(db, entry, ref).value; entry in db'.entries && RowsAgree(c, d, db')
  {
    var h := ref.stored.hash;
    if h in db.chunks {
      assert Readable(c, d, Stored(h, db.chunks[h].rawSize, db.chunks[h].storedSize, false));
    }
    assert Readable(c, d, Stored(h, ref.stored.rawSize, ref.stored.storedSize, false));
  }

  /** Writing the rows of a captured file never fails on the schema's constraints. */
  lemma {:induction false} WritingSucceeds(c: Settings, d: Disk, content: Bytes, refs: seq<Ref>, db: M.Db, entry: nat)
    requires c.Valid() && Describes(c, d, content, refs)
    requires entry in db.entries && ListsAs(db, entry, []) && RowsAgree(c, d, db)
    ensures WriteRefs(db, entry, refs).Ok?
    ensures var db' := WriteRefs(db, entry, refs).value; entry in db'.entries && RowsAgree(c, d, db')
    decreases |refs|
  {
    if refs != [] {
      var front, last := refs[..|refs| - 1], refs[|refs| - 1];
      WritingSucceeds(c, d, content[..last.offset], front, db, entry);
      DescribedRefs(c, d, content[..last.offset], front);
      PlacedIsNumbered(front, c.maxChunk);
      WrittenIsListed(db, entry, front);
      RefCanBeWritten(c, d, WriteRefs(db, entry, front).value, entry, ListedAll(front), last);
    }
  }
}
