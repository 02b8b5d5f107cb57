/** The code that recovers a repository: transactions, the batched cleanup loops, and
    `recover_after_writer_lock`. */
module Repositories {
  import opened Common
  import opened Metadata
  import opened Recovery

  // ----- the lowest ids ------------------------------------------------------------------------

  predicate IsLeast(s: set<nat>, m: nat) {
    m in s && forall x :: x in s ==> m <= x
  }

  lemma {:induction false} HasLeast(s: set<nat>) returns (m: nat)
    requires s != {}
    ensures IsLeast(s, m)
    decreases |s|
  {
    m :| m in s;
    var rest := s - {m};
    assert forall x :: x in s ==> x == m || x in rest;
    if rest != {} {
      var least := HasLeast(rest);
      if least < m {
        m := least;
      }
    }
  }

  lemma LeastExists(s: set<nat>)
    requires s != {}
    ensures exists m :: IsLeast(s, m)
  {
    var m := HasLeast(s);
  }

  function Least(s: set<nat>): (m: nat)
    requires s != {}
    ensures IsLeast(s, m)
  {
    LeastExists(s);
    var m :| IsLeast(s, m);
    m
  }

  /** The first `limit` ids of `s`, in order: what a batch deletes. */
  function Batch(s: set<nat>, limit: nat): (ids: set<nat>)
    ensures ids <= s && |ids| == if |s| <= limit then |s| else limit
    ensures forall x, y :: x in ids && y in s && y !in ids ==> x < y
    decreases limit
  {
    if limit == 0 || s == {} then {}
    else
      var m := Least(s);
      {m} + Batch(s - {m}, limit - 1)
  }

  /** The ids of `s` in ascending order. */
  function Ascending(s: set<nat>): (ids: seq<nat>)
    ensures forall x :: x in ids <==> x in s
    ensures forall i, j :: 0 <= i < j < |ids| ==> ids[i] < ids[j]
    decreases |s|
  {
    if s == {} then []
    else
      var m := Least(s);
      [m] + Ascending(s - {m})
  }

  // ----- transactions --------------------------------------------------------------------------

  /** A database connection. With a fuse, that many more operations succeed and all later ones fail;
      without one, nothing fails. */
  class Database {
    var committed: Db
    var working: Db
    var active: bool
    var fuse: Budget

    ghost predicate Idle()
      reads this
    {
      !active && working == committed
    }

    constructor (db: Db, fuse: Budget)
      ensures Idle() && committed == db && this.fuse == fuse
    {
      committed, working, active, this.fuse := db, db, false, fuse;
    }

    method Attempt() returns (ok: bool)
      modifies this`fuse
      ensures old(fuse) == None ==> ok && fuse == None
    {
      ok, fuse := !Spent(fuse), OneLess(fuse);
    }

    method Begin()
      requires Idle()
      modifies this`active
      ensures active
    {
      active := true;
    }

    /** A commit that fails leaves the transaction to be rolled back by its destructor. */
    method Commit() returns (ok: bool)
      requires active
      modifies this
      ensures old(fuse) == None ==> ok && fuse == None
      ensures ok ==> Idle() && committed == old(working)
      ensures !ok ==> active && committed == old(committed) && working == old(working)
    {
      ok := Attempt();
      if ok {
        committed, active := working, false;
      }
    }

    method Rollback()
      requires active
      modifies this`working, this`active
      ensures Idle()
    {
      working, active := committed, false;
    }

    /** The failure point before a commit, then the commit; on failure, the rollback. */
    method Finish() returns (ok: bool)
      requires active
      modifies this
      ensures Idle() && committed == if ok then old(working) else old(committed)
      ensures old(fuse) == None ==> ok && fuse == None
    {
      ok := Attempt();
      if ok {
        ok := Commit();
      }
      if !ok {
        Rollback();
      }
    }
  }

  // ----- the batched cleanup -------------------------------------------------------------------

  datatype Unit = Unit

  lemma EntriesWithout(db: Db, a: set<nat>, b: set<nat>, id: nat)
    ensures WithoutEntries(WithoutEntries(db, a), b) == WithoutEntries(db, a + b)
    ensures WithoutEntries(db, {}) == db
    ensures EntriesOf(WithoutEntries(db, a), id) == EntriesOf(db, id) - a
  {
  }

  lemma WarningsWithout(db: Db, a: set<nat>, b: set<nat>, id: nat)
    ensures WithoutWarnings(WithoutWarnings(db, a), b) == WithoutWarnings(db, a + b)
    ensures WithoutWarnings(db, {}) == db
    ensures WarningsOf(WithoutWarnings(db, a), id) == WarningsOf(db, id) - a
  {
  }

  predicate Wanted(db: Db, id: nat, wanted: set<Status>) {
    id in db.snapshots && db.snapshots[id].status in wanted
  }

  lemma BatchLeavesLess(s: set<nat>, limit: nat)
    requires limit > 0
    ensures Batch(s, limit) != {} ==> |s - Batch(s, limit)| < |s|
    ensures Batch(s, limit) == {} <==> s == {}
  {
    var ids := Batch(s, limit);
    assert s == (s - ids) + ids;
  }

  lemma EntriesRoundAdvances(start: Db, gone: set<nat>, id: nat, limit: nat)
    requires gone <= EntriesOf(start, id) && limit > 0
    ensures var all := EntriesOf(start, id); var batch := Batch(all - gone, limit);
            && Batch(EntriesOf(WithoutEntries(start, gone), id), limit) == batch
            && WithoutEntries(WithoutEntries(start, gone), batch) == WithoutEntries(start, gone + batch)
            && gone + batch <= all
            && (batch != {} ==> |all - (gone + batch)| < |all - gone|)
            && (|batch| == 0 ==> gone + batch == all)
  {
    var all := EntriesOf(start, id);
    var batch := Batch(all - gone, limit);
    EntriesWithout(start, gone, batch, id);
    BatchLeavesLess(all - gone, limit);
    assert all - gone - batch == all - (gone + batch);
  }

  lemma WarningsRoundAdvances(start: Db, gone: set<nat>, id: nat, limit: nat)
    requires gone <= WarningsOf(start, id) && limit > 0
    ensures var all := WarningsOf(start, id); var batch := Batch(all - gone, limit);
            && Batch(WarningsOf(WithoutWarnings(start, gone), id), limit) == batch
            && WithoutWarnings(WithoutWarnings(start, gone), batch) == WithoutWarnings(start, gone + batch)
            && gone + batch <= all
            && (batch != {} ==> |all - (gone + batch)| < |all - gone|)
            && (|batch| == 0 ==> gone + batch == all)
  {
    var all := WarningsOf(start, id);
    var batch := Batch(all - gone, limit);
    WarningsWithout(start, gone, batch, id);
    BatchLeavesLess(all - gone, limit);
    assert all - gone - batch == all - (gone + batch);
  }

  class MetadataStore {
    const database: Database

    constructor (database: Database)
      ensures this.database == database
    {
      this.database := database;
    }

    /** Zero and limits beyond the signed 64-bit range are refused. */
    static predicate LegalLimit(limit: nat) {
      0 < limit <= MAX_INT64
    }

    method DeleteEntryBatch(id: nat, limit: nat) returns (removed: nat)
      requires database.active
      modifies database`working
      ensures var ids := Batch(EntriesOf(old(database.working), id), limit);
              database.working == WithoutEntries(old(database.working), ids) && removed == |ids|
    {
      var ids := Batch(EntriesOf(database.working, id), limit);
      database.working := WithoutEntries(database.working, ids);
      removed := |ids|;
    }

    method DeleteWarningBatch(id: nat, limit: nat) returns (removed: nat)
      requires database.active
      modifies database`working
      ensures var ids := Batch(WarningsOf(old(database.working), id), limit);
              database.working == WithoutWarnings(old(database.working), ids) && removed == |ids|
    {
      var ids := Batch(WarningsOf(database.working, id), limit);
      database.working := WithoutWarnings(database.working, ids);
      removed := |ids|;
    }

    /** One bounded transaction of the loop below. */
    method EntryRound(id: nat, limit: nat, wanted: set<Status>) returns (r: Result<nat, DbError>)
      requires database.Idle()
      modifies database
      ensures database.Idle()
      ensures r.Ok? ==> var batch := Batch(EntriesOf(old(database.committed), id), limit);
                        r.value == |batch| && database.committed == WithoutEntries(old(database.committed), batch)
      ensures r.Err? ==> database.committed == old(database.committed)
      ensures r == Err(InvalidArgument) <==> !Wanted(old(database.committed), id, wanted)
      ensures old(database.fuse) == None ==> database.fuse == None && (r.Ok? <==> Wanted(old(database.committed), id, wanted))
    {
      database.Begin();
      if id !in database.working.snapshots || database.working.snapshots[id].status !in wanted {
        database.Rollback();
        return Err(InvalidArgument);
      }
      var removed := DeleteEntryBatch(id, limit);
      var ok := database.Finish();
      r := if ok then Ok(removed) else Err(DatabaseError);
    }

    /** Deletes the entries of a snapshot in bounded transactions, until a batch removes nothing. Every
        transaction checks that the snapshot still has one of the statuses `wanted`. Whether it succeeds
        or not, the committed tables lose only rows of that snapshot, and on success all of them. */
    method DeleteAllEntries(id: nat, limit: nat, wanted: set<Status>) returns (r: Result<Unit, DbError>, ghost gone: set<nat>)
      requires database.Idle() && LegalLimit(limit)
      modifies database
      ensures database.Idle() && gone <= EntriesOf(old(database.committed), id)
      ensures database.committed == WithoutEntries(old(database.committed), gone)
      ensures r.Ok? ==> gone == EntriesOf(old(database.committed), id) && Wanted(old(database.committed), id, wanted)
      ensures !Wanted(old(database.committed), id, wanted) ==> r == Err(InvalidArgument) && gone == {}
      ensures old(database.fuse) == None ==> database.fuse == None && (r.Ok? <==> Wanted(old(database.committed), id, wanted))
    {
      ghost var start, all := database.committed, EntriesOf(database.committed, id);
      gone := {};
      EntriesWithout(start, {}, {}, id);
      var removed := 1;
      while removed != 0
        invariant database.Idle() && gone <= all && database.committed == WithoutEntries(start, gone)
        invariant old(database.fuse) == None ==> database.fuse == None
        invariant removed == 0 ==> gone == all && Wanted(start, id, wanted)
        invariant !Wanted(start, id, wanted) ==> gone == {}
        decreases |all - gone|, removed
      {
        EntriesRoundAdvances(start, gone, id, limit);
        var round := EntryRound(id, limit, wanted);
        if round.Err? {
          return Err(round.error), gone;
        }
        removed := round.value;
        gone := gone + Batch(all - gone, limit);
      }
      return Ok(Unit), gone;
    }

    /** One bounded transaction of the loop below. */
    method WarningRound(id: nat, limit: nat, wanted: set<Status>) returns (r: Result<nat, DbError>)
      requires database.Idle()
      modifies database
      ensures database.Idle()
      ensures r.Ok? ==> var batch := Batch(WarningsOf(old(database.committed), id), limit);
                        r.value == |batch| && database.committed == WithoutWarnings(old(database.committed), batch)
      ensures r.Err? ==> database.committed == old(database.committed)
      ensures r == Err(InvalidArgument) <==> !Wanted(old(database.committed), id, wanted)
      ensures old(database.fuse) == None ==> database.fuse == None && (r.Ok? <==> Wanted(old(database.committed), id, wanted))
    {
      database.Begin();
      if id !in database.working.snapshots || database.working.snapshots[id].status !in wanted {
        database.Rollback();
        return Err(InvalidArgument);
      }
      var removed := DeleteWarningBatch(id, limit);
      var ok := database.Finish();
      r := if ok then Ok(removed) else Err(DatabaseError);
    }

    method DeleteAllWarnings(id: nat, limit: nat, wanted: set<Status>) returns (r: Result<Unit, DbError>, ghost gone: set<nat>)
      requires database.Idle() && LegalLimit(limit)
      modifies database
      ensures database.Idle() && gone <= WarningsOf(old(database.committed), id)
      ensures database.committed == WithoutWarnings(old(database.committed), gone)
      ensures r.Ok? ==> gone == WarningsOf(old(database.committed), id) && Wanted(old(database.committed), id, wanted)
      ensures !Wanted(old(database.committed), id, wanted) ==> r == Err(InvalidArgument) && gone == {}
      ensures old(database.fuse) == None ==> database.fuse == None && (r.Ok? <==> Wanted(old(database.committed), id, wanted))
    {
      ghost var start, all := database.committed, WarningsOf(database.committed, id);
      gone := {};
      WarningsWithout(start, {}, {}, id);
      var removed := 1;
      while removed != 0
        invariant database.Idle() && gone <= all && database.committed == WithoutWarnings(start, gone)
        invariant old(database.fuse) == None ==> database.fuse == None
        invariant removed == 0 ==> gone == all && Wanted(start, id, wanted)
        invariant !Wanted(start, id, wanted) ==> gone == {}
        decreases |all - gone|, removed
      {
        WarningsRoundAdvances(start, gone, id, limit);
        var round := WarningRound(id, limit, wanted);
        if round.Err? {
          return Err(round.error), gone;
        }
        removed := round.value;
        gone := gone + Batch(all - gone, limit);
      }
      return Ok(Unit), gone;
    }

    /** Removes what is left of a failed or cancelled snapshot. */
    method CleanIncomplete(id: nat, limit: nat) returns (r: Result<Unit, DbError>, ghost e: set<nat>, ghost w: set<nat>)
      requires database.Idle()
      modifies database
      ensures database.Idle() && e <= EntriesOf(old(database.committed), id) && w <= WarningsOf(old(database.committed), id)
      ensures database.committed == Trim(old(database.committed), e, w)
      ensures r.Ok? ==> e == EntriesOf(old(database.committed), id) && w == WarningsOf(old(database.committed), id)
      ensures !Wanted(old(database.committed), id, {Failed, Cancelled}) || !LegalLimit(limit) ==> r == Err(InvalidArgument) && e == w == {}
      ensures old(database.fuse) == None ==>
                database.fuse == None && (r.Ok? <==> LegalLimit(limit) && Wanted(old(database.committed), id, {Failed, Cancelled}))
    {
      e, w := {}, {};
      EntriesWithout(database.committed, {}, {}, id);
      WarningsWithout(database.committed, {}, {}, id);
      if !LegalLimit(limit) {
        return Err(InvalidArgument), e, w;
      }
      r, e := DeleteAllEntries(id, limit, {Failed, Cancelled});
      WarningsWithout(database.committed, {}, {}, id);
      if r.Err? {
        return;
      }
      r, w := DeleteAllWarnings(id, limit, {Failed, Cancelled});
    }

    /** Resumes a deletion: the rows in batches, then the snapshot itself. */
    method DeleteDeleting(id: nat, limit: nat) returns (r: Result<Unit, DbError>, ghost e: set<nat>, ghost w: set<nat>)
      requires database.Idle()
      modifies database
      ensures database.Idle() && e <= EntriesOf(old(database.committed), id) && w <= WarningsOf(old(database.committed), id)
      ensures r.Ok? ==> HasStatus(old(database.committed), id, Deleting)
      ensures database.committed == if r.Ok? then WithoutSnapshot(old(database.committed), id) else Trim(old(database.committed), e, w)
      ensures !HasStatus(old(database.committed), id, Deleting) || !LegalLimit(limit) ==> r == Err(InvalidArgument) && e == w == {}
      ensures old(database.fuse) == None ==>
                database.fuse == None && (r.Ok? <==> LegalLimit(limit) && HasStatus(old(database.committed), id, Deleting))
    {
      ghost var start := database.committed;
      e, w := {}, {};
      EntriesWithout(start, {}, {}, id);
      WarningsWithout(start, {}, {}, id);
      if !LegalLimit(limit) {
        return Err(InvalidArgument), e, w;
      }
      r, e := DeleteAllEntries(id, limit, {Deleting});
      WarningsWithout(database.committed, {}, {}, id);
      if r.Err? {
        return;
      }
      r, w := DeleteAllWarnings(id, limit, {Deleting});
      if r.Err? {
        return;
      }
      database.Begin();
      database.working := WithoutSnapshot(database.working, id);
      RemovingTheRest(start, id);
      var ok := database.Finish();
      r := if ok then Ok(Unit) else Err(DatabaseError);
    }

    /** A snapshot that was being written when its process died has failed. */
    method MarkStalePendingFailed(id: nat) returns (r: Result<Unit, DbError>)
      requires database.Idle()
      modifies database
      ensures database.Idle()
      ensures r.Ok? ==> HasStatus(old(database.committed), id, Pending) && database.committed == Clean(old(database.committed), Fail(id))
      ensures r.Ok? ==>
                && database.committed == old(database.committed).(snapshots := database.committed.snapshots)
                && (forall i :: i in database.committed.snapshots <==> i in old(database.committed).snapshots)
                && (forall i :: i in old(database.committed).snapshots ==>
                      var row, now := old(database.committed).snapshots[i], database.committed.snapshots[i];
                      if i == id then
                        now.status == Failed && now.failure == Some(INTERRUPTED) && now.counts == row.counts && now.chunkCounts == row.chunkCounts
                      else now == row)
      ensures r.Err? ==> database.committed == old(database.committed)
      ensures old(database.fuse) == None ==> database.fuse == None && (r.Ok? <==> HasStatus(old(database.committed), id, Pending))
    {
      database.Begin();
      if !HasStatus(database.working, id, Pending) {
        database.Rollback();
        return Err(InvalidArgument);
      }
      database.working := SetStatus(database.working, id, Interrupted(database.working.snapshots[id]));
      var ok := database.Finish();
      r := if ok then Ok(Unit) else Err(DatabaseError);
    }
  }

  lemma RemovingTheRest(db: Db, id: nat)
    ensures WithoutSnapshot(Trim(db, EntriesOf(db, id), WarningsOf(db, id)), id) == WithoutSnapshot(db, id)
  {
    var bare := Trim(db, EntriesOf(db, id), WarningsOf(db, id));
    assert EntriesOf(bare, id) == {} && WarningsOf(bare, id) == {};
    EntriesWithout(bare, {}, {}, id);
    WarningsWithout(bare, {}, {}, id);
  }

  // ----- recovery ------------------------------------------------------------------------------

  /** Nothing is left to do about `id`. */
  predicate Settles(db: Db, id: nat) {
    id in db.snapshots ==>
      && (db.snapshots[id].status == Failed || db.snapshots[id].status == Cancelled)
      && EntriesOf(db, id) == {} && WarningsOf(db, id) == {}
  }

  /** Recovering `id` touches no other snapshot. */
  ghost predicate OnlyTouches(db: Db, db': Db, id: nat) {
    && (forall i :: i != id ==> (i in db'.snapshots <==> i in db.snapshots) && (i in db.snapshots ==> db'.snapshots[i] == db.snapshots[i]))
    && (id in db'.snapshots ==> id in db.snapshots && (db.snapshots[id].status == Complete ==> db'.snapshots[id] == db.snapshots[id]))
    && (forall e :: e in db'.entries ==> e in db.entries && db'.entries[e] == db.entries[e])
    && (forall w :: w in db'.warnings ==> w in db.warnings && db'.warnings[w] == db.warnings[w])
  }

  lemma SettledStays(db: Db, db': Db, id: nat, other: nat)
    requires Settles(db, other) && OnlyTouches(db, db', id) && other != id
    ensures Settles(db', other)
  {
    assert forall e :: e in EntriesOf(db', other) ==> e in EntriesOf(db, other);
    assert forall w :: w in WarningsOf(db', other) ==> w in WarningsOf(db, other);
  }

  /** When every snapshot is complete or settled, the database is a recovered one. */
  lemma SettledIsRecovered(db: Db)
    requires forall id :: id in db.snapshots ==> db.snapshots[id].status == Complete || Settles(db, id)
    ensures Recovered(db) == db
  {
    var r := Recovered(db);
    forall e | e in db.entries
      ensures Kept(db, db.entries[e].snapshot)
    {
      assert e in EntriesOf(db, db.entries[e].snapshot);
    }
    forall w | w in db.warnings
      ensures Kept(db, db.warnings[w].snapshot)
    {
      assert w in WarningsOf(db, db.warnings[w].snapshot);
    }
    assert r.snapshots == db.snapshots;
    assert r.entries == db.entries;
    assert r.warnings == db.warnings;
    assert r.mappings == db.mappings;
  }

  lemma TrimmedIsFine(db: Db, id: nat, e: set<nat>, w: set<nat>)
    requires IsUnfinished(db, id) && e <= EntriesOf(db, id) && w <= WarningsOf(db, id)
    ensures Recovered(Trim(db, e, w)) == Recovered(db) && OnlyTouches(db, Trim(db, e, w), id)
    ensures e == EntriesOf(db, id) && w == WarningsOf(db, id) && db.snapshots[id].status != Deleting ==> Settles(Trim(db, e, w), id)
  {
    TrimLeadsThere(db, id, e, w);
  }

  lemma RemovedIsFine(db: Db, id: nat)
    requires HasStatus(db, id, Deleting)
    ensures Recovered(WithoutSnapshot(db, id)) == Recovered(db) && OnlyTouches(db, WithoutSnapshot(db, id), id)
    ensures Settles(WithoutSnapshot(db, id), id)
  {
    RemoveLeadsThere(db, id);
  }

  function Incomplete(db: Db): set<nat> {
    set id | id in db.snapshots && db.snapshots[id].status != Complete
  }

  /** The first `i` of the listed snapshots are settled, the others are still there. */
  predicate Reached(db: Db, ids: seq<nat>, i: nat)
    requires i <= |ids|
  {
    && (forall j :: 0 <= j < i ==> Settles(db, ids[j]))
    && (forall j :: i <= j < |ids| ==> ids[j] in db.snapshots && db.snapshots[ids[j]].status != Complete)
  }

  predicate OnlyListed(db: Db, ids: seq<nat>) {
    forall id :: id in db.snapshots && db.snapshots[id].status != Complete ==> id in ids
  }

  lemma ListAdvances(db: Db, db': Db, ids: seq<nat>, i: nat)
    requires i < |ids| && Reached(db, ids, i) && OnlyListed(db, ids) && OnlyTouches(db, db', ids[i]) && Settles(db', ids[i])
    requires forall j, k :: 0 <= j < k < |ids| ==> ids[j] < ids[k]
    ensures Reached(db', ids, i + 1) && OnlyListed(db', ids)
  {
    forall j | 0 <= j < i
      ensures Settles(db', ids[j])
    {
      SettledStays(db, db', ids[i], ids[j]);
    }
  }

  lemma ListDone(db: Db, ids: seq<nat>)
    requires Reached(db, ids, |ids|) && OnlyListed(db, ids)
    ensures Recovered(db) == db
  {
    forall id | id in db.snapshots && db.snapshots[id].status != Complete
      ensures Settles(db, id)
    {
      var j :| 0 <= j < |ids| && ids[j] == id;
    }
    SettledIsRecovered(db);
  }

  lemma AllRowsRecovered(db: Db)
    ensures forall id :: RowRecovered(db, Recovered(db), id)
  {
    forall id
      ensures RowRecovered(db, Recovered(db), id)
    {
      RecoveryRowByRow(db, id);
    }
  }

  datatype OpenMode = ReadOnly | ReadWrite

  /** One of the two directories below `temporary/`; or nothing, or something else, in its place. */
  datatype TempPlace = Missing | Blocked | Holding(contents: set<nat>)

  /** What is below `temporary/`: the two directories, and anything else. */
  datatype TempTree = TempTree(loose: set<nat>, objects: TempPlace, restores: TempPlace)

  predicate IsBlocked(t: TempTree) {
    t.objects.Blocked? || t.restores.Blocked?
  }

  /** Both directories are there, and nothing else is. */
  predicate IsBare(t: TempTree) {
    t.loose == {} && t.objects == Holding({}) && t.restores == Holding({})
  }

  function ClearedPlace(place: TempPlace, shared: set<nat>): TempPlace {
    match place
    case Holding(contents) => Holding(contents * shared)
    case Missing => Holding({})
    case Blocked => Blocked
  }

  function Cleared(t: TempTree, shared: set<nat>): TempTree {
    TempTree(t.loose * shared, ClearedPlace(t.objects, shared), ClearedPlace(t.restores, shared))
  }

  class Repository {
    const metadata: MetadataStore
    const mode: OpenMode
    const batchLimit: nat
    var recoveryComplete: bool
    var temporary: TempTree
    var shared: set<nat>

    constructor (metadata: MetadataStore, mode: OpenMode, batchLimit: nat, temporary: TempTree, shared: set<nat>)
      ensures this.metadata == metadata && this.mode == mode && this.batchLimit == batchLimit && !recoveryComplete
      ensures this.temporary == temporary && this.shared == shared
    {
      this.metadata, this.mode, this.batchLimit, recoveryComplete := metadata, mode, batchLimit, false;
      this.temporary, this.shared := temporary, shared;
    }

    method FailAndClean(id: nat) returns (r: Result<Unit, DbError>)
      requires metadata.database.Idle() && HasStatus(metadata.database.committed, id, Pending)
      modifies metadata.database
      ensures metadata.database.Idle()
      ensures Recovered(metadata.database.committed) == Recovered(old(metadata.database.committed))
      ensures OnlyTouches(old(metadata.database.committed), metadata.database.committed, id)
      ensures r.Ok? ==> Settles(metadata.database.committed, id)
      ensures old(metadata.database.fuse) == None && MetadataStore.LegalLimit(batchLimit) ==> r.Ok? && metadata.database.fuse == None
    {
      FailLeadsThere(metadata.database.committed, id);
      r := metadata.MarkStalePendingFailed(id);
      if r.Ok? {
        ghost var failed := metadata.database.committed;
        ghost var e, w;
        r, e, w := metadata.CleanIncomplete(id, batchLimit);
        TrimmedIsFine(failed, id, e, w);
      }
    }

    /** Brings one snapshot to its end, according to its status. */
    method RecoverOne(id: nat) returns (r: Result<Unit, DbError>)
      requires metadata.database.Idle() && id in metadata.database.committed.snapshots
      modifies metadata.database
      ensures metadata.database.Idle()
      ensures Recovered(metadata.database.committed) == Recovered(old(metadata.database.committed))
      ensures OnlyTouches(old(metadata.database.committed), metadata.database.committed, id)
      ensures r.Ok? ==> Settles(metadata.database.committed, id)
      ensures old(metadata.database.fuse) == None && MetadataStore.LegalLimit(batchLimit) && !HasStatus(old(metadata.database.committed), id, Complete) ==>
                r.Ok? && metadata.database.fuse == None
    {
      ghost var db := metadata.database.committed;
      ghost var e, w;
      var status := metadata.database.committed.snapshots[id].status;
      if status == Complete {
        return Err(DatabaseError);
      } else if status == Pending {
        r := FailAndClean(id);
      } else if status == Deleting {
        r, e, w := metadata.DeleteDeleting(id, batchLimit);
        if r.Ok? {
          RemovedIsFine(db, id);
        } else {
          TrimmedIsFine(db, id, e, w);
        }
      } else {
        r, e, w := metadata.CleanIncomplete(id, batchLimit);
        TrimmedIsFine(db, id, e, w);
      }
    }

    /** Removes everything in one directory that is not still shared by another process. */
    method ClearContents(contents: set<nat>) returns (ok: bool, left: set<nat>)
      modifies metadata.database`fuse
      ensures left <= contents && (ok ==> left == contents * shared)
      ensures old(metadata.database.fuse) == None ==> ok && metadata.database.fuse == None
    {
      var rest := contents;
      left := contents;
      while rest != {}
        invariant rest <= left <= contents && left == rest + (contents - rest) * shared
        invariant old(metadata.database.fuse) == None ==> metadata.database.fuse == None
        decreases rest
      {
        var path :| path in rest;
        ok := metadata.database.Attempt();
        if !ok {
          return;
        }
        if path !in shared {
          left := left - {path};
        }
        rest := rest - {path};
      }
      ok := true;
    }

    /** Clears one of the two directories that belong there, or recreates it. */
    method ClearPlace(place: TempPlace) returns (ok: bool, left: TempPlace)
      modifies metadata.database`fuse
      ensures ok ==> !place.Blocked? && left == ClearedPlace(place, shared)
      ensures old(metadata.database.fuse) == None ==> metadata.database.fuse == None && (ok <==> !place.Blocked?)
    {
      match place {
        case Blocked => return false, place;
        case Missing =>
          ok := metadata.database.Attempt();
          left := if ok then Holding({}) else place;
        case Holding(contents) =>
          var rest;
          ok, rest := ClearContents(contents);
          left := Holding(rest);
      }
    }

    /** Clears the temporary tree; only what other processes still share may be left. */
    method ClearTemporary() returns (r: Result<bool, DbError>)
      modifies this`temporary, metadata.database`fuse
      ensures r.Ok? ==> !IsBlocked(old(temporary)) && temporary == Cleared(old(temporary), shared) && (r.value <==> IsBare(temporary))
      ensures old(metadata.database.fuse) == None ==> metadata.database.fuse == None && (r.Ok? <==> !IsBlocked(old(temporary)))
    {
      var ok, objects, restores, loose;
      ok, loose := ClearContents(temporary.loose);
      temporary := temporary.(loose := loose);
      if !ok {
        return Err(DatabaseError);
      }
      ok, objects := ClearPlace(temporary.objects);
      temporary := temporary.(objects := objects);
      if !ok {
        return Err(DatabaseError);
      }
      ok, restores := ClearPlace(temporary.restores);
      temporary := temporary.(restores := restores);
      if !ok {
        return Err(DatabaseError);
      }
      return Ok(IsBare(temporary));
    }

    /** `recover_after_writer_lock`. However it ends, the database leads to the same recovered one as
        before; when it succeeds, the database is that one and passes the check, and the repository counts
        as recovered exactly if nothing temporary was left. Without failures it succeeds, for every legal
        batch limit, unless the check itself finds complete snapshots damaged, or something else stands where
        a temporary directory belongs. */
    method RecoverAfterWriterLock() returns (r: Result<Unit, DbError>)
      requires metadata.database.Idle()
      modifies this`recoveryComplete, this`temporary, metadata.database
      ensures metadata.database.Idle()
      ensures Recovered(metadata.database.committed) == Recovered(old(metadata.database.committed))
      ensures old(recoveryComplete) ==> r == Ok(Unit) && metadata.database.committed == old(metadata.database.committed)
      ensures !old(recoveryComplete) && mode == ReadOnly ==> r == Err(InvalidArgument) && metadata.database.committed == old(metadata.database.committed)
      ensures !old(recoveryComplete) && r.Ok? ==>
                && metadata.database.committed == Recovered(old(metadata.database.committed)) && CheckPasses(metadata.database.committed)
                && (forall id :: RowRecovered(old(metadata.database.committed), metadata.database.committed, id))
                && temporary == Cleared(old(temporary), shared) && (recoveryComplete <==> IsBare(temporary))
      ensures !old(recoveryComplete) && r.Err? ==> !recoveryComplete
      ensures old(metadata.database.fuse) == None && mode == ReadWrite && MetadataStore.LegalLimit(batchLimit) && !old(recoveryComplete) ==>
                (r.Ok? <==> CheckPasses(Recovered(old(metadata.database.committed))) && !IsBlocked(old(temporary)))
    {
      if recoveryComplete {
        return Ok(Unit);
      }
      if mode != ReadWrite {
        return Err(InvalidArgument);
      }
      r := RecoverListed();
      if r.Err? {
        return;
      }
      var cleared := ClearTemporary();
      if cleared.Err? {
        return Err(cleared.error);
      }
      if !CheckPasses(metadata.database.committed) {
        return Err(DatabaseError);
      }
      recoveryComplete := cleared.value;
      AllRowsRecovered(old(metadata.database.committed));
      return Ok(Unit);
    }

    /** The loop over the snapshots that were not complete when recovery began, in ascending order. */
    method RecoverListed() returns (r: Result<Unit, DbError>)
      requires metadata.database.Idle()
      modifies metadata.database
      ensures metadata.database.Idle()
      ensures Recovered(metadata.database.committed) == Recovered(old(metadata.database.committed))
      ensures r.Ok? ==> metadata.database.committed == Recovered(old(metadata.database.committed))
      ensures old(metadata.database.fuse) == None && MetadataStore.LegalLimit(batchLimit) ==> r.Ok? && metadata.database.fuse == None
    {
      ghost var start := metadata.database.committed;
      var ids := Ascending(Incomplete(metadata.database.committed));
      assert forall j :: 0 <= j < |ids| ==> ids[j] in Incomplete(start);
      var i := 0;
      while i < |ids|
        invariant 0 <= i <= |ids| && metadata.database.Idle()
        invariant Recovered(metadata.database.committed) == Recovered(start)
        invariant Reached(metadata.database.committed, ids, i)
        invariant OnlyListed(metadata.database.committed, ids)
        invariant old(metadata.database.fuse) == None && MetadataStore.LegalLimit(batchLimit) ==> metadata.database.fuse == None
      {
        ghost var before := metadata.database.committed;
        var one := RecoverOne(ids[i]);
        if one.Err? {
          return one;
        }
        ListAdvances(before, metadata.database.committed, ids, i);
        i := i + 1;
      }
      ListDone(metadata.database.committed, ids);
      return Ok(Unit);
    }
  }
}
