/** The object store as an object: the imperative form of `store`, proved to be what a worker of the
    step system does when nobody else moves. */
module ObjectStores {
  import opened Common
  import opened Objects
  import opened Durability

  const MAX_READ: nat := 64 * 1024

  /** How many steps a call has left, at most. */
  function Distance(pc: Pc): nat {
    match pc
    case Ready => 0
    case Lookup(_) => 12
    case Compress(_) => 11
    case Acquire(_) => 10
    case Recheck(_, published) => if published then 3 else 9
    case AdoptSync(_, _) => 2
    case AdoptFlush(_, _) => 1
    case MakeShard(_) => 8
    case FlushParent(_) => 7
    case WriteTemporary(_) => 6
    case SyncTemporary(_, _) => 5
    case Publish(_, _) => 4
    case FlushNew(_) => 1
  }

  /** The rest of a call of `store` that nobody disturbs, in which operation number `fuse` fails. */
  function Alone(c: Settings, d: Disk, cache: Cache, pc: Pc, fuse: nat, stop: bool): (e: Effect)
    requires !pc.Ready?
    ensures e.pc.Ready? && e.end.Some?
    decreases Distance(pc)
  {
    var e := Act(c, d, cache, pc, fuse > 0, stop);
    if e.pc.Ready? then e else Alone(c, e.disk, e.cache, e.pc, fuse - 1, stop)
  }

  predicate BeforeRename(pc: Pc) {
    !pc.Ready? && !pc.AdoptSync? && !pc.AdoptFlush? && !pc.FlushNew?
  }

  lemma GrowsThrough(d: Disk, m: Disk, d': Disk)
    requires Grows(d, m) && Grows(m, d')
    ensures Grows(d, d')
  {
  }

  predicate Adopts(pc: Pc) {
    pc.AdoptSync? || pc.AdoptFlush?
  }

  /** What a step before the rename says about the name of its chunk. */
  lemma ResultNovelty(c: Settings, d: Disk, cache: Cache, pc: Pc, ok: bool, stop: bool)
    requires Sound(c, d, cache, pc) && BeforeRename(pc)
    ensures var e := Act(c, d, cache, pc, ok, stop); var h := c.codec.digest(ChunkOf(pc));
            && (e.Result().Some? ==> h in d.names && !e.Result().value.newly)
            && (BeforeRename(e.pc) ==> (h in e.disk.names <==> h in d.names))
            && (Adopts(e.pc) ==> h in d.names)
            && (e.pc.FlushNew? ==> h !in d.names)
  {
  }

  ghost predicate Sound(c: Settings, d: Disk, cache: Cache, pc: Pc) {
    ShardsHold(d) && CacheGood(c, d, cache) && Knows(c, d, pc)
  }

  /** What a step, or a whole call, that starts at `pc` on the disk `d` and ends with `e` achieves.
      Whatever happens, the store stays sound; a result is durable, readable and the chunk's own, and
      until the rename it is new exactly if its name is free. */
  ghost predicate Achieves(c: Settings, d: Disk, pc: Pc, e: Effect)
    requires !pc.Ready?
  {
    && Sound(c, e.disk, e.cache, e.pc) && Grows(d, e.disk)
    && (e.Result().Some? ==>
          var o := e.Result().value;
          && Solid(c, e.disk, o) && o.hash == c.codec.digest(ChunkOf(pc)) && o.rawSize == |ChunkOf(pc)|
          && (o.newly <==> if BeforeRename(pc) then o.hash !in d.names else pc.FlushNew?))
  }

  /** What a step says about the name of its chunk when it is not the last one. */
  ghost predicate Leads(c: Settings, d: Disk, pc: Pc, e: Effect)
    requires !pc.Ready?
  {
    !e.pc.Ready? ==>
      && ChunkOf(e.pc) == ChunkOf(pc) && Distance(e.pc) < Distance(pc)
      && (BeforeRename(e.pc) ==> BeforeRename(pc) && (c.codec.digest(ChunkOf(pc)) in e.disk.names <==> c.codec.digest(ChunkOf(pc)) in d.names))
      && (Adopts(e.pc) ==> Adopts(pc) || (BeforeRename(pc) && c.codec.digest(ChunkOf(pc)) in d.names))
      && (e.pc.FlushNew? ==> BeforeRename(pc) && c.codec.digest(ChunkOf(pc)) !in d.names)
  }

  lemma LookupLeads(c: Settings, d: Disk, cache: Cache, pc: Pc, stop: bool)
    requires Sound(c, d, cache, pc) && (pc.Lookup? || pc.Compress? || pc.Acquire?)
    ensures Leads(c, d, pc, Act(c, d, cache, pc, true, stop))
  {
  }

  lemma RecheckLeads(c: Settings, d: Disk, cache: Cache, pc: Pc, stop: bool)
    requires Sound(c, d, cache, pc) && pc.Recheck?
    ensures Leads(c, d, pc, Act(c, d, cache, pc, true, stop))
  {
  }

  lemma WriteLeads(c: Settings, d: Disk, cache: Cache, pc: Pc, stop: bool)
    requires Sound(c, d, cache, pc) && (pc.MakeShard? || pc.FlushParent? || pc.WriteTemporary? || pc.SyncTemporary?)
    ensures Leads(c, d, pc, Act(c, d, cache, pc, true, stop))
  {
  }

  lemma RenameLeads(c: Settings, d: Disk, cache: Cache, pc: Pc, stop: bool)
    requires Sound(c, d, cache, pc) && (pc.Publish? || pc.FlushNew? || pc.AdoptSync? || pc.AdoptFlush?)
    ensures Leads(c, d, pc, Act(c, d, cache, pc, true, stop))
  {
  }

  lemma ActLeads(c: Settings, d: Disk, cache: Cache, pc: Pc, ok: bool, stop: bool)
    requires c.Valid() && Sound(c, d, cache, pc) && !pc.Ready?
    ensures Leads(c, d, pc, Act(c, d, cache, pc, ok, stop))
  {
    if ok {
      if pc.Lookup? || pc.Compress? || pc.Acquire? {
        LookupLeads(c, d, cache, pc, stop);
      } else if pc.Recheck? {
        RecheckLeads(c, d, cache, pc, stop);
      } else if pc.MakeShard? || pc.FlushParent? || pc.WriteTemporary? || pc.SyncTemporary? {
        WriteLeads(c, d, cache, pc, stop);
      } else {
        RenameLeads(c, d, cache, pc, stop);
      }
    }
  }

  lemma ActAchieves(c: Settings, d: Disk, cache: Cache, pc: Pc, ok: bool, stop: bool)
    requires c.Valid() && Sound(c, d, cache, pc) && !pc.Ready?
    ensures Achieves(c, d, pc, Act(c, d, cache, pc, ok, stop))
  {
    ActStep(c, d, cache, pc, ok, stop);
    ResultIsForTheChunk(c, d, cache, pc, ok, stop);
    if BeforeRename(pc) {
      ResultNovelty(c, d, cache, pc, ok, stop);
    }
  }

  lemma AchievedThrough(c: Settings, d: Disk, pc: Pc, e: Effect, last: Effect)
    requires !pc.Ready? && !e.pc.Ready? && Achieves(c, d, pc, e) && Leads(c, d, pc, e) && Achieves(c, e.disk, e.pc, last)
    ensures Achieves(c, d, pc, last)
  {
    GrowsThrough(d, e.disk, last.disk);
  }

  lemma {:induction false} AloneAchieves(c: Settings, d: Disk, cache: Cache, pc: Pc, fuse: nat, stop: bool)
    requires c.Valid() && Sound(c, d, cache, pc) && !pc.Ready?
    ensures Achieves(c, d, pc, Alone(c, d, cache, pc, fuse, stop))
    decreases Distance(pc)
  {
    var e := Act(c, d, cache, pc, fuse > 0, stop);
    AloneGoesOn(c, d, cache, pc, fuse, stop);
    StepIsSound(c, d, cache, pc, fuse > 0, stop);
    if !e.pc.Ready? {
      AloneAchieves(c, e.disk, e.cache, e.pc, fuse - 1, stop);
      ThroughStep(c, d, cache, pc, fuse > 0, stop, Alone(c, e.disk, e.cache, e.pc, fuse - 1, stop));
    }
  }

  lemma StepIsSound(c: Settings, d: Disk, cache: Cache, pc: Pc, ok: bool, stop: bool)
    requires c.Valid() && Sound(c, d, cache, pc) && !pc.Ready?
    ensures var e := Act(c, d, cache, pc, ok, stop);
            if e.pc.Ready? then Achieves(c, d, pc, e) else Sound(c, e.disk, e.cache, e.pc) && Distance(e.pc) < Distance(pc)
  {
    ActAchieves(c, d, cache, pc, ok, stop);
    ActLeads(c, d, cache, pc, ok, stop);
  }

  lemma ThroughStep(c: Settings, d: Disk, cache: Cache, pc: Pc, ok: bool, stop: bool, last: Effect)
    requires c.Valid() && Sound(c, d, cache, pc) && !pc.Ready? && !Act(c, d, cache, pc, ok, stop).pc.Ready?
    requires Achieves(c, Act(c, d, cache, pc, ok, stop).disk, Act(c, d, cache, pc, ok, stop).pc, last)
    ensures Achieves(c, d, pc, last)
  {
    ActAchieves(c, d, cache, pc, ok, stop);
    ActLeads(c, d, cache, pc, ok, stop);
    AchievedThrough(c, d, pc, Act(c, d, cache, pc, ok, stop), last);
  }

  lemma AloneGoesOn(c: Settings, d: Disk, cache: Cache, pc: Pc, fuse: nat, stop: bool)
    requires !pc.Ready?
    ensures var e := Act(c, d, cache, pc, fuse > 0, stop);
            if e.pc.Ready? then Alone(c, d, cache, pc, fuse, stop) == e
            else fuse > 0 && Alone(c, d, cache, pc, fuse, stop) == Alone(c, e.disk, e.cache, e.pc, fuse - 1, stop)
  {
  }

  /** With no failing operation and no cancellation, a call succeeds unless a file of its name is already
      there whose content is not a chunk of that digest and size. */
  lemma {:induction false} AloneSucceeds(c: Settings, d: Disk, cache: Cache, pc: Pc, fuse: nat)
    requires c.Valid() && Sound(c, d, cache, pc) && !pc.Ready? && fuse >= Distance(pc)
    requires BeforeRename(pc) ==> Acceptable(c, d, ChunkOf(pc))
    ensures Alone(c, d, cache, pc, fuse, false).Result().Some?
    decreases Distance(pc)
  {
    var e := Act(c, d, cache, pc, true, false);
    AloneGoesOn(c, d, cache, pc, fuse, false);
    StepGoesOn(c, d, cache, pc);
    if !e.pc.Ready? {
      AloneSucceeds(c, e.disk, e.cache, e.pc, fuse - 1);
    }
  }

  lemma StepGoesOn(c: Settings, d: Disk, cache: Cache, pc: Pc)
    requires c.Valid() && Sound(c, d, cache, pc) && !pc.Ready?
    requires BeforeRename(pc) ==> Acceptable(c, d, ChunkOf(pc))
    ensures var e := Act(c, d, cache, pc, true, false);
            if e.pc.Ready? then e.Result().Some?
            else Sound(c, e.disk, e.cache, e.pc) && Distance(e.pc) < Distance(pc) && (BeforeRename(e.pc) ==> Acceptable(c, e.disk, ChunkOf(e.pc)))
  {
    ActAchieves(c, d, cache, pc, true, false);
    ActLeads(c, d, cache, pc, true, false);
    StepSucceeds(c, d, cache, pc);
  }

  /** A call puts no other name on the disk than that of its chunk. */
  lemma {:induction false} AloneAddsItsName(c: Settings, d: Disk, cache: Cache, pc: Pc, fuse: nat, stop: bool)
    requires c.Valid() && Sound(c, d, cache, pc) && !pc.Ready?
    ensures forall h :: h in Alone(c, d, cache, pc, fuse, stop).disk.names ==> h in d.names || h == c.codec.digest(ChunkOf(pc))
    decreases Distance(pc)
  {
    var e := Act(c, d, cache, pc, fuse > 0, stop);
    ActAchieves(c, d, cache, pc, fuse > 0, stop);
    ActAddsItsName(c, d, cache, pc, fuse > 0, stop);
    if !e.pc.Ready? {
      ActLeads(c, d, cache, pc, fuse > 0, stop);
      AloneAddsItsName(c, e.disk, e.cache, e.pc, fuse - 1, stop);
    }
  }

  lemma ActAddsItsName(c: Settings, d: Disk, cache: Cache, pc: Pc, ok: bool, stop: bool)
    requires Sound(c, d, cache, pc) && !pc.Ready?
    ensures forall h :: h in Act(c, d, cache, pc, ok, stop).disk.names ==> h in d.names || h == c.codec.digest(ChunkOf(pc))
  {
  }

  predicate Acceptable(c: Settings, d: Disk, chunk: Bytes) {
    var h := c.codec.digest(chunk);
    h in d.names ==> Readable(c, d, Stored(h, |chunk|, |d.names[h].data|, false))
  }

  lemma LookupSucceeds(c: Settings, d: Disk, cache: Cache, pc: Pc)
    requires c.Valid() && Sound(c, d, cache, pc) && (pc.Lookup? || pc.Compress? || pc.Recheck?) && Acceptable(c, d, ChunkOf(pc))
    ensures var e := Act(c, d, cache, pc, true, false);
            && (e.pc.Ready? ==> e.Result().Some?)
            && (BeforeRename(e.pc) ==> ChunkOf(e.pc) == ChunkOf(pc) && e.disk == d)
  {
    var chunk := ChunkOf(pc);
    if pc.Compress? {
      CompressedFits(c, chunk);
    } else if c.codec.digest(chunk) in cache {
      WarmAcceptable(c, d, cache, chunk);
    }
  }

  lemma StepSucceeds(c: Settings, d: Disk, cache: Cache, pc: Pc)
    requires c.Valid() && Sound(c, d, cache, pc) && !pc.Ready?
    requires BeforeRename(pc) ==> Acceptable(c, d, ChunkOf(pc))
    ensures var e := Act(c, d, cache, pc, true, false);
            && (e.pc.Ready? ==> e.Result().Some?)
            && (BeforeRename(e.pc) ==> BeforeRename(pc) && ChunkOf(e.pc) == ChunkOf(pc) && Acceptable(c, e.disk, ChunkOf(pc)))
  {
    if pc.Lookup? || pc.Compress? || pc.Recheck? {
      LookupSucceeds(c, d, cache, pc);
    }
  }

  lemma CompressedFits(c: Settings, chunk: Bytes)
    requires c.Valid() && 0 < |chunk| <= c.maxChunk
    ensures 0 < |c.codec.compress(chunk)| <= c.maxChunk + ALLOWANCE
  {
    var h := c.codec.digest(chunk);
    CompressedIsReadable(c, Disk({}, {}, map[h := File(c.codec.compress(chunk), false)], {}), chunk);
  }

  lemma WarmAcceptable(c: Settings, d: Disk, cache: Cache, chunk: Bytes)
    requires CacheGood(c, d, cache) && c.codec.digest(chunk) in cache && Acceptable(c, d, chunk)
    ensures var r := WarmLookup(c, d, cache, c.codec.digest(chunk), |chunk|); r.Ok? && r.value.Some?
  {
    var h := c.codec.digest(chunk);
    WarmEqualsCold(c, d, cache, h, |chunk|);
  }

  // ----- a store that refuses nothing ----------------------------------------------------------

  /** These bytes are the object of a chunk with this digest. */
  predicate IsObject(c: Settings, h: Digest, z: Bytes) {
    && 0 < |z| <= c.maxChunk + ALLOWANCE && |z| <= c.codec.bound(c.maxChunk)
    && c.codec.decode(z).Some? && 0 < |c.codec.decode(z).value| <= c.maxChunk && c.codec.digest(c.codec.decode(z).value) == h
  }

  /** Every file in the store is the object of a chunk. */
  ghost predicate Genuine(c: Settings, d: Disk) {
    forall h {:trigger IsObject(c, h, d.names[h].data)} :: h in d.names ==> IsObject(c, h, d.names[h].data)
  }

  lemma GenuineAccepts(c: Settings, d: Disk, chunk: Bytes)
    requires c.codec.CollisionFree() && Genuine(c, d)
    ensures Acceptable(c, d, chunk)
  {
    var h := c.codec.digest(chunk);
    if h in d.names {
      assert IsObject(c, h, d.names[h].data);
      assert !c.codec.Collide(c.codec.decode(d.names[h].data).value, chunk);
    }
  }

  lemma GenuineStays(c: Settings, d: Disk, d': Disk, o: Stored)
    requires Genuine(c, d) && Grows(d, d') && Solid(c, d', o)
    requires forall h :: h in d'.names ==> h in d.names || h == o.hash
    ensures Genuine(c, d')
  {
    forall h | h in d'.names
      ensures IsObject(c, h, d'.names[h].data)
    {
      if h in d.names {
        assert IsObject(c, h, d.names[h].data);
      }
    }
  }

  /** A store in which every file is the object of a chunk takes every further chunk, if no operation fails
      and digests do not collide, and remains such a store. */
  lemma GenuineStoreTakesAll(c: Settings, d: Disk, cache: Cache, chunk: Bytes, fuse: nat)
    requires c.Valid() && c.codec.CollisionFree() && Genuine(c, d) && ShardsHold(d) && CacheGood(c, d, cache)
    requires 0 < |chunk| <= c.maxChunk && fuse >= 12
    ensures var e := Alone(c, d, cache, Lookup(chunk), fuse, false);
            e.Result().Some? && Genuine(c, e.disk) && ShardsHold(e.disk) && CacheGood(c, e.disk, e.cache)
  {
    GenuineAccepts(c, d, chunk);
    StoreFacts(c, d, cache, chunk, fuse, false);
    var e := Alone(c, d, cache, Lookup(chunk), fuse, false);
    GenuineStays(c, d, e.disk, e.Result().value);
  }

  // ----- the objects ---------------------------------------------------------------------------

  /** The files of a repository. `fuse` says how many more operations succeed before one fails. */
  class ObjectFiles {
    var disk: Disk
    var fuse: nat

    constructor (disk: Disk, fuse: nat)
      ensures this.disk == disk && this.fuse == fuse
    {
      this.disk, this.fuse := disk, fuse;
    }

    method Attempt() returns (ok: bool)
      modifies this`fuse
      ensures ok == (old(fuse) > 0) && fuse == if ok then old(fuse) - 1 else 0
    {
      ok := fuse > 0;
      if ok {
        fuse := fuse - 1;
      }
    }

    /** Reads a file in pieces; one that ends early is truncated. */
    method ReadExact(h: Digest, size: nat) returns (r: Result<Bytes, ObjectError>)
      ensures r == if h !in disk.names then Err(Missing)
                   else if |disk.names[h].data| < size then Err(Corrupt)
                   else Ok(disk.names[h].data[..size])
    {
      if h !in disk.names {
        return Err(Missing);
      }
      var data := disk.names[h].data;
      var bytes, offset := [], 0;
      while offset < size
        invariant 0 <= offset <= size && offset <= |data| && bytes == data[..offset]
      {
        var count := if size - offset < MAX_READ then size - offset else MAX_READ;
        if |data| - offset < count {
          return Err(Corrupt);
        }
        bytes := bytes + data[offset..offset + count];
        offset := offset + count;
      }
      return Ok(bytes);
    }
  }

  class ObjectStore {
    const c: Settings
    const files: ObjectFiles
    var known: Cache
    /** How many calls have failed. */
    ghost var failures: nat

    ghost predicate Valid()
      reads this, files
    {
      c.Valid() && ShardsHold(files.disk) && CacheGood(c, files.disk, known)
    }

    constructor (c: Settings, files: ObjectFiles)
      requires c.Valid() && ShardsHold(files.disk)
      ensures Valid() && this.c == c && this.files == files && known == map[]
    {
      this.c, this.files, known, failures := c, files, map[], 0;
    }

    /** The cache is emptied rather than grown beyond its bound. */
    method Remember(o: Stored)
      modifies this`known
      ensures known == Remembered(old(known), o)
      ensures |old(known)| <= MAX_KNOWN ==> |known| <= MAX_KNOWN
    {
      if |known| >= MAX_KNOWN && o.hash !in known {
        known := map[];
      }
      known := known[o.hash := o];
    }

    method ReadVerified(h: Digest, rawSize: nat, storedSize: nat) returns (r: Result<Bytes, ObjectError>)
      ensures r == Objects.ReadVerified(c, files.disk, h, rawSize, storedSize)
    {
      if rawSize == 0 || rawSize > c.maxChunk {
        return Err(Corrupt);
      }
      if storedSize == 0 || storedSize > c.maxChunk + ALLOWANCE {
        return Err(Corrupt);
      }
      var size := files.disk.Size(h);
      if size == None {
        return Err(Missing);
      }
      if size.value != storedSize {
        return Err(Corrupt);
      }
      var z := files.ReadExact(h, storedSize);
      assert files.disk.names[h].data[..storedSize] == files.disk.names[h].data;
      var raw := Decompress(c, z.value, rawSize);
      if raw == None {
        return Err(Corrupt);
      }
      if c.codec.digest(raw.value) != h {
        return Err(Corrupt);
      }
      return Ok(raw.value);
    }

    /** Adopts a file that is there already: verifies it, syncs it and flushes its directory. */
    method Adopt(t: Task, size: nat, ghost stop: bool) returns (r: Result<Stored, ObjectError>)
      modifies this`known, files
      ensures var e := Alone(c, old(files.disk), old(known), AdoptSync(t, size), old(files.fuse), stop);
              e.end == Some(r) && files.disk == e.disk && known == e.cache
      ensures old(files.fuse) <= files.fuse + 2
    {
      var ok := files.Attempt();
      if !ok {
        return Err(FilesystemError);
      }
      files.disk := files.disk.Sync(t.hash);
      ok := files.Attempt();
      if !ok {
        return Err(FilesystemError);
      }
      files.disk := files.disk.FlushShard(t.hash.shard);
      var adopted := Stored(t.hash, |t.raw|, size, false);
      Remember(adopted);
      return Ok(adopted);
    }

    /** Writes, syncs and renames a new object, each directory being flushed before it is relied on. */
    method PublishNew(t: Task, ghost stop: bool) returns (r: Result<Stored, ObjectError>)
      requires t.hash !in files.disk.names
      modifies this`known, files
      ensures var e := Alone(c, old(files.disk), old(known), MakeShard(t), old(files.fuse), stop);
              e.end == Some(r) && files.disk == e.disk && known == e.cache
      ensures old(files.fuse) <= files.fuse + 6
    {
      ghost var spec := Alone(c, files.disk, known, MakeShard(t), files.fuse, stop);
      var ok := files.Attempt();
      if !ok {
        return Err(FilesystemError);
      }
      files.disk := files.disk.MakeShard(t.hash.shard);
      assert spec == Alone(c, files.disk, known, FlushParent(t), files.fuse, stop);
      ok := files.Attempt();
      if !ok {
        return Err(FilesystemError);
      }
      files.disk := files.disk.FlushParent();
      assert spec == Alone(c, files.disk, known, WriteTemporary(t), files.fuse, stop);
      ok := files.Attempt();
      if !ok {
        return Err(FilesystemError);
      }
      var temporary := File(t.z, false);
      assert spec == Alone(c, files.disk, known, SyncTemporary(t, temporary), files.fuse, stop);
      ok := files.Attempt();
      if !ok {
        return Err(FilesystemError);
      }
      temporary := temporary.(synced := true);
      assert spec == Alone(c, files.disk, known, Publish(t, temporary), files.fuse, stop);
      r := Rename(t, temporary, stop);
    }

    method Rename(t: Task, temporary: File, ghost stop: bool) returns (r: Result<Stored, ObjectError>)
      requires t.hash !in files.disk.names
      modifies this`known, files
      ensures var e := Alone(c, old(files.disk), old(known), Publish(t, temporary), old(files.fuse), stop);
              e.end == Some(r) && files.disk == e.disk && known == e.cache
      ensures old(files.fuse) <= files.fuse + 2
    {
      var ok := files.Attempt();
      if !ok {
        return Err(FilesystemError);
      }
      files.disk := files.disk.Publish(t.hash, temporary);
      ok := files.Attempt();
      if !ok {
        return Err(FilesystemError);
      }
      files.disk := files.disk.FlushShard(t.hash.shard);
      var stored := Stored(t.hash, |t.raw|, |t.z|, true);
      Remember(stored.(newly := false));
      return Ok(stored);
    }

    /** Under the stripe lock: what the cache or the disk has is reused, anything else published. */
    method StoreLocked(t: Task, ghost stop: bool) returns (r: Result<Stored, ObjectError>)
      modifies this`known, files
      ensures var e := Alone(c, old(files.disk), old(known), Recheck(t, false), old(files.fuse), stop);
              e.end == Some(r) && files.disk == e.disk && known == e.cache
      ensures old(files.fuse) <= files.fuse + 7
    {
      var ok := files.Attempt();
      if !ok {
        return Err(FilesystemError);
      }
      match WarmLookup(c, files.disk, known, t.hash, |t.raw|) {
        case Err(error) => return Err(error);
        case Ok(Some(reused)) => return Ok(reused);
        case Ok(None) =>
      }
      var size := files.disk.Size(t.hash);
      if size == None {
        r := PublishNew(t, stop);
        return;
      }
      var content := ReadVerified(t.hash, |t.raw|, size.value);
      if content.Err? {
        return Err(content.error);
      }
      r := Adopt(t, size.value, stop);
    }

    /** The whole call is what a worker of the step system does alone. Whatever fails, the disk only
        grows; a success is durable, readable and the chunk's own, and new exactly if its name was free. */
    method Store(chunk: Bytes, stop: bool) returns (r: Result<Stored, ObjectError>)
      requires Valid()
      modifies this`known, this`failures, files
      ensures failures == old(failures) + if r.Ok? then 0 else 1
      ensures Valid() && Grows(old(files.disk), files.disk)
      ensures chunk == [] || |chunk| > c.maxChunk ==>
                r == Err(InvalidArgument) && files.disk == old(files.disk) && known == old(known)
      ensures 0 < |chunk| <= c.maxChunk ==>
                var e := Alone(c, old(files.disk), old(known), Lookup(chunk), old(files.fuse), stop);
                e.end == Some(r) && files.disk == e.disk && known == e.cache
      ensures r.Ok? ==>
                && Solid(c, files.disk, r.value) && r.value.hash == c.codec.digest(chunk) && r.value.rawSize == |chunk|
                && (r.value.newly <==> r.value.hash !in old(files.disk.names))
      ensures 0 < |chunk| <= c.maxChunk && !stop && old(files.fuse) >= 12 && Acceptable(c, old(files.disk), chunk) ==> r.Ok?
      ensures old(files.fuse) <= files.fuse + 12
      ensures forall h :: h in files.disk.names ==> h in old(files.disk.names) || h == c.codec.digest(chunk)
    {
      if chunk == [] || |chunk| > c.maxChunk {
        failures := failures + 1;
        return Err(InvalidArgument);
      }
      StoreFacts(c, files.disk, known, chunk, files.fuse, stop);
      ghost var spec := Alone(c, files.disk, known, Lookup(chunk), files.fuse, stop);
      var ok := files.Attempt();
      if !ok {
        failures := failures + 1;
        return Err(FilesystemError);
      }
      var h := c.codec.digest(chunk);
      match WarmLookup(c, files.disk, known, h, |chunk|) {
        case Err(error) =>
          failures := failures + 1;
          return Err(error);
        case Ok(Some(reused)) => return Ok(reused);
        case Ok(None) =>
      }
      assert spec == Alone(c, files.disk, known, Compress(chunk), files.fuse, stop);
      r := CompressAndStore(chunk, stop);
      failures := failures + if r.Ok? then 0 else 1;
    }

    method CompressAndStore(chunk: Bytes, stop: bool) returns (r: Result<Stored, ObjectError>)
      modifies this`known, files
      ensures var e := Alone(c, old(files.disk), old(known), Compress(chunk), old(files.fuse), stop);
              e.end == Some(r) && files.disk == e.disk && known == e.cache
      ensures old(files.fuse) <= files.fuse + 9
    {
      ghost var spec := Alone(c, files.disk, known, Compress(chunk), files.fuse, stop);
      var ok := files.Attempt();
      if !ok {
        return Err(FilesystemError);
      }
      if stop {
        return Err(Cancelled);
      }
      var z := c.codec.compress(chunk);
      if |z| == 0 || |z| > c.maxChunk + ALLOWANCE {
        return Err(CompressionError);
      }
      var t := Task(chunk, c.codec.digest(chunk), z);
      assert spec == Alone(c, files.disk, known, Acquire(t), files.fuse, stop);
      ok := files.Attempt();
      if !ok {
        return Err(FilesystemError);
      }
      r := StoreLocked(t, stop);
    }
  }

  /** What `Store` promises, of the specification. */
  lemma StoreFacts(c: Settings, d: Disk, cache: Cache, chunk: Bytes, fuse: nat, stop: bool)
    requires c.Valid() && ShardsHold(d) && CacheGood(c, d, cache) && 0 < |chunk| <= c.maxChunk
    ensures var e := Alone(c, d, cache, Lookup(chunk), fuse, stop);
            && ShardsHold(e.disk) && Grows(d, e.disk) && CacheGood(c, e.disk, e.cache)
            && (e.Result().Some? ==>
                  var o := e.Result().value;
                  && Solid(c, e.disk, o) && o.hash == c.codec.digest(chunk) && o.rawSize == |chunk|
                  && (o.newly <==> o.hash !in d.names))
            && (!stop && fuse >= 12 && Acceptable(c, d, chunk) ==> e.Result().Some?)
            && (forall h :: h in e.disk.names ==> h in d.names || h == c.codec.digest(chunk))
  {
    AloneAddsItsName(c, d, cache, Lookup(chunk), fuse, stop);
    AloneAchieves(c, d, cache, Lookup(chunk), fuse, stop);
    if !stop && fuse >= 12 && Acceptable(c, d, chunk) {
      AloneSucceeds(c, d, cache, Lookup(chunk), fuse);
    }
  }
}
