/** The object publication protocol as a step system with crashes.

    Any number of workers store chunks, each with its own cache of known objects; the writer registers
    stored objects in a transaction and commits or rolls back; and between any two steps the process
    may be killed or the power may fail, after which a new process starts on what the disk kept. A
    worker's step is one filesystem operation. Any operation may also fail, in which case `store`
    throws: the worker gives its stripe lock up and what it did so far stays behind. */
module Durability {
  import opened Common
  import opened Objects

  /** A chunk on its way into the store: its bytes, digest and compressed form. */
  datatype Task = Task(raw: Bytes, hash: Digest, z: Bytes)

  /** Where a worker is inside `store`. `Recheck` to `FlushNew` run under the stripe lock. */
  datatype Pc =
    | Ready
    | Lookup(chunk: Bytes)
    | Compress(chunk: Bytes)
    | Acquire(task: Task)
    | Recheck(task: Task, published: bool)
    | AdoptSync(task: Task, size: nat)
    | AdoptFlush(task: Task, size: nat)
    | MakeShard(task: Task)
    | FlushParent(task: Task)
    | WriteTemporary(task: Task)
    | SyncTemporary(task: Task, file: File)
    | Publish(task: Task, file: File)
    | FlushNew(task: Task)

  type Table = map<Digest, ChunkRow>

  /** `returned` are the objects that workers of the running process have returned, `rows` the
      committed chunk table, `pending` the chunk table as the open transaction sees it. `newly` lists
      the digests for which some `store` has ever returned `newly_stored`. */
  datatype State = State(disk: Disk, pcs: map<nat, Pc>, caches: map<nat, Cache>, returned: set<Stored>,
                         rows: Table, pending: Table, newly: seq<Digest>)

  datatype Step =
    | Call(worker: nat, chunk: Bytes)
    | Run(worker: nat, ok: bool, stop: bool)
    | Register(stored: Stored)
    | Commit
    | Rollback
    | Kill
    | PowerLoss(left: Disk)

  /** A worker's step: where it goes, what it does to the disk and its cache, and how `store` ends if
      the step is its last. */
  datatype Effect = Effect(pc: Pc, disk: Disk, cache: Cache, end: Option<Result<Stored, ObjectError>>) {
    function Result(): Option<Stored> {
      if end.Some? && end.value.Ok? then Some(end.value.value) else None
    }
  }

  function PcOf(s: State, w: nat): Pc {
    if w in s.pcs then s.pcs[w] else Ready
  }

  function CacheOf(s: State, w: nat): Cache {
    if w in s.caches then s.caches[w] else map[]
  }

  /** The position lies between taking and releasing the lock of `shard`'s stripe. */
  predicate Holds(pc: Pc, shard: Byte) {
    !pc.Ready? && !pc.Lookup? && !pc.Compress? && !pc.Acquire? && pc.task.hash.shard == shard
  }

  function Throw(d: Disk, cache: Cache, error: ObjectError): Effect {
    Effect(Ready, d, cache, Some(Err(error)))
  }

  function Return(d: Disk, cache: Cache, o: Stored): Effect {
    Effect(Ready, d, cache, Some(Ok(o)))
  }

  /** The lookup before the lock: the cache only. */
  function LookupAct(c: Settings, d: Disk, cache: Cache, chunk: Bytes): Effect {
    match WarmLookup(c, d, cache, c.codec.digest(chunk), |chunk|)
    case Err(error) => Throw(d, cache, error)
    case Ok(Some(known)) => Return(d, cache, known)
    case Ok(None) => Effect(Compress(chunk), d, cache, None)
  }

  function CompressAct(c: Settings, d: Disk, cache: Cache, chunk: Bytes, stop: bool): Effect {
    var z := c.codec.compress(chunk);
    if stop then Throw(d, cache, Cancelled)
    else if |z| == 0 || |z| > c.maxChunk + ALLOWANCE then Throw(d, cache, CompressionError)
    else Effect(Acquire(Task(chunk, c.codec.digest(chunk), z)), d, cache, None)
  }

  /** The lookup under the lock: the cache, then the file itself. After a publication that found the
      name taken, a file that has meanwhile disappeared is an error. */
  function RecheckAct(c: Settings, d: Disk, cache: Cache, t: Task, published: bool): Effect {
    match WarmLookup(c, d, cache, t.hash, |t.raw|)
    case Err(error) => Throw(d, cache, error)
    case Ok(Some(known)) => Return(d, cache, known)
    case Ok(None) =>
      match ColdLookup(c, d, t.hash, |t.raw|)
      case Err(error) => Throw(d, cache, error)
      case Ok(Some(orphan)) => Effect(AdoptSync(t, orphan.storedSize), d, cache, None)
      case Ok(None) => if published then Throw(d, cache, FilesystemError) else Effect(MakeShard(t), d, cache, None)
  }

  function AdoptAct(d: Disk, cache: Cache, t: Task, size: nat): Effect {
    var adopted := Stored(t.hash, |t.raw|, size, false);
    Return(d.FlushShard(t.hash.shard), Remembered(cache, adopted), adopted)
  }

  function FlushNewAct(d: Disk, cache: Cache, t: Task): Effect {
    var stored := Stored(t.hash, |t.raw|, |t.z|, true);
    Return(d.FlushShard(t.hash.shard), Remembered(cache, stored.(newly := false)), stored)
  }

  function Act(c: Settings, d: Disk, cache: Cache, pc: Pc, ok: bool, stop: bool): Effect {
    if !ok then Throw(d, cache, FilesystemError)
    else
      match pc
      case Ready => Effect(Ready, d, cache, None)
      case Lookup(chunk) => LookupAct(c, d, cache, chunk)
      case Compress(chunk) => CompressAct(c, d, cache, chunk, stop)
      case Acquire(t) => Effect(Recheck(t, false), d, cache, None)
      case Recheck(t, published) => RecheckAct(c, d, cache, t, published)
      case AdoptSync(t, size) => Effect(AdoptFlush(t, size), d.Sync(t.hash), cache, None)
      case AdoptFlush(t, size) => AdoptAct(d, cache, t, size)
      case MakeShard(t) => Effect(FlushParent(t), d.MakeShard(t.hash.shard), cache, None)
      case FlushParent(t) => Effect(WriteTemporary(t), d.FlushParent(), cache, None)
      case WriteTemporary(t) => Effect(SyncTemporary(t, File(t.z, false)), d, cache, None)
      case SyncTemporary(t, file) => Effect(Publish(t, file.(synced := true)), d, cache, None)
      case Publish(t, file) =>
        if t.hash in d.names then Effect(Recheck(t, true), d, cache, None)
        else Effect(FlushNew(t), d.Publish(t.hash, file), cache, None)
      case FlushNew(t) => FlushNewAct(d, cache, t)
  }

  /** Taking a stripe lock waits until no other worker holds it. */
  ghost predicate CanRun(s: State, w: nat) {
    PcOf(s, w).Acquire? ==> forall v: nat :: v != w ==> !Holds(PcOf(s, v), PcOf(s, w).task.hash.shard)
  }

  /** What registering an object decides: it must still be usable, and agree with the row there is. */
  function RegisterOutcome(c: Settings, s: State, o: Stored): Result<Table, ObjectError> {
    match RequireReusable(c, s.disk, o, o.hash, o.rawSize)
    case Err(e) => Err(e)
    case Ok(_) =>
      var row := ChunkRow(o.rawSize, o.storedSize);
      if o.hash !in s.pending then Ok(s.pending[o.hash := row])
      else if s.pending[o.hash] == row then Ok(s.pending)
      else Err(Corrupt)
  }

  /** An object is registered exactly if its file has the recorded size, within the limits, and any row
      that there is agrees; the row is then there, and no other has changed. */
  lemma RegisteredIff(c: Settings, s: State, o: Stored)
    ensures RegisterOutcome(c, s, o).Ok? <==>
              && o.hash in s.disk.names && |s.disk.names[o.hash].data| == o.storedSize && 0 < o.storedSize <= c.maxChunk + ALLOWANCE
              && (o.hash in s.pending ==> s.pending[o.hash] == ChunkRow(o.rawSize, o.storedSize))
    ensures RegisterOutcome(c, s, o).Ok? ==> RegisterOutcome(c, s, o).value == s.pending[o.hash := ChunkRow(o.rawSize, o.storedSize)]
  {
  }

  ghost predicate Enabled(c: Settings, s: State, step: Step) {
    match step
    case Call(w, chunk) => PcOf(s, w) == Ready
    case Run(w, _, _) => PcOf(s, w) != Ready && CanRun(s, w)
    case Register(o) => o in s.returned
    case Commit => true
    case Rollback => true
    case Kill => true
    case PowerLoss(left) => Survives(s.disk, left)
  }

  /** An empty chunk or one over the limit is refused before anything is done. */
  function AfterCall(c: Settings, s: State, w: nat, chunk: Bytes): State {
    if chunk == [] || |chunk| > c.maxChunk then s else s.(pcs := s.pcs[w := Lookup(chunk)])
  }

  function AfterRun(s: State, w: nat, e: Effect): State {
    s.(disk := e.disk, pcs := s.pcs[w := e.pc], caches := s.caches[w := e.cache],
       returned := if e.Result().Some? then s.returned + {e.Result().value} else s.returned,
       newly := if e.Result().Some? && e.Result().value.newly then s.newly + [e.Result().value.hash] else s.newly)
  }

  /** A new process on the disk `d`: everything in memory and the open transaction are gone. */
  function Restarted(s: State, d: Disk): State {
    State(d, map[], map[], {}, s.rows, s.rows, s.newly)
  }

  function Apply(c: Settings, s: State, step: Step): State {
    match step
    case Call(w, chunk) => AfterCall(c, s, w, chunk)
    case Run(w, ok, stop) => AfterRun(s, w, Act(c, s.disk, CacheOf(s, w), PcOf(s, w), ok, stop))
    case Register(o) =>
      (match RegisterOutcome(c, s, o)
       case Ok(pending) => s.(pending := pending)
       case Err(_) => s.(pending := s.rows))
    case Commit => s.(rows := s.pending)
    case Rollback => s.(pending := s.rows)
    case Kill => Restarted(s, s.disk)
    case PowerLoss(left) => Restarted(s, left)
  }

  /** A repository without chunk rows, possibly with files left in its object directories. */
  ghost predicate Initial(s: State) {
    && s.pcs == map[] && s.caches == map[] && s.returned == {} && s.rows == map[] && s.pending == map[] && s.newly == []
    && ShardsHold(s.disk)
  }

  ghost predicate Follows(c: Settings, p: State, step: Step, s: State) {
    Enabled(c, p, step) && s == Apply(c, p, step)
  }

  function Last(run: seq<Step>): Step
    requires run != []
  {
    run[|run| - 1]
  }

  ghost predicate Reaches(c: Settings, run: seq<Step>, s: State)
    decreases |run|
  {
    if run == [] then Initial(s)
    else exists p: State :: Reaches(c, run[..|run| - 1], p) && Follows(c, p, Last(run), s)
  }

  // ----- what each position knows --------------------------------------------------------------

  /** A shard directory is durable before any name appears in it. */
  ghost predicate ShardsHold(d: Disk) {
    && d.flushedShards <= d.shards && d.flushedNames <= d.names.Keys
    && (forall h :: h in d.names ==> h.shard in d.flushedShards)
  }

  predicate RightTask(c: Settings, t: Task) {
    && 0 < |t.raw| <= c.maxChunk && t.hash == c.codec.digest(t.raw)
    && t.z == c.codec.compress(t.raw) && 0 < |t.z| <= c.maxChunk + ALLOWANCE
  }

  predicate Adoptable(c: Settings, d: Disk, t: Task, size: nat) {
    RightTask(c, t) && t.hash in d.names && Readable(c, d, Stored(t.hash, |t.raw|, size, false))
  }

  predicate Knows(c: Settings, d: Disk, pc: Pc) {
    match pc
    case Ready => true
    case Lookup(chunk) => 0 < |chunk| <= c.maxChunk
    case Compress(chunk) => 0 < |chunk| <= c.maxChunk
    case Acquire(t) => RightTask(c, t)
    case Recheck(t, published) => RightTask(c, t) && !published
    case AdoptSync(t, size) => Adoptable(c, d, t, size)
    case AdoptFlush(t, size) => Adoptable(c, d, t, size) && d.names[t.hash].synced
    case MakeShard(t) => RightTask(c, t) && t.hash !in d.names
    case FlushParent(t) => RightTask(c, t) && t.hash !in d.names && t.hash.shard in d.shards
    case WriteTemporary(t) => RightTask(c, t) && t.hash !in d.names && t.hash.shard in d.flushedShards
    case SyncTemporary(t, file) =>
      RightTask(c, t) && t.hash !in d.names && t.hash.shard in d.flushedShards && file.data == t.z
    case Publish(t, file) =>
      RightTask(c, t) && t.hash !in d.names && t.hash.shard in d.flushedShards && file == File(t.z, true)
    case FlushNew(t) => RightTask(c, t) && t.hash in d.names && d.names[t.hash] == File(t.z, true)
  }

  ghost predicate CacheGood(c: Settings, d: Disk, cache: Cache) {
    |cache| <= MAX_KNOWN && forall h :: h in cache ==> cache[h].hash == h && !cache[h].newly && Solid(c, d, cache[h])
  }

  ghost predicate ResultGood(c: Settings, d: Disk, pc: Pc, r: Option<Stored>) {
    r.Some? ==> Solid(c, d, r.value) && (r.value.newly <==> pc.FlushNew?) && (pc.FlushNew? ==> r.value.hash == pc.task.hash)
  }

  /** What a worker's step guarantees to everybody else: nothing is undone, and names appear only in
      the shard whose lock the worker holds. */
  ghost predicate Guarantee(d: Disk, d': Disk, pc: Pc) {
    Grows(d, d') && forall h :: h in d'.names && h !in d.names ==> Holds(pc, h.shard)
  }

  /** A worker keeps its lock from step to step, or gives it up; `Acquire` alone takes one. */
  ghost predicate LockDiscipline(pc: Pc, pc': Pc) {
    forall shard :: Holds(pc', shard) ==> Holds(pc, shard) || (pc.Acquire? && pc.task.hash.shard == shard)
  }

  ghost predicate GoodStep(c: Settings, d: Disk, pc: Pc, e: Effect) {
    && ShardsHold(e.disk) && Guarantee(d, e.disk, pc) && LockDiscipline(pc, e.pc)
    && Knows(c, e.disk, e.pc) && CacheGood(c, e.disk, e.cache) && ResultGood(c, e.disk, pc, e.Result())
    && (e.pc.FlushNew? ==> pc.Publish? && e.pc.task == pc.task)
  }

  lemma CacheStays(c: Settings, d: Disk, d': Disk, cache: Cache)
    requires CacheGood(c, d, cache) && Grows(d, d')
    ensures CacheGood(c, d', cache)
  {
    forall h | h in cache
      ensures Solid(c, d', cache[h])
    {
      SolidStays(c, d, d', cache[h]);
    }
  }

  lemma RememberedIsGood(c: Settings, d: Disk, cache: Cache, o: Stored)
    requires CacheGood(c, d, cache) && Solid(c, d, o) && !o.newly
    ensures CacheGood(c, d, Remembered(cache, o))
  {
  }

  /** A step that leaves the disk and the cache alone. */
  lemma Quiet(c: Settings, d: Disk, cache: Cache, pc: Pc, e: Effect)
    requires ShardsHold(d) && CacheGood(c, d, cache) && e.disk == d && e.cache == cache
    requires LockDiscipline(pc, e.pc) && Knows(c, d, e.pc) && ResultGood(c, d, pc, e.Result()) && !e.pc.FlushNew?
    ensures GoodStep(c, d, pc, e)
  {
  }

  lemma WarmIsSolid(c: Settings, d: Disk, cache: Cache, h: Digest, rawSize: nat)
    requires CacheGood(c, d, cache)
    ensures var r := WarmLookup(c, d, cache, h, rawSize);
            r.Ok? && r.value.Some? ==> Solid(c, d, r.value.value) && !r.value.value.newly
  {
  }

  lemma ColdIsAdoptable(c: Settings, d: Disk, t: Task)
    requires RightTask(c, t)
    ensures var r := ColdLookup(c, d, t.hash, |t.raw|);
            r.Ok? ==> if r.value.Some? then Adoptable(c, d, t, r.value.value.storedSize) else t.hash !in d.names
  {
  }

  lemma RecheckStep(c: Settings, d: Disk, cache: Cache, t: Task)
    requires c.Valid() && ShardsHold(d) && CacheGood(c, d, cache) && RightTask(c, t)
    ensures GoodStep(c, d, Recheck(t, false), RecheckAct(c, d, cache, t, false))
  {
    WarmIsSolid(c, d, cache, t.hash, |t.raw|);
    ColdIsAdoptable(c, d, t);
    Quiet(c, d, cache, Recheck(t, false), RecheckAct(c, d, cache, t, false));
  }

  lemma PrivateStep(c: Settings, d: Disk, cache: Cache, pc: Pc, stop: bool)
    requires c.Valid() && ShardsHold(d) && CacheGood(c, d, cache) && Knows(c, d, pc)
    requires pc.Lookup? || pc.Compress? || pc.Acquire? || pc.WriteTemporary? || pc.SyncTemporary?
    ensures GoodStep(c, d, pc, Act(c, d, cache, pc, true, stop))
  {
    if pc.Lookup? {
      WarmIsSolid(c, d, cache, c.codec.digest(pc.chunk), |pc.chunk|);
    }
    Quiet(c, d, cache, pc, Act(c, d, cache, pc, true, stop));
  }

  lemma FailedStep(c: Settings, d: Disk, cache: Cache, pc: Pc)
    requires ShardsHold(d) && CacheGood(c, d, cache)
    ensures GoodStep(c, d, pc, Throw(d, cache, FilesystemError))
  {
    Quiet(c, d, cache, pc, Throw(d, cache, FilesystemError));
  }

  lemma AdoptStep(c: Settings, d: Disk, cache: Cache, t: Task, size: nat)
    requires c.Valid() && ShardsHold(d) && CacheGood(c, d, cache) && Knows(c, d, AdoptFlush(t, size))
    ensures GoodStep(c, d, AdoptFlush(t, size), AdoptAct(d, cache, t, size))
  {
    var e := AdoptAct(d, cache, t, size);
    CacheStays(c, d, e.disk, cache);
    RememberedIsGood(c, e.disk, cache, e.Result().value);
  }

  lemma FlushNewStep(c: Settings, d: Disk, cache: Cache, t: Task)
    requires c.Valid() && ShardsHold(d) && CacheGood(c, d, cache) && Knows(c, d, FlushNew(t))
    ensures GoodStep(c, d, FlushNew(t), FlushNewAct(d, cache, t))
  {
    var e := FlushNewAct(d, cache, t);
    CacheStays(c, d, e.disk, cache);
    CompressedIsReadable(c, e.disk, t.raw);
    RememberedIsGood(c, e.disk, cache, e.Result().value.(newly := false));
  }

  lemma PublishStep(c: Settings, d: Disk, cache: Cache, t: Task, file: File)
    requires c.Valid() && ShardsHold(d) && CacheGood(c, d, cache) && Knows(c, d, Publish(t, file))
    ensures GoodStep(c, d, Publish(t, file), Act(c, d, cache, Publish(t, file), true, false))
  {
    CacheStays(c, d, d.Publish(t.hash, file), cache);
  }

  lemma DirectoryStep(c: Settings, d: Disk, cache: Cache, pc: Pc)
    requires c.Valid() && ShardsHold(d) && CacheGood(c, d, cache) && Knows(c, d, pc)
    requires pc.MakeShard? || pc.FlushParent? || pc.AdoptSync?
    ensures GoodStep(c, d, pc, Act(c, d, cache, pc, true, false))
  {
    CacheStays(c, d, Act(c, d, cache, pc, true, false).disk, cache);
  }

  /** Every step of a worker is a good one. */
  lemma ActStep(c: Settings, d: Disk, cache: Cache, pc: Pc, ok: bool, stop: bool)
    requires c.Valid() && ShardsHold(d) && CacheGood(c, d, cache) && Knows(c, d, pc) && !pc.Ready?
    ensures GoodStep(c, d, pc, Act(c, d, cache, pc, ok, stop))
  {
    if !ok {
      FailedStep(c, d, cache, pc);
    } else {
      match pc
      case Recheck(t, _) => RecheckStep(c, d, cache, t);
      case AdoptFlush(t, size) => AdoptStep(c, d, cache, t, size);
      case FlushNew(t) => FlushNewStep(c, d, cache, t);
      case Publish(t, file) => PublishStep(c, d, cache, t, file);
      case MakeShard(_) => DirectoryStep(c, d, cache, pc);
      case FlushParent(_) => DirectoryStep(c, d, cache, pc);
      case AdoptSync(_, _) => DirectoryStep(c, d, cache, pc);
      case _ => PrivateStep(c, d, cache, pc, stop);
    }
  }

  /** What a worker knows survives the steps of workers that do not hold its stripe. */
  lemma KnowsStays(c: Settings, d: Disk, d': Disk, pc: Pc, other: Pc)
    requires Knows(c, d, pc) && Guarantee(d, d', other)
    requires forall shard :: !(Holds(pc, shard) && Holds(other, shard))
    ensures Knows(c, d', pc)
  {
    if !pc.Ready? && !pc.Lookup? && !pc.Compress? && !pc.Acquire? {
      assert Holds(pc, pc.task.hash.shard);
    }
  }

  // ----- the invariant over all workers, the writer and every crash ----------------------------

  ghost predicate Exclusive(s: State) {
    forall v: nat, w: nat, shard :: v in s.pcs && w in s.pcs && Holds(s.pcs[v], shard) && Holds(s.pcs[w], shard) ==> v == w
  }

  ghost predicate WorkersGood(c: Settings, s: State) {
    && (forall w :: w in s.pcs ==> Knows(c, s.disk, s.pcs[w]))
    && (forall w :: w in s.caches ==> CacheGood(c, s.disk, s.caches[w]))
  }

  ghost predicate TableGood(c: Settings, d: Disk, table: Table) {
    forall h :: h in table ==> Solid(c, d, Stored(h, table[h].rawSize, table[h].storedSize, false))
  }

  ghost predicate Extends(table: Table, base: Table) {
    forall h :: h in base ==> h in table && table[h] == base[h]
  }

  ghost predicate ReturnedGood(c: Settings, s: State) {
    forall o :: o in s.returned ==> Solid(c, s.disk, o)
  }

  /** No digest has been newly stored twice; one that has been is durable, and nobody is about to
      return it as new again. */
  ghost predicate NewlyGood(s: State) {
    && (forall i, j :: 0 <= i < j < |s.newly| ==> s.newly[i] != s.newly[j])
    && (forall h :: h in s.newly ==> Durable(s.disk, h))
    && (forall w :: w in s.pcs && s.pcs[w].FlushNew? ==> s.pcs[w].task.hash !in s.newly)
  }

  ghost predicate Invariant(c: Settings, s: State) {
    && ShardsHold(s.disk) && Exclusive(s) && WorkersGood(c, s) && ReturnedGood(c, s)
    && TableGood(c, s.disk, s.rows) && TableGood(c, s.disk, s.pending) && Extends(s.pending, s.rows)
    && NewlyGood(s)
  }

  lemma TableStays(c: Settings, d: Disk, d': Disk, table: Table)
    requires TableGood(c, d, table) && (Grows(d, d') || Survives(d, d'))
    ensures TableGood(c, d', table)
  {
    forall h | h in table
      ensures Solid(c, d', Stored(h, table[h].rawSize, table[h].storedSize, false))
    {
      SolidStays(c, d, d', Stored(h, table[h].rawSize, table[h].storedSize, false));
    }
  }

  lemma ExclusiveStays(s: State, w: nat, e: Effect)
    requires Exclusive(s) && CanRun(s, w) && LockDiscipline(PcOf(s, w), e.pc)
    ensures Exclusive(AfterRun(s, w, e))
  {
    forall v, shard | v in s.pcs && v != w && Holds(s.pcs[v], shard)
      ensures !Holds(e.pc, shard)
    {
      assert PcOf(s, v) == s.pcs[v];
      assert !Holds(PcOf(s, w), shard);
    }
  }

  lemma WorkersStay(c: Settings, s: State, w: nat, e: Effect)
    requires Exclusive(s) && WorkersGood(c, s) && GoodStep(c, s.disk, PcOf(s, w), e)
    ensures WorkersGood(c, AfterRun(s, w, e))
  {
    var s' := AfterRun(s, w, e);
    forall v | v in s'.pcs
      ensures Knows(c, s'.disk, s'.pcs[v])
    {
      if v != w {
        KnowsStays(c, s.disk, e.disk, s.pcs[v], PcOf(s, w));
      }
    }
    forall v | v in s'.caches
      ensures CacheGood(c, s'.disk, s'.caches[v])
    {
      if v != w {
        CacheStays(c, s.disk, e.disk, s.caches[v]);
      }
    }
  }

  lemma ReturnedStay(c: Settings, s: State, w: nat, e: Effect)
    requires ReturnedGood(c, s) && GoodStep(c, s.disk, PcOf(s, w), e)
    ensures ReturnedGood(c, AfterRun(s, w, e))
  {
    forall o | o in AfterRun(s, w, e).returned
      ensures Solid(c, e.disk, o)
    {
      if o in s.returned {
        SolidStays(c, s.disk, e.disk, o);
      }
    }
  }

  /** Two workers never publish the same digest at once. */
  lemma PublishersDiffer(s: State, v: nat, w: nat)
    requires Exclusive(s) && v in s.pcs && w in s.pcs && v != w && s.pcs[v].FlushNew? && s.pcs[w].FlushNew?
    ensures s.pcs[v].task.hash != s.pcs[w].task.hash
  {
    assert Holds(s.pcs[v], s.pcs[v].task.hash.shard) && Holds(s.pcs[w], s.pcs[w].task.hash.shard);
  }

  lemma NewlyStays(c: Settings, s: State, w: nat, e: Effect)
    requires NewlyGood(s) && Exclusive(s) && Knows(c, s.disk, PcOf(s, w)) && GoodStep(c, s.disk, PcOf(s, w), e)
    ensures NewlyGood(AfterRun(s, w, e))
  {
    var s' := AfterRun(s, w, e);
    if e.pc.FlushNew? {
      assert PcOf(s, w).task.hash !in s.newly;
    }
    forall v | v in s.pcs && v != w && s.pcs[v].FlushNew?
      ensures s.pcs[v].task.hash !in s'.newly
    {
      if e.Result().Some? && e.Result().value.newly {
        PublishersDiffer(s, v, w);
      }
    }
  }

  lemma RunKeepsInvariant(c: Settings, s: State, w: nat, ok: bool, stop: bool)
    requires c.Valid() && Invariant(c, s) && Enabled(c, s, Run(w, ok, stop))
    ensures Invariant(c, Apply(c, s, Run(w, ok, stop)))
  {
    var e := Act(c, s.disk, CacheOf(s, w), PcOf(s, w), ok, stop);
    ActStep(c, s.disk, CacheOf(s, w), PcOf(s, w), ok, stop);
    ExclusiveStays(s, w, e);
    WorkersStay(c, s, w, e);
    ReturnedStay(c, s, w, e);
    NewlyStays(c, s, w, e);
    TableStays(c, s.disk, e.disk, s.rows);
    TableStays(c, s.disk, e.disk, s.pending);
  }

  lemma CallKeepsInvariant(c: Settings, s: State, w: nat, chunk: Bytes)
    requires Invariant(c, s) && Enabled(c, s, Call(w, chunk))
    ensures Invariant(c, Apply(c, s, Call(w, chunk)))
  {
  }

  /** Registering never fails for want of consistency: an object some worker has returned can always be
      used, and agrees with the row that another snapshot may have registered for it. */
  lemma RegisteringSucceeds(c: Settings, s: State, o: Stored)
    requires Invariant(c, s) && o in s.returned
    ensures RegisterOutcome(c, s, o) == Ok(s.pending[o.hash := ChunkRow(o.rawSize, o.storedSize)])
    ensures o.hash in s.pending ==> s.pending[o.hash] == ChunkRow(o.rawSize, o.storedSize)
  {
    if o.hash in s.pending {
      var row := s.pending[o.hash];
      assert Readable(c, s.disk, Stored(o.hash, row.rawSize, row.storedSize, false));
      assert Readable(c, s.disk, o);
      assert s.pending == s.pending[o.hash := row];
    }
  }

  lemma RegisterKeepsInvariant(c: Settings, s: State, o: Stored)
    requires Invariant(c, s) && o in s.returned
    ensures Invariant(c, Apply(c, s, Register(o)))
  {
    RegisteringSucceeds(c, s, o);
    assert Solid(c, s.disk, Stored(o.hash, o.rawSize, o.storedSize, false));
  }

  lemma RestartKeepsInvariant(c: Settings, s: State, d: Disk)
    requires Invariant(c, s) && (d == s.disk || Survives(s.disk, d))
    ensures Invariant(c, Restarted(s, d))
  {
    if d != s.disk {
      TableStays(c, s.disk, d, s.rows);
    }
  }

  lemma StepKeepsInvariant(c: Settings, s: State, step: Step)
    requires c.Valid() && Invariant(c, s) && Enabled(c, s, step)
    ensures Invariant(c, Apply(c, s, step))
  {
    match step
    case Call(w, chunk) => CallKeepsInvariant(c, s, w, chunk);
    case Run(w, ok, stop) => RunKeepsInvariant(c, s, w, ok, stop);
    case Register(o) => RegisterKeepsInvariant(c, s, o);
    case Commit =>
    case Rollback =>
    case Kill => RestartKeepsInvariant(c, s, s.disk);
    case PowerLoss(left) => RestartKeepsInvariant(c, s, left);
  }

  lemma {:induction false} ReachedStatesAreGood(c: Settings, run: seq<Step>, s: State)
    requires c.Valid() && Reaches(c, run, s)
    ensures Invariant(c, s)
    decreases |run|
  {
    if run != [] {
      var p :| Reaches(c, run[..|run| - 1], p) && Follows(c, p, Last(run), s);
      ReachedStatesAreGood(c, run[..|run| - 1], p);
      StepKeepsInvariant(c, p, Last(run));
    }
  }

  // ----- what it is for ------------------------------------------------------------------------

  /** Durability before reference: in every state of every run, over any interleaving of workers and
      writer, any failures, kills, power losses and restarts, every committed chunk row names an object
      whose bytes, name and directory are durable; and it reads back, now and on whatever the next
      power loss leaves, as the same content with that digest. */
  lemma DurabilityBeforeReference(c: Settings, run: seq<Step>, s: State, h: Digest)
    requires c.Valid() && Reaches(c, run, s) && h in s.rows
    ensures Durable(s.disk, h)
    ensures var r := ReadVerified(c, s.disk, h, s.rows[h].rawSize, s.rows[h].storedSize);
            && r.Ok? && c.codec.digest(r.value) == h
            && forall left :: Survives(s.disk, left) ==>
                 Durable(left, h) && ReadVerified(c, left, h, s.rows[h].rawSize, s.rows[h].storedSize) == r
  {
    ReachedStatesAreGood(c, run, s);
    var o := Stored(h, s.rows[h].rawSize, s.rows[h].storedSize, false);
    forall left | Survives(s.disk, left)
      ensures Durable(left, h)
      ensures ReadVerified(c, left, h, o.rawSize, o.storedSize) == ReadVerified(c, s.disk, h, o.rawSize, o.storedSize)
    {
      SolidStays(c, s.disk, left, o);
    }
  }

  /** A committed chunk row is never changed or removed by storing, registering or crashing. */
  lemma RowsAreStable(c: Settings, run: seq<Step>, s: State, step: Step, h: Digest)
    requires c.Valid() && Reaches(c, run, s) && Enabled(c, s, step) && h in s.rows
    ensures var s' := Apply(c, s, step); h in s'.rows && s'.rows[h] == s.rows[h]
  {
    ReachedStatesAreGood(c, run, s);
    if step.Register? {
      RegisteringSucceeds(c, s, step.stored);
    }
  }

  /** From `p`, the steps lead to `s`. */
  ghost predicate Goes(c: Settings, p: State, steps: seq<Step>, s: State)
    decreases |steps|
  {
    if steps == [] then s == p else Enabled(c, p, steps[0]) && Goes(c, Apply(c, p, steps[0]), steps[1..], s)
  }

  /** The step does not give the open transaction up. */
  predicate KeepsTransaction(step: Step) {
    !step.Rollback? && !step.Kill? && !step.PowerLoss?
  }

  predicate HasRow(table: Table, o: Stored) {
    o.hash in table && table[o.hash] == ChunkRow(o.rawSize, o.storedSize)
  }

  lemma PendingStays(c: Settings, s: State, step: Step, o: Stored)
    requires c.Valid() && Invariant(c, s) && Enabled(c, s, step) && HasRow(s.pending, o) && KeepsTransaction(step)
    ensures HasRow(Apply(c, s, step).pending, o)
  {
    if step.Register? {
      RegisteringSucceeds(c, s, step.stored);
    }
  }

  lemma {:induction false} CommittedStays(c: Settings, p: State, steps: seq<Step>, s: State, o: Stored)
    requires c.Valid() && Invariant(c, p) && Goes(c, p, steps, s) && HasRow(p.rows, o)
    ensures HasRow(s.rows, o)
    decreases |steps|
  {
    if steps != [] {
      StepKeepsInvariant(c, p, steps[0]);
      if steps[0].Register? {
        RegisteringSucceeds(c, p, steps[0].stored);
      }
      CommittedStays(c, Apply(c, p, steps[0]), steps[1..], s, o);
    }
  }

  lemma {:induction false} PendingIsCommitted(c: Settings, p: State, between: seq<Step>, after: seq<Step>, s: State, o: Stored)
    requires c.Valid() && Invariant(c, p) && HasRow(p.pending, o) && (forall i :: 0 <= i < |between| ==> KeepsTransaction(between[i]))
    requires Goes(c, p, between + [Commit] + after, s)
    ensures HasRow(s.rows, o)
    decreases |between|
  {
    var steps := between + [Commit] + after;
    StepKeepsInvariant(c, p, steps[0]);
    if between == [] {
      assert steps[0] == Commit && steps[1..] == after;
      CommittedStays(c, Apply(c, p, Commit), after, s, o);
    } else {
      assert steps[0] == between[0] && steps[1..] == between[1..] + [Commit] + after;
      PendingStays(c, p, between[0], o);
      PendingIsCommitted(c, Apply(c, p, between[0]), between[1..], after, s, o);
    }
  }

  /** What is registered and committed stays: once a returned object has been registered and the transaction
      committed, its row is in the table for ever, through whatever follows, crashes included. */
  lemma RegisteredAndCommittedStays(c: Settings, run: seq<Step>, p: State, o: Stored, between: seq<Step>, after: seq<Step>, s: State)
    requires c.Valid() && Reaches(c, run, p) && o in p.returned
    requires (forall i :: 0 <= i < |between| ==> KeepsTransaction(between[i]))
    requires Goes(c, Apply(c, p, Register(o)), between + [Commit] + after, s)
    ensures o.hash in s.rows && s.rows[o.hash] == ChunkRow(o.rawSize, o.storedSize)
  {
    ReachedStatesAreGood(c, run, p);
    RegisteringSucceeds(c, p, o);
    StepKeepsInvariant(c, p, Register(o));
    PendingIsCommitted(c, Apply(c, p, Register(o)), between, after, s, o);
  }

  /** Dedup accounting: however many workers store the same content, concurrently or in later
      processes, at most one call per digest ever returns `newly_stored`. */
  lemma NewlyStoredOnce(c: Settings, run: seq<Step>, s: State)
    requires c.Valid() && Reaches(c, run, s)
    ensures forall i, j :: 0 <= i < j < |s.newly| ==> s.newly[i] != s.newly[j]
    ensures forall h :: h in s.newly ==> Durable(s.disk, h)
  {
    ReachedStatesAreGood(c, run, s);
  }

  /** Under the stripe locks two workers are never inside the same stripe, and a worker that reaches
      the rename always finds the name free. */
  lemma PublicationNeverCollides(c: Settings, run: seq<Step>, s: State, w: nat)
    requires c.Valid() && Reaches(c, run, s) && w in s.pcs && s.pcs[w].Publish?
    ensures s.pcs[w].task.hash !in s.disk.names
    ensures forall v :: v in s.pcs && v != w ==> !Holds(s.pcs[v], s.pcs[w].task.hash.shard)
  {
    ReachedStatesAreGood(c, run, s);
    assert Knows(c, s.disk, s.pcs[w]);
    assert Holds(s.pcs[w], s.pcs[w].task.hash.shard);
  }

  /** Cache transparency: no cache ever exceeds its bound, and a lookup answered from a worker's cache
      gives, for every digest in it and every size asked for, what reading, decoding and hashing the
      file would give. */
  lemma CacheIsTransparent(c: Settings, run: seq<Step>, s: State, w: nat, h: Digest, rawSize: nat)
    requires c.Valid() && Reaches(c, run, s) && w in s.caches
    ensures (|s.caches[w]| <= MAX_KNOWN)
    ensures h in s.caches[w] ==> WarmLookup(c, s.disk, s.caches[w], h, rawSize) == ColdLookup(c, s.disk, h, rawSize)
  {
    ReachedStatesAreGood(c, run, s);
    assert CacheGood(c, s.disk, s.caches[w]);
    if h in s.caches[w] {
      WarmEqualsCold(c, s.disk, s.caches[w], h, rawSize);
    }
  }

  function ChunkOf(pc: Pc): Bytes
    requires !pc.Ready?
  {
    if pc.Lookup? || pc.Compress? then pc.chunk else pc.task.raw
  }

  lemma ResultIsForTheChunk(c: Settings, d: Disk, cache: Cache, pc: Pc, ok: bool, stop: bool)
    requires !pc.Ready? && Knows(c, d, pc) && (forall h :: h in cache ==> cache[h].hash == h)
    ensures var e := Act(c, d, cache, pc, ok, stop);
            && (!e.pc.Ready? ==> ChunkOf(e.pc) == ChunkOf(pc))
            && (e.Result().Some? ==> e.Result().value.hash == c.codec.digest(ChunkOf(pc)) && e.Result().value.rawSize == |ChunkOf(pc)|)
  {
  }

  /** Provided digests do not collide, what a worker gets back for a chunk is an object that decodes to
      exactly that chunk, whether it was stored, adopted or found in the cache. */
  lemma StoreHoldsTheChunk(c: Settings, run: seq<Step>, s: State, w: nat, ok: bool, stop: bool)
    requires c.Valid() && c.codec.CollisionFree() && Reaches(c, run, s) && Enabled(c, s, Run(w, ok, stop))
    ensures var e := Act(c, s.disk, CacheOf(s, w), PcOf(s, w), ok, stop);
            && (!e.pc.Ready? ==> ChunkOf(e.pc) == ChunkOf(PcOf(s, w)))
            && (e.Result().Some? ==>
                  var o := e.Result().value;
                  Durable(e.disk, o.hash) && ReadVerified(c, e.disk, o.hash, o.rawSize, o.storedSize) == Ok(ChunkOf(PcOf(s, w))))
  {
    ReachedStatesAreGood(c, run, s);
    ActStep(c, s.disk, CacheOf(s, w), PcOf(s, w), ok, stop);
    ResultIsForTheChunk(c, s.disk, CacheOf(s, w), PcOf(s, w), ok, stop);
    var e := Act(c, s.disk, CacheOf(s, w), PcOf(s, w), ok, stop);
    if e.Result().Some? {
      SolidHoldsTheChunk(c, e.disk, e.Result().value, ChunkOf(PcOf(s, w)));
    }
  }

  /** What reads back under a chunk's digest is the chunk. */
  lemma SolidHoldsTheChunk(c: Settings, d: Disk, o: Stored, chunk: Bytes)
    requires c.codec.CollisionFree() && Solid(c, d, o) && o.hash == c.codec.digest(chunk)
    ensures Durable(d, o.hash) && ReadVerified(c, d, o.hash, o.rawSize, o.storedSize) == Ok(chunk)
  {
    var r := ReadVerified(c, d, o.hash, o.rawSize, o.storedSize);
    assert !c.codec.Collide(r.value, chunk);
  }
}
