/** Content-addressed objects: digests, the codec, the part of the filesystem that holds the objects,
    and the lookups that decide whether an object can be used. */
module Objects {
  import opened Common

  const MAX_CHUNK: nat := 4 * 1024 * 1024
  const ALLOWANCE: nat := 64 * 1024
  const MAX_KNOWN: nat := 64

  /** A digest; its first byte names the directory (`objects/<shard>/`) and the lock stripe. */
  datatype Digest = Digest(shard: Byte, rest: Bytes)

  /** The two foreign libraries: the hash, and compression with its size bound. */
  datatype Codec = Codec(digest: Bytes -> Digest, compress: Bytes -> Bytes, decode: Bytes -> Option<Bytes>, bound: nat -> nat) {
    /** What is assumed of them: decoding inverts compression, within the announced bound. */
    ghost predicate Lawful() {
      && (forall raw: Bytes :: decode(compress(raw)) == Some(raw))
      && (forall raw: Bytes :: 0 < |compress(raw)| <= bound(|raw|))
      && (forall m: nat, n: nat :: m <= n ==> bound(m) <= bound(n))
      && (forall n: nat :: n <= MAX_CHUNK ==> bound(n) <= n + ALLOWANCE)
    }

    /** Different contents with the same digest. */
    predicate Collide(a: Bytes, b: Bytes) {
      digest(a) == digest(b) && a != b
    }

    ghost predicate CollisionFree() {
      forall a: Bytes, b: Bytes :: !Collide(a, b)
    }
  }

  datatype ObjectError = InvalidArgument | Corrupt | Missing | CompressionError | FilesystemError | Cancelled

  /** What `store` returns and what the known-object cache remembers. */
  datatype Stored = Stored(hash: Digest, rawSize: nat, storedSize: nat, newly: bool)

  /** A row of the chunk table. The object's path is a function of its digest. */
  datatype ChunkRow = ChunkRow(rawSize: nat, storedSize: nat)

  type Cache = map<Digest, Stored>

  /** The bytes of a file, and whether these bytes have been synced. */
  datatype File = File(data: Bytes, synced: bool)

  /** The object directories. A name or a directory is durable once its parent has been flushed. */
  datatype Disk = Disk(shards: set<Byte>, flushedShards: set<Byte>, names: map<Digest, File>, flushedNames: set<Digest>) {
    function Size(h: Digest): Option<nat> {
      if h in names then Some(|names[h].data|) else None
    }

    function MakeShard(shard: Byte): Disk {
      this.(shards := shards + {shard})
    }

    /** Flushes `objects/`. */
    function FlushParent(): Disk {
      this.(flushedShards := flushedShards + shards)
    }

    /** Flushes the shard directory. */
    function FlushShard(shard: Byte): Disk {
      this.(flushedNames := flushedNames + set h | h in names && h.shard == shard)
    }

    function Sync(h: Digest): Disk {
      if h in names then this.(names := names[h := names[h].(synced := true)]) else this
    }

    /** The rename that never replaces. */
    function Publish(h: Digest, file: File): Disk {
      if h in names then this else this.(names := names[h := file])
    }
  }

  datatype Settings = Settings(codec: Codec, maxChunk: nat) {
    ghost predicate Valid() {
      codec.Lawful() && 1 <= maxChunk <= MAX_CHUNK
    }
  }

  /** Decompression into a buffer of the expected size. */
  function Decompress(c: Settings, z: Bytes, expected: nat): Option<Bytes> {
    if expected > c.maxChunk || |z| > c.codec.bound(c.maxChunk) then None
    else
      var raw := c.codec.decode(z);
      if raw.Some? && |raw.value| == expected then raw else None
  }

  function ReadVerified(c: Settings, d: Disk, h: Digest, rawSize: nat, storedSize: nat): (r: Result<Bytes, ObjectError>)
    ensures r.Ok? ==> c.codec.digest(r.value) == h && |r.value| == rawSize && 0 < rawSize <= c.maxChunk
  {
    if rawSize == 0 || rawSize > c.maxChunk then Err(Corrupt)
    else if storedSize == 0 || storedSize > c.maxChunk + ALLOWANCE then Err(Corrupt)
    else
      match d.Size(h)
      case None => Err(Missing)
      case Some(size) =>
        if size != storedSize then Err(Corrupt)
        else
          match Decompress(c, d.names[h].data, rawSize)
          case None => Err(Corrupt)
          case Some(raw) => if c.codec.digest(raw) != h then Err(Corrupt) else Ok(raw)
  }

  /** The cheap check: sizes against the record, and existence and size of the file. */
  function RequireReusable(c: Settings, d: Disk, known: Stored, h: Digest, rawSize: nat): Result<Stored, ObjectError> {
    if known.hash != h || known.rawSize != rawSize then Err(Corrupt)
    else if known.storedSize == 0 || known.storedSize > c.maxChunk + ALLOWANCE then Err(Corrupt)
    else
      match d.Size(h)
      case None => Err(Missing)
      case Some(size) => if size != known.storedSize then Err(Corrupt) else Ok(known.(newly := false))
  }

  /** A lookup that finds the record in the cache. */
  function WarmLookup(c: Settings, d: Disk, cache: Cache, h: Digest, rawSize: nat): Result<Option<Stored>, ObjectError> {
    if h !in cache then Ok(None)
    else
      match RequireReusable(c, d, cache[h], h, rawSize)
      case Ok(known) => Ok(Some(known))
      case Err(e) => Err(e)
  }

  /** A lookup that reads, decodes and hashes the file. */
  function ColdLookup(c: Settings, d: Disk, h: Digest, rawSize: nat): Result<Option<Stored>, ObjectError> {
    match d.Size(h)
    case None => Ok(None)
    case Some(size) =>
      match ReadVerified(c, d, h, rawSize, size)
      case Ok(_) => Ok(Some(Stored(h, rawSize, size, false)))
      case Err(e) => Err(e)
  }

  function Remembered(cache: Cache, o: Stored): (r: Cache)
    ensures o.hash in r && r[o.hash] == o
    ensures |cache| <= MAX_KNOWN ==> |r| <= MAX_KNOWN
  {
    if |cache| >= MAX_KNOWN && o.hash !in cache then map[o.hash := o] else cache[o.hash := o]
  }

  // ----- what makes a stored object trustworthy ------------------------------------------------

  /** The bytes, the file name and the shard directory have all been flushed. */
  predicate Durable(d: Disk, h: Digest) {
    h in d.names && d.names[h].synced && h in d.flushedNames && h.shard in d.flushedShards
  }

  /** Reading the object back yields content with its digest. */
  predicate Readable(c: Settings, d: Disk, o: Stored) {
    ReadVerified(c, d, o.hash, o.rawSize, o.storedSize).Ok?
  }

  predicate Solid(c: Settings, d: Disk, o: Stored) {
    Durable(d, o.hash) && Readable(c, d, o)
  }

  /** What no step of a running process undoes. */
  ghost predicate Grows(d: Disk, d': Disk) {
    && d.shards <= d'.shards && d.flushedShards <= d'.flushedShards && d.flushedNames <= d'.flushedNames
    && (forall h :: h in d.names ==> h in d'.names && d'.names[h].data == d.names[h].data && (d.names[h].synced ==> d'.names[h].synced))
  }

  /** What a power loss may leave: durable directories and names, with their bytes where these had
      been synced; of everything else any part, with any bytes. What is left is on the disk. */
  ghost predicate Survives(d: Disk, d': Disk) {
    && d.flushedShards <= d'.shards <= d.shards && d'.flushedShards == d'.shards
    && (forall h :: h in d.flushedNames && h in d.names && h.shard in d.flushedShards ==> h in d'.names)
    && (forall h :: h in d'.names ==>
          && h in d.names && h.shard in d'.shards
          && (d.names[h].synced ==> d'.names[h].data == d.names[h].data)
          && d'.names[h].synced && h in d'.flushedNames)
    && d'.flushedNames <= d'.names.Keys
  }

  lemma SolidStays(c: Settings, d: Disk, d': Disk, o: Stored)
    requires Solid(c, d, o) && (Grows(d, d') || Survives(d, d'))
    ensures Solid(c, d', o)
    ensures ReadVerified(c, d', o.hash, o.rawSize, o.storedSize) == ReadVerified(c, d, o.hash, o.rawSize, o.storedSize)
  {
  }

  /** Exactly what is read back: what the file decodes to, if the file and what it decodes to have the sizes
      recorded, those are within the limits, and the digest is the one asked for. */
  lemma ReadVerifiedIff(c: Settings, d: Disk, h: Digest, rawSize: nat, storedSize: nat, content: Bytes)
    ensures ReadVerified(c, d, h, rawSize, storedSize) == Ok(content) <==>
              && h in d.names && |d.names[h].data| == storedSize && c.codec.decode(d.names[h].data) == Some(content)
              && |content| == rawSize && c.codec.digest(content) == h && 0 < rawSize <= c.maxChunk
              && 0 < storedSize <= c.maxChunk + ALLOWANCE && storedSize <= c.codec.bound(c.maxChunk)
  {
  }

  /** A record from the cache is used exactly if it has the size asked for and its file has the size
      recorded; a file that has disappeared or changed its size is reported. */
  lemma WarmLookupIff(c: Settings, d: Disk, cache: Cache, h: Digest, rawSize: nat)
    requires h in cache && cache[h].hash == h
    ensures var known := cache[h];
            && (WarmLookup(c, d, cache, h, rawSize) == Ok(Some(known.(newly := false))) <==>
                  && known.rawSize == rawSize && 0 < known.storedSize <= c.maxChunk + ALLOWANCE
                  && h in d.names && |d.names[h].data| == known.storedSize)
            && (WarmLookup(c, d, cache, h, rawSize).Ok? ==> WarmLookup(c, d, cache, h, rawSize).value == Some(known.(newly := false)))
  {
  }

  /** Cache transparency: for a record that agrees with the file, the cheap lookup returns what the
      verified one would, for every requested size. */
  lemma WarmEqualsCold(c: Settings, d: Disk, cache: Cache, h: Digest, rawSize: nat)
    requires h in cache && cache[h].hash == h && !cache[h].newly && Readable(c, d, cache[h])
    ensures WarmLookup(c, d, cache, h, rawSize) == ColdLookup(c, d, h, rawSize)
  {
  }

  /** What compression makes of a chunk is what a reader accepts. */
  lemma CompressedIsReadable(c: Settings, d: Disk, raw: Bytes)
    requires c.Valid() && 0 < |raw| <= c.maxChunk
    requires var h := c.codec.digest(raw); h in d.names && d.names[h].data == c.codec.compress(raw)
    ensures var z := c.codec.compress(raw);
            && 0 < |z| <= c.maxChunk + ALLOWANCE
            && ReadVerified(c, d, c.codec.digest(raw), |raw|, |z|) == Ok(raw)
  {
    var z := c.codec.compress(raw);
    assert |z| <= c.codec.bound(|raw|) <= c.codec.bound(c.maxChunk) <= c.maxChunk + ALLOWANCE;
    assert c.codec.decode(z) == Some(raw);
  }
}
