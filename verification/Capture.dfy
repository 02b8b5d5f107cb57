/** Reading a source file: the chunking loop, what it hands to the object store, and the loop that
    accepts a file only if it held still while it was read. */
module Capturing {
  import opened Common
  import opened Objects
  import opened ObjectStores

  /** A chunk of a file as the snapshot records it. */
  datatype Ref = Ref(sequence: nat, offset: nat, stored: Stored)

  datatype CaptureError = Refused | SourceUnavailable | SourceChanged | Stopped | StoreFailed(error: ObjectError)

  /** What identifies a version of a file. */
  datatype FileMetadata = FileMetadata(logicalSize: nat, modified: int, changed: int, volume: nat, id: nat, mode: nat) {
    predicate SameStableIdentity(other: FileMetadata) {
      && logicalSize == other.logicalSize && modified == other.modified && changed == other.changed
      && volume == other.volume && id == other.id
    }
  }

  /** `refs` describes `content`: consecutive chunks, none empty or over the limit, each recorded under its
      own digest, offset and position, and each solid in the store. */
  ghost predicate Describes(c: Settings, d: Disk, content: Bytes, refs: seq<Ref>)
    decreases |refs|
  {
    if refs == [] then content == []
    else
      var last := refs[|refs| - 1];
      && Tail(c, content, last, |refs| - 1) && Solid(c, d, last.stored)
      && Describes(c, d, content[..last.offset], refs[..|refs| - 1])
  }

  /** `ref` is the record of the end of `content`, from its offset on. */
  ghost predicate Tail(c: Settings, content: Bytes, ref: Ref, sequence: nat) {
    && ref.sequence == sequence && 0 < ref.stored.rawSize <= c.maxChunk
    && ref.offset + ref.stored.rawSize == |content|
    && ref.stored.hash == c.codec.digest(content[ref.offset..])
  }

  predicate AllFull(refs: seq<Ref>, limit: nat) {
    forall i :: 0 <= i < |refs| ==> refs[i].stored.rawSize == limit
  }

  lemma OneMoreFull(c: Settings, refs: seq<Ref>, more: seq<Ref>)
    requires AllFull(refs, c.maxChunk) && |more| == |refs| + 1 && more[..|refs|] == refs
    ensures AllFullButLast(c, more)
    ensures more[|refs|].stored.rawSize == c.maxChunk ==> AllFull(more, c.maxChunk)
  {
    assert forall i :: 0 <= i < |refs| ==> more[i] == more[..|refs|][i];
  }

  /** Only the last chunk may be shorter than the limit. */
  predicate AllFullButLast(c: Settings, refs: seq<Ref>) {
    forall i :: 0 <= i < |refs| - 1 ==> refs[i].stored.rawSize == c.maxChunk
  }

  lemma {:induction false} DescriptionStays(c: Settings, d: Disk, d': Disk, content: Bytes, refs: seq<Ref>)
    requires Describes(c, d, content, refs) && (Grows(d, d') || Survives(d, d'))
    ensures Describes(c, d', content, refs)
    decreases |refs|
  {
    if refs != [] {
      var last := refs[|refs| - 1];
      SolidStays(c, d, d', last.stored);
      DescriptionStays(c, d, d', content[..last.offset], refs[..|refs| - 1]);
    }
  }

  /** Disks one after the other, each coming of the one before by steps of the store or by a power loss. */
  ghost predicate Linked(ds: seq<Disk>) {
    ds != [] && forall i :: 0 < i < |ds| ==> Grows(ds[i - 1], ds[i]) || Survives(ds[i - 1], ds[i])
  }

  /** However many of them there are, a description stays true. */
  lemma {:induction false} DescriptionLasts(c: Settings, ds: seq<Disk>, content: Bytes, refs: seq<Ref>)
    requires Linked(ds) && Describes(c, ds[0], content, refs)
    ensures Describes(c, ds[|ds| - 1], content, refs)
    decreases |ds|
  {
    if |ds| > 1 {
      var front := ds[..|ds| - 1];
      DescriptionLasts(c, front, content, refs);
      DescriptionStays(c, front[|front| - 1], ds[|ds| - 1], content, refs);
    }
  }

  lemma SplitAppended<T>(s: seq<T>, more: seq<T>)
    ensures (s + more)[..|s|] == s && (s + more)[|s|..] == more
  {
  }

  lemma PrefixGrows<T>(s: seq<T>, from: nat, to: nat)
    requires from <= to <= |s|
    ensures s[..from] + s[from..to] == s[..to] && s[..|s|] == s
  {
  }

  /** A chunk more. */
  lemma Describe(c: Settings, d: Disk, content: Bytes, refs: seq<Ref>, chunk: Bytes, stored: Stored)
    requires Describes(c, d, content, refs) && 0 < |chunk| <= c.maxChunk
    requires Solid(c, d, stored) && stored.hash == c.codec.digest(chunk) && stored.rawSize == |chunk|
    ensures Describes(c, d, content + chunk, refs + [Ref(|refs|, |content|, stored)])
  {
    var ref := Ref(|refs|, |content|, stored);
    SplitAppended(content, chunk);
    SplitAppended(refs, [ref]);
    DescribedByLast(c, d, content + chunk, refs + [ref]);
  }

  lemma DescribedByLast(c: Settings, d: Disk, content: Bytes, refs: seq<Ref>)
    requires refs != []
    requires var last := refs[|refs| - 1];
             Tail(c, content, last, |refs| - 1) && Solid(c, d, last.stored) && Describes(c, d, content[..last.offset], refs[..|refs| - 1])
    ensures Describes(c, d, content, refs)
  {
  }

  /** A chunk more, stored meanwhile. */
  lemma DescribeMore(c: Settings, d: Disk, d': Disk, content: Bytes, refs: seq<Ref>, chunk: Bytes, stored: Stored)
    requires Describes(c, d, content, refs) && Grows(d, d') && 0 < |chunk| <= c.maxChunk
    requires Solid(c, d', stored) && stored.hash == c.codec.digest(chunk) && stored.rawSize == |chunk|
    ensures Describes(c, d', content + chunk, refs + [Ref(|refs|, |content|, stored)])
  {
    DescriptionStays(c, d, d', content, refs);
    Describe(c, d', content, refs, chunk, stored);
  }

  /** A stream. `failAt` is the position, if any, at which reading it fails. */
  class Input {
    const content: Bytes
    const failAt: Option<nat>
    var position: nat

    constructor (content: Bytes, failAt: Option<nat>)
      ensures this.content == content && this.failAt == failAt && position == 0
    {
      this.content, this.failAt, position := content, failAt, 0;
    }

    /** Reads until `limit` bytes or the end; the end is noticed only by reading beyond it. */
    method Read(limit: nat) returns (bytes: Bytes, eof: bool, bad: bool)
      requires position <= |content|
      modifies this`position
      ensures old(position) <= position <= |content|
      ensures !bad ==> bytes == content[old(position)..position] && (eof <==> old(position) + limit > |content|)
      ensures !bad ==> position == if eof then |content| else old(position) + limit
      ensures bad <==> failAt.Some? && failAt.value < old(position) + limit && failAt.value < |content|
    {
      if failAt.Some? && failAt.value < position + limit && failAt.value < |content| {
        return [], false, true;
      }
      eof := position + limit > |content|;
      var end := if eof then |content| else position + limit;
      bytes, bad := content[position..end], false;
      position := end;
    }
  }

  /** One attempt at reading a file: what has been hashed, stored and recorded so far. */
  class Attempt {
    const objects: ObjectStore
    var hashed: Bytes
    var bytesRead: nat
    var refs: seq<Ref>
    var patience: Budget

    constructor (objects: ObjectStore, patience: Budget)
      ensures this.objects == objects && hashed == [] && bytesRead == 0 && refs == [] && this.patience == patience
    {
      this.objects, hashed, bytesRead, refs, this.patience := objects, [], 0, [], patience;
    }

    ghost predicate Valid()
      reads this, objects, objects.files
    {
      && objects.Valid() && bytesRead == |hashed|
      && Describes(objects.c, objects.files.disk, hashed, refs)
    }

    /** Whether a stop has been requested by now. */
    method StopSeen() returns (stop: bool)
      modifies this`patience
      ensures old(patience) == None ==> !stop && patience == None
    {
      stop, patience := Spent(patience), OneLess(patience);
    }

    /** The callback: hash, store, count, record. */
    method OnChunk(offset: nat, chunk: Bytes) returns (r: Result<nat, CaptureError>)
      requires Valid() && offset == |hashed| && 0 < |chunk| <= objects.c.maxChunk
      modifies this`hashed, this`bytesRead, this`refs, this`patience, objects`known, objects`failures, objects.files
      ensures objects.Valid() && Grows(old(objects.files.disk), objects.files.disk)
      ensures r.Ok? ==> Valid() && hashed == old(hashed) + chunk && |refs| == |old(refs)| + 1 && refs[..|old(refs)|] == old(refs)
                        && refs[|old(refs)|].stored.rawSize == |chunk| && bytesRead <= MAX_UINT64 && |refs| <= MAX_INT64 + 1
      ensures r.Err? ==> r.error.Stopped? || r.error.StoreFailed? || r.error.Refused?
      ensures r == Err(Stopped) ==> old(patience).Some?
      ensures r == Err(Refused) ==> |old(hashed)| + |chunk| > MAX_UINT64 || |old(refs)| > MAX_INT64
      ensures old(objects.failures) <= objects.failures && (r.Err? && r.error.StoreFailed? ==> objects.failures > old(objects.failures))
      ensures old(patience) == None ==> patience == None
    {
      ghost var before := objects.files.disk;
      var stop := StopSeen();
      if stop {
        return Err(Stopped);
      }
      stop := StopSeen();
      var stored := objects.Store(chunk, stop);
      if stored.Err? {
        return Err(StoreFailed(stored.error));
      }
      if stored.value.rawSize > MAX_UINT64 - bytesRead || |refs| > MAX_INT64 {
        return Err(Refused);
      }
      DescribeMore(objects.c, before, objects.files.disk, hashed, refs, chunk, stored.value);
      hashed, bytesRead := hashed + chunk, bytesRead + stored.value.rawSize;
      refs := refs + [Ref(|refs|, offset, stored.value)];
      return Ok(|chunk|);
    }

    /** One chunk of the stream: what has been hashed is then the content so far. */
    method OnNext(content: Bytes, offset: nat, chunk: Bytes, ghost start: Disk) returns (r: Result<nat, CaptureError>)
      requires offset + |chunk| <= |content| && Valid() && hashed == content[..offset] && chunk == content[offset..offset + |chunk|]
      requires 0 < |chunk| <= objects.c.maxChunk && AllFull(refs, objects.c.maxChunk) && |refs| <= offset && Grows(start, objects.files.disk)
      modifies this`hashed, this`bytesRead, this`refs, this`patience, objects`known, objects`failures, objects.files
      ensures objects.Valid() && Grows(start, objects.files.disk)
      ensures r.Ok? ==> Valid() && hashed == content[..offset + |chunk|] && |refs| == |old(refs)| + 1
      ensures r.Ok? ==> AllFullButLast(objects.c, refs) && (|chunk| == objects.c.maxChunk ==> AllFull(refs, objects.c.maxChunk))
      ensures r.Err? ==> r.error.Stopped? || r.error.StoreFailed? || r.error.Refused?
      ensures r == Err(Stopped) ==> old(patience).Some?
      ensures r == Err(Refused) ==> |content| > MAX_INT64
      ensures old(objects.failures) <= objects.failures && (r.Err? && r.error.StoreFailed? ==> objects.failures > old(objects.failures))
      ensures old(patience) == None ==> patience == None
    {
      ghost var before, sofar := refs, objects.files.disk;
      PrefixGrows(content, offset, offset + |chunk|);
      r := OnChunk(offset, chunk);
      GrowsThrough(start, sofar, objects.files.disk);
      if r.Ok? {
        OneMoreFull(objects.c, before, refs);
      }
    }

    /** The chunking loop: reads up to the chunk limit until the end of the stream. */
    method ForEachChunk(input: Input) returns (r: Result<nat, CaptureError>)
      requires Valid() && hashed == [] && refs == [] && input.position == 0
      modifies this`hashed, this`bytesRead, this`refs, this`patience, objects`known, objects`failures, objects.files, input`position
      ensures objects.Valid() && Grows(old(objects.files.disk), objects.files.disk)
      ensures r.Ok? ==> Valid() && hashed == input.content && AllFullButLast(objects.c, refs) && r.value == |refs|
      ensures r.Ok? ==> !Unreadable(input.content, input.failAt)
      ensures r == Err(SourceUnavailable) ==> Unreadable(input.content, input.failAt)
      ensures r.Err? ==> !r.error.SourceChanged?
      ensures r == Err(Stopped) ==> old(patience).Some?
      ensures r == Err(Refused) ==> |input.content| > MAX_INT64
      ensures old(objects.failures) <= objects.failures && (r.Err? && r.error.StoreFailed? ==> objects.failures > old(objects.failures))
    {
      var limit, offset, eof := objects.c.maxChunk, 0, false;
      while !eof
        invariant Valid() && Grows(old(objects.files.disk), objects.files.disk)
        invariant offset == |hashed| == input.position <= |input.content| && hashed == input.content[..offset]
        invariant offset <= MAX_UINT64 && |refs| <= offset && (old(patience) == None ==> patience == None)
        invariant old(objects.failures) <= objects.failures
        invariant !eof ==> AllFull(refs, limit)
        invariant eof ==> hashed == input.content && !Unreadable(input.content, input.failAt) && AllFullButLast(objects.c, refs)
        invariant input.failAt.Some? && input.failAt.value < |input.content| ==> offset <= input.failAt.value
        decreases !eof, |input.content| - offset
      {
        var stop := StopSeen();
        if stop {
          return Err(Stopped);
        }
        var chunk, bad;
        chunk, eof, bad := input.Read(limit);
        if bad {
          return Err(SourceUnavailable);
        }
        if chunk == [] {
          break;
        }
        if offset > MAX_UINT64 - |chunk| {
          return Err(SourceUnavailable);
        }
        var called := OnNext(input.content, offset, chunk, old(objects.files.disk));
        if called.Err? {
          return Err(called.error);
        }
        offset := offset + |chunk|;
      }
      return Ok(|refs|);
    }
  }

  predicate Unreadable(content: Bytes, failAt: Option<nat>) {
    (failAt.Some? && failAt.value < |content|) || |content| > MAX_UINT64
  }

  /** What one attempt at a file meets: the metadata read before, what the stream yields, the metadata
      read after. Metadata is absent where reading it failed. */
  datatype Observation = Observation(before: Option<FileMetadata>, content: Bytes, failAt: Option<nat>, after: Option<FileMetadata>) {
    /** The file could be read, has the length it was said to have, and did not change meanwhile. */
    predicate Stable() {
      && before.Some? && after.Some? && !Unreadable(content, failAt)
      && |content| == before.value.logicalSize && before.value.SameStableIdentity(after.value)
    }
  }

  /** A file has held still exactly if it could be read and described, before and after, has the length it
      was said to have, and nothing about it has changed but, at most, its permissions. */
  lemma StableMeaning(o: Observation)
    ensures o.Stable() <==>
              && o.before.Some? && o.after.Some? && !Unreadable(o.content, o.failAt) && |o.content| == o.before.value.logicalSize
              && o.after.value.(mode := 0) == o.before.value.(mode := 0)
  {
  }

  datatype Outcome =
    | Captured(meta: FileMetadata, refs: seq<Ref>, fileHash: Digest, attempt: nat)
    | Warned(code: CaptureError)
    | Threw(error: CaptureError)

  /** The warning that takes the place of a file that was not stable. */
  function WarningOf(o: Observation): Outcome {
    Warned(if o.before == None || Unreadable(o.content, o.failAt) || o.after == None then SourceUnavailable else SourceChanged)
  }

  /** What ends the whole snapshot: a stop that was requested, a call of the store that failed, or a file
      beyond the supported range. */
  predicate Fatal(error: CaptureError, patience: Budget, failed: bool, inRange: bool) {
    (error == Stopped && patience.Some?) || (error.StoreFailed? && failed) || (error == Refused && !inRange)
  }

  predicate InRange(o: Observation) {
    |o.content| <= MAX_INT64
  }

  /** One attempt: the file as captured, or why not. */
  method TryFile(objects: ObjectStore, o: Observation, attempt: nat, patience: Budget) returns (r: Outcome)
    requires objects.Valid()
    modifies objects`known, objects`failures, objects.files
    ensures objects.Valid() && Grows(old(objects.files.disk), objects.files.disk) && old(objects.failures) <= objects.failures
    ensures r.Captured? ==> o.Stable() && IsCapture(objects.c, objects.files.disk, o, r) && r.attempt == attempt
    ensures r.Warned? ==> !o.Stable() && r == WarningOf(o)
    ensures r.Threw? ==> Fatal(r.error, patience, objects.failures > old(objects.failures), InRange(o))
  {
    var a := new Attempt(objects, patience);
    var stop := a.StopSeen();
    if stop {
      return Threw(Stopped);
    }
    if o.before == None {
      return Warned(SourceUnavailable);
    }
    var input := new Input(o.content, o.failAt);
    var read := a.ForEachChunk(input);
    if read == Err(SourceUnavailable) {
      return Warned(SourceUnavailable);
    }
    if read.Err? {
      return Threw(read.error);
    }
    if o.after == None {
      return Warned(SourceUnavailable);
    }
    if a.bytesRead != o.before.value.logicalSize || !o.before.value.SameStableIdentity(o.after.value) {
      return Warned(SourceChanged);
    }
    return Captured(o.before.value, a.refs, objects.c.codec.digest(a.hashed), attempt);
  }

  /** The capture is of the content the attempt read, all of it. */
  ghost predicate IsCapture(c: Settings, d: Disk, o: Observation, r: Outcome)
    requires r.Captured?
  {
    && Some(r.meta) == o.before && |o.content| == r.meta.logicalSize
    && Describes(c, d, o.content, r.refs) && AllFullButLast(c, r.refs)
    && r.fileHash == c.codec.digest(o.content)
  }

  /** None of the first `n` observations is of a stable file. */
  predicate NoneStable(observations: seq<Observation>, n: nat)
    requires n <= |observations|
  {
    n == 0 || (!observations[n - 1].Stable() && NoneStable(observations, n - 1))
  }

  predicate AllInRange(observations: seq<Observation>, n: nat)
    requires n <= |observations|
  {
    forall i :: 0 <= i < n ==> InRange(observations[i])
  }

  function Attempts(retry: bool): nat {
    if retry then 2 else 1
  }

  /** The attempts at one file, two if unstable files are retried. The first stable one is captured; a
      warning takes the file's place only if no attempt was stable, and says why the last was not; and only a
      stop, a failing call of the store or a file beyond the supported range is fatal. So where nothing of
      that kind happens, a file is captured exactly if one of the attempts meets it stable. */
  method CaptureFile(objects: ObjectStore, observations: seq<Observation>, retry: bool, patience: Budget) returns (r: Outcome)
    requires objects.Valid() && |observations| >= Attempts(retry)
    modifies objects`known, objects`failures, objects.files
    ensures objects.Valid() && Grows(old(objects.files.disk), objects.files.disk)
    ensures r.Captured? ==>
              && r.attempt < (if retry then 2 else 1) && observations[r.attempt].Stable()
              && IsCapture(objects.c, objects.files.disk, observations[r.attempt], r)
              && NoneStable(observations, r.attempt)
    ensures r.Warned? ==> var n := if retry then 2 else 1; NoneStable(observations, n) && r == WarningOf(observations[n - 1])
    ensures r.Threw? ==> Fatal(r.error, patience, objects.failures > old(objects.failures), AllInRange(observations, Attempts(retry)))
  {
    var attemptCount := Attempts(retry);
    ghost var start := objects.files.disk;
    var attempt: nat := 0;
    r := Warned(SourceUnavailable);
    while attempt < attemptCount
      invariant attempt <= attemptCount && objects.Valid()
      invariant Grows(start, objects.files.disk) && old(objects.failures) <= objects.failures
      invariant r.Warned? && NoneStable(observations, attempt)
      invariant attempt > 0 ==> r == WarningOf(observations[attempt - 1])
      decreases attemptCount - attempt
    {
      ghost var sofar := objects.files.disk;
      r := TryFile(objects, observations[attempt], attempt, patience);
      GrowsThrough(start, sofar, objects.files.disk);
      if !r.Warned? {
        break;
      }
      attempt := attempt + 1;
    }
  }
}
