/** A whole restore: validation, selection, planning and execution. */
module RestoreEngine {
  import opened Common
  import opened Metadata
  import opened Requests
  import opened Selection
  import opened RestorePlan
  import opened RestoreRun
  import opened RestoreSuccess
  import C = Capturing
  import O = Objects
  import R = Reassembly

  lemma {:induction false} EachOnce(entries: seq<Entry>, e: Entry)
    requires PathsDistinct(entries)
    ensures multiset(entries)[e] <= 1
  {
    if entries != [] {
      assert entries == [entries[0]] + entries[1..];
      EachOnce(entries[1..], e);
      if e == entries[0] {
        assert e !in entries[1..];
      }
    }
  }

  lemma SortedStaysDistinct(entries: seq<Entry>)
    requires PathsDistinct(entries)
    ensures PathsDistinct(ByDepth(entries))
  {
    var sorted := ByDepth(entries);
    forall i, j | 0 <= i < j < |sorted|
      ensures sorted[i].path != sorted[j].path
    {
      EachOnce(entries, sorted[i]);
      PathsOnce(sorted, i, j);
      SortedHas(entries, sorted[i]);
      SortedHas(entries, sorted[j]);
    }
  }

  function RowsOf(rows: map<Path, seq<R.Listed>>, p: Path): seq<R.Listed> {
    if p in rows then rows[p] else []
  }

  /** A file has its hash, and rows that cover it. */
  ghost predicate FileFine(e: Entry, rows: map<Path, seq<R.Listed>>, chunkSize: nat) {
    e.kind == Regular ==> e.hash.Some? && R.Covers(RowsOf(rows, e.path), e.size, chunkSize)
  }

  method CheckFiles(selected: seq<Entry>, rows: map<Path, seq<R.Listed>>, chunkSize: nat) returns (ok: bool)
    requires forall i :: 0 <= i < |selected| ==> selected[i].size <= MAX_UINT64
    ensures ok <==> forall i :: 0 <= i < |selected| ==> FileFine(selected[i], rows, chunkSize)
  {
    for i := 0 to |selected|
      invariant forall k :: 0 <= k < i && selected[k].kind == Regular ==> selected[k].hash.Some?
    {
      if selected[i].kind == Regular && selected[i].hash == None {
        assert !FileFine(selected[i], rows, chunkSize);
        return false;
      }
    }
    for i := 0 to |selected|
      invariant forall k :: 0 <= k < i ==> FileFine(selected[k], rows, chunkSize)
    {
      if selected[i].kind == Regular {
        var covers := R.ValidateChunks(selected[i].size, RowsOf(rows, selected[i].path), chunkSize);
        if !covers {
          return false;
        }
      }
    }
    return true;
  }

  /** What the checks before a restore insist on: a valid listing, a request that can be answered, and
      hashes and rows for the files asked for. */
  ghost predicate CanChoose(entries: seq<Entry>, rows: map<Path, seq<R.Listed>>, requested: seq<Path>, chunkSize: nat) {
    && ValidEntries(entries) && CanAnswer(entries, requested)
    && forall i :: 0 <= i < |entries| && AsksFor(entries, requested, entries[i].path) ==> FileFine(entries[i], rows, chunkSize)
  }

  lemma ChosenAreFine(entries: seq<Entry>, rows: map<Path, seq<R.Listed>>, requested: seq<Path>, chunkSize: nat, selected: seq<Entry>)
    requires Chosen(entries, requested, selected)
    ensures (forall i :: 0 <= i < |selected| ==> FileFine(selected[i], rows, chunkSize)) <==>
            (forall i :: 0 <= i < |entries| && AsksFor(entries, requested, entries[i].path) ==> FileFine(entries[i], rows, chunkSize))
  {
    forall i | 0 <= i < |entries| && AsksFor(entries, requested, entries[i].path)
      ensures exists k :: 0 <= k < |selected| && selected[k] == entries[i]
    {
      assert entries[i] in selected;
    }
    forall k | 0 <= k < |selected|
      ensures exists i :: 0 <= i < |entries| && entries[i] == selected[k] && AsksFor(entries, requested, entries[i].path)
    {
      assert selected[k] in selected;
    }
  }

  /** Validation and selection: it succeeds exactly if those checks do, with exactly what was asked for. */
  method Choose(entries: seq<Entry>, rows: map<Path, seq<R.Listed>>, requested: seq<Path>, chunkSize: nat) returns (r: Result<seq<Entry>, RestoreError>)
    requires PathsDistinct(entries) && forall i :: 0 <= i < |entries| ==> entries[i].size <= MAX_UINT64
    ensures r.Ok? <==> CanChoose(entries, rows, requested, chunkSize)
    ensures r.Ok? ==> Chosen(entries, requested, r.value) && ValidEntries(r.value)
    ensures r.Ok? && requested == [] ==> r.value == entries
    ensures r.Ok? && requested != [] ==> AncestorsAreFolders(r.value) && ParentsListed(r.value)
  {
    var valid := ValidateEntries(entries);
    if valid.Err? {
      return Err(valid.error);
    }
    ghost var index;
    var chosen;
    chosen, index := SelectEntries(entries, requested);
    if requested != [] {
      AnswerableMeaning(index, entries, requested);
    }
    if chosen.Err? {
      return Err(chosen.error);
    }
    var selected := chosen.value;
    if requested != [] {
      SelectionIsChosen(index, entries, requested, selected);
      ChosenIsGood(entries, requested, selected);
    }
    ChosenAreFine(entries, rows, requested, chunkSize, selected);
    forall i | 0 <= i < |selected|
      ensures selected[i].size <= MAX_UINT64
    {
      assert selected[i] in selected;
    }
    var checked := CheckFiles(selected, rows, chunkSize);
    return if checked then Ok(selected) else Err(CorruptObject);
  }

  function Lists(entries: seq<Entry>, rows: map<Path, seq<R.Listed>>): (lists: map<Path, seq<R.Listed>>)
    ensures forall i :: 0 <= i < |entries| ==> entries[i].path in lists && lists[entries[i].path] == RowsOf(rows, entries[i].path)
  {
    map i | 0 <= i < |entries| :: entries[i].path := RowsOf(rows, entries[i].path)
  }

  // ----- what is needed, and what comes of it --------------------------------------------------

  /** An entry that is left out: below a skipped directory, or where something is left alone. */
  predicate LeftOut(policy: Policy, d: Destination, entries: seq<Entry>, requested: seq<Path>, e: Entry) {
    e.path != [] && (HiddenBy(policy, d, entries, requested, e) || (InTheWay(d, e) && Wants(policy, e, SkipIt)))
  }

  /** Whatever is asked for and not left out can be made. */
  ghost predicate AskedMakeable(w: World, policy: Policy, d: Destination, entries: seq<Entry>, requested: seq<Path>) {
    forall i :: 0 <= i < |entries| && AsksFor(entries, requested, entries[i].path) && !LeftOut(policy, d, entries, requested, entries[i]) ==>
      Makeable(w.c, w.objects, w.rows, entries[i])
  }

  lemma MakeableMeaning(w: World, policy: Policy, d: Destination, entries: seq<Entry>, requested: seq<Path>, plan: seq<Planned>)
    requires PlansRequest(policy, d, entries, requested, plan)
    ensures AllMakeable(w, plan) <==> AskedMakeable(w, policy, d, entries, requested)
  {
    forall i | 0 <= i < |plan|
      ensures plan[i].action == Skip <==> LeftOut(policy, d, entries, requested, plan[i].entry)
      ensures exists k :: 0 <= k < |entries| && entries[k] == plan[i].entry && AsksFor(entries, requested, entries[k].path)
    {
      assert PlansEntry(policy, d, entries, requested, plan[i]);
    }
    forall k | 0 <= k < |entries| && AsksFor(entries, requested, entries[k].path)
      ensures exists i :: 0 <= i < |plan| && plan[i].entry == entries[k]
    {
      assert entries[k] in entries;
      assert IsPlanned(plan, entries[k]);
    }
  }

  /** The listing has every parent, and directories above everything, as that of a complete snapshot has. */
  predicate IsGood(entries: seq<Entry>) {
    AncestorsAreFolders(entries) && ParentsListed(entries)
  }

  lemma PlanIsDistinct(policy: Policy, d: Destination, entries: seq<Entry>, requested: seq<Path>, plan: seq<Planned>)
    requires PlansRequest(policy, d, entries, requested, plan)
    ensures DistinctPlan(plan) && DepthOrderedPlan(plan)
  {
  }

  lemma PlanIsListed(policy: Policy, d: Destination, entries: seq<Entry>, rows: map<Path, seq<R.Listed>>, requested: seq<Path>, plan: seq<Planned>)
    requires PlansRequest(policy, d, entries, requested, plan)
    ensures forall i :: 0 <= i < |plan| ==> plan[i].entry.path in Lists(entries, rows)
  {
    forall i | 0 <= i < |plan|
      ensures plan[i].entry.path in Lists(entries, rows)
    {
      assert PlansEntry(policy, d, entries, requested, plan[i]);
      var k :| 0 <= k < |entries| && entries[k] == plan[i].entry;
    }
  }

  lemma FinishesIfMakeable(w: World, policy: Policy, d: Destination, entries: seq<Entry>, requested: seq<Path>, selected: seq<Entry>)
    requires Chosen(entries, requested, selected) && ValidEntries(selected) && IsGood(selected) && IsDir(d, [])
    requires PlanFrom(policy, d, ByDepth(selected), []).Ok?
    ensures CanFinish(w, d, PlanFrom(policy, d, ByDepth(selected), []).value) <==> AskedMakeable(w, policy, d, entries, requested)
  {
    var plan := PlanFrom(policy, d, ByDepth(selected), []).value;
    SortedStaysDistinct(selected);
    PlanOfRequest(policy, d, entries, requested, selected);
    PlansFit(policy, d, selected);
    FinishesIff(w, d, plan);
    MakeableMeaning(w, policy, d, entries, requested, plan);
  }

  /** Planning and execution, once the selection has been made and the root is there. */
  method RestoreSelected(w: World, entries: seq<Entry>, rows: map<Path, seq<R.Listed>>, requested: seq<Path>, selected: seq<Entry>,
                         policy: Policy, dest: Destination, fuse: Budget)
    returns (r: Result<Run, RestoreError>, after: Destination, plan: seq<Planned>)
    requires Chosen(entries, requested, selected) && w.rows == Lists(entries, rows)
    ensures Fair(w.c, dest, after, w.rivals, plan)
    ensures r.Ok? ==> r.value.dest == after && PlansRequest(policy, dest, entries, requested, plan) && Finished(w, dest, plan, r.value.Now())
    ensures r.Ok? && AncestorsAreFolders(selected) ==> SkipClosed(plan)
    ensures fuse == None && IsDir(dest, []) && ValidEntries(selected) && IsGood(selected) ==>
              (r.Ok? <==> CanPlan(policy, dest, entries, requested) && AskedMakeable(w, policy, dest, entries, requested))
  {
    after, plan := dest, [];
    StandsStill(w.c, after, w.rivals, plan);
    SortedStaysDistinct(selected);
    PlanningIff(policy, dest, entries, requested, selected);
    var built := BuildPlan(policy, dest, selected);
    if built.Err? {
      return Err(built.error), after, plan;
    }
    plan := built.value;
    PlanOfRequest(policy, dest, entries, requested, selected);
    PlanIsDistinct(policy, dest, entries, requested, plan);
    PlanIsListed(policy, dest, entries, rows, requested, plan);
    if AncestorsAreFolders(selected) {
      PlanIsSkipClosed(policy, dest, selected);
    }
    if IsDir(dest, []) && ValidEntries(selected) && IsGood(selected) {
      FinishesIfMakeable(w, policy, dest, entries, requested, selected);
    }
    var run := new Run(w.c, w.objects, w.rows, w.rivals, w.metadataFails, w.canLink, dest, fuse);
    var ok := run.Execute(plan);
    after := run.dest;
    r := if ok then Ok(run) else Err(Io);
  }

  // ----- into an empty destination -------------------------------------------------------------

  /** Nothing fails or interferes, and the destination is empty. */
  predicate Undisturbed(w: World, dest: Destination, fuse: Budget) {
    fuse == None && w.rivals == map[] && w.canLink && dest == EMPTY
  }

  /** Everything asked for can be made. */
  ghost predicate AllAskedMakeable(w: World, entries: seq<Entry>, requested: seq<Path>) {
    forall i :: 0 <= i < |entries| && AsksFor(entries, requested, entries[i].path) ==> Makeable(w.c, w.objects, w.rows, entries[i])
  }

  predicate IsAsked(entries: seq<Entry>, requested: seq<Path>, q: Path) {
    exists i :: 0 <= i < |entries| && entries[i].path == q && AsksFor(entries, requested, q)
  }

  /** At the destination is what the entries asked for say, and nothing else. */
  ghost predicate Rebuilt(w: World, entries: seq<Entry>, requested: seq<Path>, after: Destination) {
    && (forall i :: 0 <= i < |entries| && AsksFor(entries, requested, entries[i].path) ==> IsRebuilt(w, entries[i], after))
    && (forall q {:trigger IsAsked(entries, requested, q)} :: q in after ==> IsAsked(entries, requested, q))
  }

  predicate IsRebuilt(w: World, e: Entry, after: Destination) {
    e.path in after && Makeable(w.c, w.objects, w.rows, e) && after[e.path] == Made(w.c, w.objects, w.rows, e)
  }

  lemma EmptyIsFine(w: World, policy: Policy, entries: seq<Entry>, requested: seq<Path>)
    requires AllAskedMakeable(w, entries, requested)
    ensures CanPlan(policy, EMPTY, entries, requested) && AskedMakeable(w, policy, EMPTY, entries, requested)
  {
  }

  lemma FreshAction(policy: Policy, entries: seq<Entry>, requested: seq<Path>, p: Planned)
    requires PlansEntry(policy, EMPTY, entries, requested, p)
    ensures p.action == if p.entry.path == [] then Merge else Create
  {
  }

  lemma FinishedEntry(w: World, policy: Policy, entries: seq<Entry>, requested: seq<Path>, plan: seq<Planned>, s: Progress, i: nat)
    requires PlansRequest(policy, EMPTY, entries, requested, plan) && Finished(w, EMPTY, plan, s) && w.rivals == map[] && w.canLink
    requires ValidEntries(entries) && i < |plan|
    ensures IsRebuilt(w, plan[i].entry, s.dest)
  {
    assert PlansEntry(policy, EMPTY, entries, requested, plan[i]);
    FreshAction(policy, entries, requested, plan[i]);
    assert Settles(w, EMPTY, s.dest, plan[i]);
    if plan[i].entry.path == [] {
      var k :| 0 <= k < |entries| && entries[k] == plan[i].entry;
    }
  }

  /** A restore into an empty destination that has ended normally has rebuilt what was asked for. */
  lemma FinishedIsRebuilt(w: World, policy: Policy, entries: seq<Entry>, requested: seq<Path>, plan: seq<Planned>, s: Progress)
    requires PlansRequest(policy, EMPTY, entries, requested, plan) && Finished(w, EMPTY, plan, s) && w.rivals == map[] && w.canLink
    requires ValidEntries(entries)
    ensures Rebuilt(w, entries, requested, s.dest)
  {
    forall i | 0 <= i < |entries| && AsksFor(entries, requested, entries[i].path)
      ensures IsRebuilt(w, entries[i], s.dest)
    {
      assert entries[i] in entries && IsPlanned(plan, entries[i]);
      var k :| 0 <= k < |plan| && plan[k].entry == entries[i];
      FinishedEntry(w, policy, entries, requested, plan, s, k);
    }
    RootIsPlanned(policy, entries, requested, plan);
    forall q | q in s.dest
      ensures IsAsked(entries, requested, q)
    {
      assert !OfPlan(plan, q) ==> SameAt(EMPTY, s.dest, q);
      var k :| 0 <= k < |plan| && plan[k].entry.path == q;
      assert PlansEntry(policy, EMPTY, entries, requested, plan[k]);
      var i :| 0 <= i < |entries| && entries[i] == plan[k].entry;
    }
  }

  lemma RootIsPlanned(policy: Policy, entries: seq<Entry>, requested: seq<Path>, plan: seq<Planned>)
    requires PlansRequest(policy, EMPTY, entries, requested, plan) && ValidEntries(entries)
    ensures OfPlan(plan, [])
  {
    var i :| 0 <= i < |entries| && entries[i].path == [];
    assert entries[i] in entries && IsPlanned(plan, entries[i]);
  }

  /** `restore`. The destination root is created if it is not there; nothing else is touched before the
      whole request has been validated and planned. When it ends normally, the plan was for exactly what was
      asked, and the destination, the counters and the reports are exactly those of the plan. Where no
      operation fails it ends normally if and only if the request can be answered and planned, and what is
      not left out can be made; into an empty destination it then rebuilds exactly what was asked for. */
  method Restore(w: World, entries: seq<Entry>, rows: map<Path, seq<R.Listed>>, requested: seq<Path>, policy: Policy, dest: Destination, fuse: Budget)
    returns (r: Result<Run, RestoreError>, after: Destination, plan: seq<Planned>)
    requires PathsDistinct(entries) && w.rows == Lists(entries, rows) && forall i :: 0 <= i < |entries| ==> entries[i].size <= MAX_UINT64
    ensures Fair(w.c, WithRoot(dest), after, w.rivals, plan) || after == dest
    ensures IsTree(WithRoot(dest)) ==> IsTree(after) || after == dest
    ensures r.Ok? ==> r.value.dest == after && PlansRequest(policy, WithRoot(dest), entries, requested, plan)
    ensures r.Ok? ==> Finished(w, WithRoot(dest), plan, r.value.Now())
    ensures r.Ok? ==> r.value.files + r.value.directories + r.value.links + |r.value.skipped| == |plan| + r.value.warnings
    ensures r.Ok? && requested != [] ==> SkipClosed(plan)
    ensures fuse == None && IsDir(WithRoot(dest), []) && (requested == [] ==> IsGood(entries)) ==>
              (r.Ok? <==> CanChoose(entries, rows, requested, w.c.maxChunk) && CanPlan(policy, WithRoot(dest), entries, requested)
                          && AskedMakeable(w, policy, WithRoot(dest), entries, requested))
    ensures Undisturbed(w, WithRoot(dest), fuse) && (requested == [] ==> IsGood(entries))
            && CanChoose(entries, rows, requested, w.c.maxChunk) && AllAskedMakeable(w, entries, requested) ==>
              r.Ok? && Rebuilt(w, entries, requested, after)
  {
    var chosen := Choose(entries, rows, requested, w.c.maxChunk);
    if chosen.Err? {
      return Err(chosen.error), dest, [];
    }
    r, after, plan := RestoreSelected(w, entries, rows, requested, chosen.value, policy, WithRoot(dest), fuse);
    if IsTree(WithRoot(dest)) {
      FairKeepsTrees(w.c, WithRoot(dest), after, w.rivals, plan);
    }
    if r.Ok? {
      EveryEntryIsAccountedFor(w, WithRoot(dest), plan, r.value.Now());
    }
    if Undisturbed(w, WithRoot(dest), fuse) && AllAskedMakeable(w, entries, requested) {
      EmptyIsFine(w, policy, entries, requested);
      if r.Ok? {
        FinishedIsRebuilt(w, policy, entries, requested, plan, r.value.Now());
      }
    }
  }

  function WithRoot(dest: Destination): Destination {
    if [] in dest then dest else dest[[] := DirItem]
  }

  /** From source to destination: provided digests do not collide, a file that a restore has put in place
      holds exactly the bytes that were read when it was captured. And its rows pass the checks before a
      restore and lead there, through however many later steps of the store and power losses. */
  lemma RestoredIsCaptured(c: O.Settings, ds: seq<O.Disk>, content: Bytes, refs: seq<C.Ref>, e: Entry, rows: map<Path, seq<R.Listed>>, item: Item)
    requires c.Valid() && c.codec.CollisionFree() && C.Linked(ds) && C.Describes(c, ds[0], content, refs) && |content| <= MAX_INT64
    requires e.kind == Regular && e.size == |content| && e.hash == Some(c.codec.digest(content))
    requires e.path in rows && rows[e.path] == R.ListedAll(refs)
    ensures Faithful(c, e, item) <==> item == FileItem(content)
    ensures R.Covers(rows[e.path], e.size, c.maxChunk)
    ensures Makeable(c, ds[|ds| - 1], rows, e) && Made(c, ds[|ds| - 1], rows, e) == FileItem(content)
  {
    R.RecordedListsValidate(c, ds[0], content, refs);
    C.DescriptionLasts(c, ds, content, refs);
    R.DescribedReassembles(c, ds[|ds| - 1], content, refs);
    assert item.FileItem? ==> !c.codec.Collide(item.bytes, content);
  }
}
