/** When a planned restore can be carried out: into any real destination, whatever is there already,
    exactly if what is not skipped can be made. */
module RestoreSuccess {
  import opened Common
  import opened Metadata
  import opened Selection
  import opened RestorePlan
  import opened RestoreRun

  /** The ancestor at depth `n` of entry `i` is planned before it, as a directory that is not skipped. */
  predicate HasFolderAt(plan: seq<Planned>, i: nat, n: nat)
    requires i < |plan| && n < |plan[i].entry.path|
  {
    exists k :: 0 <= k < i && plan[k].entry.path == plan[i].entry.path[..n] && plan[k].entry.kind == Folder && plan[k].action != Skip
  }

  /** What an action presupposes at the destination. */
  predicate ActionFits(d: Destination, p: Planned) {
    match p.action
    case Create => p.entry.path != [] && p.entry.path !in d
    case Merge => p.entry.kind == Folder && IsDir(d, p.entry.path)
    case Replace => p.entry.path != [] && p.entry.kind != Folder && !IsDir(d, p.entry.path)
    case Skip => true
  }

  ghost predicate Fits(d: Destination, plan: seq<Planned>) {
    && DistinctPlan(plan) && IsDir(d, [])
    && (forall i :: 0 <= i < |plan| ==> ActionFits(d, plan[i]) && plan[i].metadataAllowed == (plan[i].action != Skip))
    && (forall i, n {:trigger HasFolderAt(plan, i, n)} :: 0 <= i < |plan| && plan[i].action != Skip && 0 <= n < |plan[i].entry.path| ==> HasFolderAt(plan, i, n))
  }

  ghost predicate AllMakeable(w: World, plan: seq<Planned>) {
    forall i :: 0 <= i < |plan| && plan[i].action != Skip ==> Makeable(w.c, w.objects, w.rows, plan[i].entry)
  }

  /** The directories planned before entry `i` have been dealt with. */
  predicate FoldersBefore(plan: seq<Planned>, i: nat, done: set<nat>) {
    forall k :: 0 <= k < i && k < |plan| && plan[k].entry.kind == Folder ==> k in done
  }

  lemma FolderIsThere(w: World, d: Destination, plan: seq<Planned>, dest: Destination, done: set<nat>, k: nat)
    requires Fits(d, plan) && Overlaid(w, d, plan, dest, done) && k < |plan| && k in done
    requires plan[k].entry.kind == Folder && plan[k].action != Skip
    ensures IsDir(dest, plan[k].entry.path)
  {
    assert Settles(w, d, dest, plan[k]) && ActionFits(d, plan[k]);
  }

  lemma AncestorIsThere(w: World, d: Destination, plan: seq<Planned>, dest: Destination, done: set<nat>, i: nat, n: nat)
    requires Fits(d, plan) && Overlaid(w, d, plan, dest, done) && i < |plan| && FoldersBefore(plan, i, done)
    requires plan[i].action != Skip && n < |plan[i].entry.path|
    ensures IsDir(dest, plan[i].entry.path[..n])
  {
    assert HasFolderAt(plan, i, n);
    var k :| 0 <= k < i && plan[k].entry.path == plan[i].entry.path[..n] && plan[k].entry.kind == Folder && plan[k].action != Skip;
    FolderIsThere(w, d, plan, dest, done, k);
  }

  lemma WayIsSafe(w: World, d: Destination, plan: seq<Planned>, dest: Destination, done: set<nat>, i: nat)
    requires Fits(d, plan) && Overlaid(w, d, plan, dest, done) && i < |plan| && FoldersBefore(plan, i, done)
    requires plan[i].action != Skip && plan[i].entry.path != []
    ensures SafeAncestors(dest, plan[i].entry.path).Ok? && IsDir(dest, plan[i].entry.path[..|plan[i].entry.path| - 1])
  {
    var path := plan[i].entry.path;
    forall n | 0 <= n < |path|
      ensures IsDir(dest, path[..n])
    {
      AncestorIsThere(w, d, plan, dest, done, i, n);
    }
    assert path[..0] == [];
    forall q | q in dest && Above(q, path)
      ensures dest[q] == DirItem
    {
      assert q == path[..|q|];
    }
    AncestorsAreSafe(dest, path, 1);
  }

  /** The next entry succeeds. */
  lemma NextSucceeds(w: World, d: Destination, plan: seq<Planned>, s: Progress, done: set<nat>, i: nat)
    requires Fits(d, plan) && AllMakeable(w, plan) && Overlaid(w, d, plan, s.dest, done)
    requires i < |plan| && i !in done && FoldersBefore(plan, i, done)
    ensures TakesTo(w, s, plan[i]).Some?
  {
    var p := plan[i];
    assert ActionFits(d, p) && SameAt(d, s.dest, p.entry.path);
    if p.action != Skip && p.entry.path != [] {
      WayIsSafe(w, d, plan, s.dest, done, i);
    }
  }

  /** So does the pass over one kind; directories first. */
  lemma {:induction false} PassSucceeds(w: World, d: Destination, plan: seq<Planned>, s: Progress, done: set<nat>, i: nat, kind: EntryKind)
    requires Fits(d, plan) && AllMakeable(w, plan) && Overlaid(w, d, plan, s.dest, done) && i <= |plan|
    requires forall k :: k in done && k < |plan| ==> plan[k].entry.kind != kind
    requires kind != Folder ==> FoldersBefore(plan, |plan|, done)
    ensures Pass(w, s, plan[..i], kind).Some?
  {
    if i > 0 {
      PassSucceeds(w, d, plan, s, done, i - 1, kind);
      PassOneMore(w, s, plan, i - 1, kind);
      PassOverlays(w, d, plan, s, done, i - 1, kind);
      if plan[i - 1].entry.kind == kind {
        NextSucceeds(w, d, plan, Pass(w, s, plan[..i - 1], kind).value, done + UpTo(plan, i - 1, kind), i - 1);
      }
    }
  }

  lemma DirectoriesAreThere(w: World, d: Destination, plan: seq<Planned>, dest: Destination, done: set<nat>)
    requires Fits(d, plan) && Overlaid(w, d, plan, dest, done) && FoldersBefore(plan, |plan|, done)
    ensures DirectoriesThere(dest, plan)
  {
    forall i | 0 <= i < |plan|
      ensures DirectoryThere(dest, plan[i])
    {
      if plan[i].entry.kind == Folder && plan[i].metadataAllowed {
        FolderIsThere(w, d, plan, dest, done, i);
        if plan[i].entry.path != [] {
          WayIsSafe(w, d, plan, dest, done, i);
        } else {
          RootIsThere(w, d, plan, dest, done);
        }
      }
    }
  }

  lemma RootIsThere(w: World, d: Destination, plan: seq<Planned>, dest: Destination, done: set<nat>)
    requires Fits(d, plan) && Overlaid(w, d, plan, dest, done)
    ensures SafeAncestors(dest, []).Ok?
  {
    if OfPlan(plan, []) {
      var i :| 0 <= i < |plan| && plan[i].entry.path == [];
      assert ActionFits(d, plan[i]);
    }
  }

  lemma FittingPlansFinish(w: World, d: Destination, plan: seq<Planned>)
    requires Fits(d, plan) && AllMakeable(w, plan)
    ensures CanFinish(w, d, plan)
  {
    assert plan[..|plan|] == plan;
    NothingDealtWith(w, d, plan);
    PassSucceeds(w, d, plan, Begin(d), {}, |plan|, Folder);
    PassOverlays(w, d, plan, Begin(d), {}, |plan|, Folder);
    var one, folders := Pass(w, Begin(d), plan, Folder).value, {} + UpTo(plan, |plan|, Folder);
    PassSucceeds(w, d, plan, one, folders, |plan|, Regular);
    PassOverlays(w, d, plan, one, folders, |plan|, Regular);
    var two, more := Pass(w, one, plan, Regular).value, folders + UpTo(plan, |plan|, Regular);
    PassSucceeds(w, d, plan, two, more, |plan|, Link);
    PassOverlays(w, d, plan, two, more, |plan|, Link);
    DirectoriesAreThere(w, d, plan, Pass(w, two, plan, Link).value.dest, more + UpTo(plan, |plan|, Link));
  }

  /** What a pass takes through can be made. */
  lemma {:induction false} PassMakes(w: World, s: Progress, plan: seq<Planned>, i: nat, kind: EntryKind)
    requires Pass(w, s, plan, kind).Some? && i < |plan| && plan[i].entry.kind == kind && plan[i].action != Skip
    ensures Makeable(w.c, w.objects, w.rows, plan[i].entry)
    decreases |plan|
  {
    if i < |plan| - 1 {
      PassMakes(w, s, plan[..|plan| - 1], i, kind);
    }
  }

  /** Where no operation fails, a restore that was planned into a real destination ends normally if and only
      if everything that is not skipped can be made. */
  lemma FinishesIff(w: World, d: Destination, plan: seq<Planned>)
    requires Fits(d, plan)
    ensures CanFinish(w, d, plan) <==> AllMakeable(w, plan)
  {
    if CanFinish(w, d, plan) {
      var one := Pass(w, Begin(d), plan, Folder).value;
      var two := Pass(w, one, plan, Regular).value;
      forall i | 0 <= i < |plan| && plan[i].action != Skip
        ensures Makeable(w.c, w.objects, w.rows, plan[i].entry)
      {
        match plan[i].entry.kind
        case Folder =>
        case Regular => PassMakes(w, one, plan, i, Regular);
        case Link => PassMakes(w, two, plan, i, Link);
      }
    }
    if AllMakeable(w, plan) {
      FittingPlansFinish(w, d, plan);
    }
  }

  // ----- the plans that are made ---------------------------------------------------------------

  lemma {:induction false} AncestorIsListed(entries: seq<Entry>, e: Entry, n: nat)
    requires ParentsListed(entries) && e in entries && n < |e.path|
    ensures Listed(entries, e.path[..n])
    decreases |e.path|
  {
    var x :| 0 <= x < |entries| && entries[x] == e;
    assert Listed(entries, e.path[..|e.path| - 1]);
    if n < |e.path| - 1 {
      var k :| 0 <= k < |entries| && entries[k].path == e.path[..|e.path| - 1];
      AncestorIsListed(entries, entries[k], n);
      assert entries[k].path[..n] == e.path[..n];
    }
  }

  lemma PlannedFolderAt(policy: Policy, d: Destination, selected: seq<Entry>, plan: seq<Planned>, i: nat, n: nat)
    requires AncestorsAreFolders(selected) && ParentsListed(selected) && PlanFrom(policy, d, ByDepth(selected), []) == Ok(plan)
    requires i < |plan| && plan[i].action != Skip && n < |plan[i].entry.path|
    ensures HasFolderAt(plan, i, n)
  {
    PlanKeepsEntries(policy, d, ByDepth(selected), []);
    PlanIsSkipClosed(policy, d, selected);
    var k := FolderInSorted(selected, i, n);
    assert Above(plan[k].entry.path, plan[i].entry.path);
  }

  lemma FolderInSorted(selected: seq<Entry>, i: nat, n: nat) returns (k: nat)
    requires AncestorsAreFolders(selected) && ParentsListed(selected) && i < |ByDepth(selected)| && n < |ByDepth(selected)[i].path|
    ensures k < i && ByDepth(selected)[k].path == ByDepth(selected)[i].path[..n] && ByDepth(selected)[k].kind == Folder
  {
    var sorted := ByDepth(selected);
    SortedHas(selected, sorted[i]);
    AncestorIsListed(selected, sorted[i], n);
    var y :| 0 <= y < |selected| && selected[y].path == sorted[i].path[..n];
    SortedHas(selected, selected[y]);
    k :| 0 <= k < |sorted| && sorted[k] == selected[y];
    assert Above(sorted[k].path, sorted[i].path);
    AncestorInSorted(selected, i, k);
  }

  lemma PlannedActionFits(policy: Policy, d: Destination, selected: seq<Entry>, plan: seq<Planned>, i: nat)
    requires ValidEntries(selected) && IsDir(d, []) && PlanFrom(policy, d, ByDepth(selected), []) == Ok(plan) && i < |plan|
    ensures ActionFits(d, plan[i])
  {
    var sorted := ByDepth(selected);
    PlanMeaning(policy, d, sorted);
    assert plan[i].entry == sorted[i];
    SortedHas(selected, sorted[i]);
    var x :| 0 <= x < |selected| && selected[x] == sorted[i];
  }

  /** Every plan of a good listing into a real destination fits it. */
  lemma PlansFit(policy: Policy, d: Destination, selected: seq<Entry>)
    requires PathsDistinct(ByDepth(selected)) && ValidEntries(selected) && AncestorsAreFolders(selected) && ParentsListed(selected)
    requires IsDir(d, []) && PlanFrom(policy, d, ByDepth(selected), []).Ok?
    ensures Fits(d, PlanFrom(policy, d, ByDepth(selected), []).value)
  {
    var plan := PlanFrom(policy, d, ByDepth(selected), []).value;
    PlanKeepsEntries(policy, d, ByDepth(selected), []);
    forall i | 0 <= i < |plan|
      ensures ActionFits(d, plan[i])
    {
      PlannedActionFits(policy, d, selected, plan, i);
    }
    forall i, n | 0 <= i < |plan| && plan[i].action != Skip && 0 <= n < |plan[i].entry.path|
      ensures HasFolderAt(plan, i, n)
    {
      PlannedFolderAt(policy, d, selected, plan, i, n);
    }
    assert DistinctPlan(plan) by {
      assert forall i :: 0 <= i < |plan| ==> plan[i].entry == ByDepth(selected)[i];
    }
  }
}
