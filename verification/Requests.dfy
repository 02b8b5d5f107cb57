/** What a request asks for, said of the snapshot's entries themselves, and what is planned for it. */
module Requests {
  import opened Common
  import opened Metadata
  import opened Selection
  import opened RestorePlan

  predicate FolderListed(entries: seq<Entry>, p: Path) {
    exists k :: 0 <= k < |entries| && entries[k].path == p && entries[k].kind == Folder
  }

  /** Requested itself, or below a requested directory. */
  predicate InRequest(entries: seq<Entry>, requested: seq<Path>, p: Path) {
    Requested(requested, p) || exists k :: 0 <= k < |requested| && FolderListed(entries, requested[k]) && Above(requested[k], p)
  }

  predicate AboveRequest(requested: seq<Path>, p: Path) {
    exists k :: 0 <= k < |requested| && Above(p, requested[k])
  }

  /** A request for nothing in particular asks for everything; one for paths asks for the root, for those
      paths, for everything below requested directories, and for the ancestors of requested paths. */
  predicate AsksFor(entries: seq<Entry>, requested: seq<Path>, p: Path) {
    requested == [] || p == [] || InRequest(entries, requested, p) || AboveRequest(requested, p)
  }

  /** Every proper ancestor of `p` is listed as a directory. */
  predicate Anchors(entries: seq<Entry>, p: Path) {
    forall n {:trigger p[..n]} :: 0 < n < |p| ==> FolderListed(entries, p[..n])
  }

  /** All requested paths are safe and in the snapshot, and everything requested is anchored. */
  predicate CanAnswer(entries: seq<Entry>, requested: seq<Path>) {
    && (forall k :: 0 <= k < |requested| ==> SafePath(requested[k]) && Listed(entries, requested[k]))
    && (forall i :: 0 <= i < |entries| && entries[i].path != [] && InRequest(entries, requested, entries[i].path) ==> Anchors(entries, entries[i].path))
  }

  /** `selected` has exactly the entries asked for, each once. */
  ghost predicate Chosen(entries: seq<Entry>, requested: seq<Path>, selected: seq<Entry>) {
    PathsDistinct(selected) && forall e :: e in selected <==> e in entries && AsksFor(entries, requested, e.path)
  }

  // ----- the index and the entries -------------------------------------------------------------

  lemma IndexMeaning(index: Index, entries: seq<Entry>, p: Path)
    requires PathsDistinct(entries) && Indexes(index, entries)
    ensures p in index <==> p != [] && Listed(entries, p)
    ensures p in index ==> (index[p].kind == Folder <==> FolderListed(entries, p))
    ensures forall e :: e in entries && e.path == p && p != [] ==> p in index && index[p] == e
  {
    if p in index {
      var i :| 0 <= i < |entries| && entries[i] == index[p];
      assert forall k :: 0 <= k < |entries| && entries[k].path == p ==> k == i;
    }
  }

  lemma NamesMeaning(index: Index, entries: seq<Entry>, requested: seq<Path>, p: Path)
    requires PathsDistinct(entries) && Indexes(index, entries) && p in index
    requires forall k :: 0 <= k < |requested| ==> requested[k] in index
    ensures Names(index, requested, p) <==> InRequest(entries, requested, p)
  {
    forall k | 0 <= k < |requested|
      ensures index[requested[k]].kind == Folder <==> FolderListed(entries, requested[k])
    {
      IndexMeaning(index, entries, requested[k]);
    }
    if Names(index, requested, p) {
      var k :| 0 <= k < |requested| && requested[k] in index && Covers(index, requested[k], p);
      if requested[k] == p {
        assert Requested(requested, p);
      } else {
        assert Above(requested[k], p);
      }
    }
    if InRequest(entries, requested, p) {
      var k :| 0 <= k < |requested| && (requested[k] == p || (FolderListed(entries, requested[k]) && Above(requested[k], p)));
      var r := requested[k];
      IndexMeaning(index, entries, r);
      if r != p {
        assert FolderListed(entries, r) && Above(r, p);
        assert index[r].kind == Folder;
        assert AtOrAbove(r, p);
      }
      assert Covers(index, r, p);
    }
  }

  lemma AnchoredMeaning(index: Index, entries: seq<Entry>, p: Path)
    requires PathsDistinct(entries) && Indexes(index, entries)
    ensures Anchored(index, p) <==> Anchors(entries, p)
  {
    forall n | 0 < n < |p|
      ensures p[..n] in index && index[p[..n]].kind == Folder <==> FolderListed(entries, p[..n])
    {
      IndexMeaning(index, entries, p[..n]);
      if FolderListed(entries, p[..n]) {
        var k :| 0 <= k < |entries| && entries[k].path == p[..n] && entries[k].kind == Folder;
        assert Listed(entries, p[..n]);
      }
    }
  }

  /** The request can be answered from the index exactly if it can from the entries. */
  lemma AnswerableMeaning(index: Index, entries: seq<Entry>, requested: seq<Path>)
    requires PathsDistinct(entries) && Indexes(index, entries)
    ensures Answerable(index, requested) <==> CanAnswer(entries, requested)
  {
    forall k | 0 <= k < |requested|
      ensures SafePath(requested[k]) ==> (requested[k] in index <==> Listed(entries, requested[k]))
    {
      IndexMeaning(index, entries, requested[k]);
    }
    if forall k :: 0 <= k < |requested| ==> SafePath(requested[k]) && requested[k] in index {
      forall p | p in index
        ensures p in Named(index, requested) <==> InRequest(entries, requested, p)
        ensures Anchored(index, p) <==> Anchors(entries, p)
      {
        NamesMeaning(index, entries, requested, p);
        AnchoredMeaning(index, entries, p);
      }
      forall i | 0 <= i < |entries| && entries[i].path != []
        ensures entries[i].path in index
      {
        IndexMeaning(index, entries, entries[i].path);
      }
      forall p | p in index
        ensures exists i :: 0 <= i < |entries| && entries[i].path == p
      {
        IndexMeaning(index, entries, p);
      }
    }
  }

  lemma SelectedMeaning(index: Index, entries: seq<Entry>, requested: seq<Path>, p: Path)
    requires PathsDistinct(entries) && Indexes(index, entries) && Answerable(index, requested) && p in index
    ensures IsSelected(index, requested, p) <==> InRequest(entries, requested, p) || AboveRequest(requested, p)
  {
    NamesMeaning(index, entries, requested, p);
    SelectionClosure(index, requested, p);
    if AboveRequest(requested, p) {
      var k :| 0 <= k < |requested| && Above(p, requested[k]);
      assert Requested(requested, requested[k]);
    }
    if r :| Requested(requested, r) && Above(p, r) {
      var k :| 0 <= k < |requested| && requested[k] == r;
      assert AboveRequest(requested, p);
    }
    if r :| Requested(requested, r) && r in index && index[r].kind == Folder && Above(r, p) {
      var k :| 0 <= k < |requested| && requested[k] == r;
      IndexMeaning(index, entries, r);
      assert InRequest(entries, requested, p);
    }
  }

  /** What has been selected is exactly what was asked for. */
  lemma SelectionIsChosen(index: Index, entries: seq<Entry>, requested: seq<Path>, selected: seq<Entry>)
    requires PathsDistinct(entries) && Indexes(index, entries) && requested != [] && Answerable(index, requested)
    requires IsSelection(entries, index, requested, selected)
    ensures Chosen(entries, requested, selected)
  {
    forall e
      ensures e in selected <==> e in entries && AsksFor(entries, requested, e.path)
    {
      if e.path == [] {
        if e in selected {
          var i :| 0 <= i < |selected| && selected[i] == e;
        }
        if e in entries {
          RootIsUnique(entries, selected[0], e);
        }
      } else {
        IndexMeaning(index, entries, e.path);
        if e.path in index {
          SelectedMeaning(index, entries, requested, e.path);
          SelectedByPath(index, entries, requested, selected, e);
        }
      }
    }
  }

  lemma RootIsUnique(entries: seq<Entry>, root: Entry, e: Entry)
    requires PathsDistinct(entries) && root in entries && root.path == e.path && e in entries
    ensures e == root
  {
    var i :| 0 <= i < |entries| && entries[i] == root;
    var k :| 0 <= k < |entries| && entries[k] == e;
  }

  lemma SelectedByPath(index: Index, entries: seq<Entry>, requested: seq<Path>, selected: seq<Entry>, e: Entry)
    requires PathsDistinct(entries) && Indexes(index, entries) && IsSelection(entries, index, requested, selected) && e.path in index
    ensures e in selected <==> e in entries && IsSelected(index, requested, e.path)
  {
    if e in selected {
      var i :| 0 <= i < |selected| && selected[i] == e;
      assert HasPath(selected, e.path);
    }
    if e in entries && IsSelected(index, requested, e.path) {
      IndexMeaning(index, entries, e.path);
      assert HasPath(selected, e.path);
      var i :| 0 <= i < |selected| && selected[i].path == e.path;
      assert i > 0 && selected[i] == index[e.path];
    }
  }

  // ----- what has been chosen is a good listing ------------------------------------------------

  lemma AskedIsAnchored(entries: seq<Entry>, requested: seq<Path>, e: Entry, n: nat)
    requires CanAnswer(entries, requested) && requested != [] && e in entries && AsksFor(entries, requested, e.path) && 0 < n < |e.path|
    ensures FolderListed(entries, e.path[..n]) && AsksFor(entries, requested, e.path[..n])
  {
    var p := e.path;
    if AboveRequest(requested, p) {
      var k :| 0 <= k < |requested| && Above(p, requested[k]);
      var r := requested[k];
      assert Listed(entries, r) && Requested(requested, r);
      var i :| 0 <= i < |entries| && entries[i].path == r;
      assert Anchors(entries, r) && r[..n] == p[..n];
      assert Above(p[..n], r);
    } else {
      var i :| 0 <= i < |entries| && entries[i] == e;
      assert Anchors(entries, p);
      if Requested(requested, p) {
        var k :| 0 <= k < |requested| && requested[k] == p;
        assert Above(p[..n], requested[k]);
      } else {
        var k :| 0 <= k < |requested| && FolderListed(entries, requested[k]) && Above(requested[k], p);
        AncestorsCompare(requested[k], p, n);
        assert requested[k] == p[..n] ==> Requested(requested, p[..n]);
      }
    }
  }

  lemma AncestorsCompare(r: Path, p: Path, n: nat)
    requires Above(r, p) && n < |p|
    ensures r == p[..n] || Above(r, p[..n]) || Above(p[..n], r)
  {
    if |r| < n {
      assert p[..n][..|r|] == p[..|r|];
    } else if n < |r| {
      assert r[..n] == p[..|r|][..n] == p[..n];
    }
  }

  lemma ListedIsIn(entries: seq<Entry>, p: Path) returns (e: Entry)
    requires FolderListed(entries, p)
    ensures e in entries && e.path == p && e.kind == Folder
  {
    var k :| 0 <= k < |entries| && entries[k].path == p && entries[k].kind == Folder;
    e := entries[k];
  }

  lemma ChosenHasRoot(entries: seq<Entry>, requested: seq<Path>, selected: seq<Entry>)
    requires PathsDistinct(entries) && ValidEntries(entries) && Chosen(entries, requested, selected)
    ensures ValidEntries(selected)
  {
    var i :| 0 <= i < |entries| && entries[i].path == [];
    assert entries[i] in selected;
    forall k | 0 <= k < |selected|
      ensures selected[k] in entries
    {
      assert selected[k] in selected;
    }
  }

  lemma ChosenParent(entries: seq<Entry>, requested: seq<Path>, selected: seq<Entry>, i: nat)
    requires PathsDistinct(entries) && ValidEntries(entries) && CanAnswer(entries, requested) && requested != []
    requires Chosen(entries, requested, selected) && i < |selected| && selected[i].path != []
    ensures Listed(selected, selected[i].path[..|selected[i].path| - 1])
  {
    var e := selected[i];
    assert e in selected;
    var q := e.path[..|e.path| - 1];
    if q == [] {
      var k :| 0 <= k < |entries| && entries[k].path == [];
      assert entries[k] in selected;
      var m :| 0 <= m < |selected| && selected[m] == entries[k];
      assert selected[m].path == q;
    } else {
      AskedIsAnchored(entries, requested, e, |q|);
      var f := ListedIsIn(entries, q);
      assert f in selected;
      var m :| 0 <= m < |selected| && selected[m] == f;
      assert selected[m].path == q;
    }
  }

  lemma ChosenAncestor(entries: seq<Entry>, requested: seq<Path>, selected: seq<Entry>, i: nat, k: nat)
    requires PathsDistinct(entries) && ValidEntries(entries) && CanAnswer(entries, requested) && requested != []
    requires Chosen(entries, requested, selected) && i < |selected| && k < |selected| && Above(selected[k].path, selected[i].path)
    ensures selected[k].kind == Folder
  {
    var a, e := selected[k], selected[i];
    assert a in selected && e in selected;
    if a.path == [] {
      var m :| 0 <= m < |entries| && entries[m] == a;
    } else {
      AskedIsAnchored(entries, requested, e, |a.path|);
      var f := ListedIsIn(entries, a.path);
      RootIsUnique(entries, f, a);
    }
  }

  /** What has been chosen for a request by paths has one root, every parent, and only directories above
      anything. */
  lemma ChosenIsGood(entries: seq<Entry>, requested: seq<Path>, selected: seq<Entry>)
    requires PathsDistinct(entries) && ValidEntries(entries) && CanAnswer(entries, requested) && Chosen(entries, requested, selected)
    requires requested != []
    ensures ValidEntries(selected) && AncestorsAreFolders(selected) && ParentsListed(selected)
  {
    ChosenHasRoot(entries, requested, selected);
    forall i | 0 <= i < |selected| && selected[i].path != []
      ensures Listed(selected, selected[i].path[..|selected[i].path| - 1])
    {
      ChosenParent(entries, requested, selected, i);
    }
    forall i, k | 0 <= i < |selected| && 0 <= k < |selected| && Above(selected[k].path, selected[i].path)
      ensures selected[k].kind == Folder
    {
      ChosenAncestor(entries, requested, selected, i, k);
    }
  }

  lemma {:induction false} GoodListingsAnchor(entries: seq<Entry>, i: nat, n: nat)
    requires AncestorsAreFolders(entries) && ParentsListed(entries) && i < |entries| && n < |entries[i].path|
    ensures FolderListed(entries, entries[i].path[..n])
    decreases |entries[i].path|
  {
    var p := entries[i].path;
    var k :| 0 <= k < |entries| && entries[k].path == p[..|p| - 1];
    assert Above(entries[k].path, p);
    if n < |p| - 1 {
      GoodListingsAnchor(entries, k, n);
      assert entries[k].path[..n] == p[..n];
    }
  }

  /** A request to a good listing, as every complete snapshot has, can be answered exactly if the requested
      paths are safe and in the snapshot. */
  lemma CanAnswerIff(entries: seq<Entry>, requested: seq<Path>)
    requires AncestorsAreFolders(entries) && ParentsListed(entries)
    ensures CanAnswer(entries, requested) <==> forall k :: 0 <= k < |requested| ==> SafePath(requested[k]) && Listed(entries, requested[k])
  {
    forall i | 0 <= i < |entries|
      ensures Anchors(entries, entries[i].path)
    {
      forall n | 0 < n < |entries[i].path|
        ensures FolderListed(entries, entries[i].path[..n])
      {
        GoodListingsAnchor(entries, i, n);
      }
    }
  }

  // ----- what is planned for a request ---------------------------------------------------------

  /** Something asked for above the entry is a directory that is skipped. */
  predicate HiddenBy(policy: Policy, d: Destination, entries: seq<Entry>, requested: seq<Path>, e: Entry) {
    exists k :: 0 <= k < |entries| && AsksFor(entries, requested, entries[k].path) && LeftFolder(policy, d, entries[k]) && Above(entries[k].path, e.path)
  }

  lemma HiddenIsAsked(policy: Policy, d: Destination, entries: seq<Entry>, requested: seq<Path>, selected: seq<Entry>, i: nat)
    requires PathsDistinct(ByDepth(selected)) && Chosen(entries, requested, selected) && i < |ByDepth(selected)|
    requires Hidden(policy, d, ByDepth(selected), i)
    ensures HiddenBy(policy, d, entries, requested, ByDepth(selected)[i])
  {
    var sorted := ByDepth(selected);
    var k :| 0 <= k < i && LeftFolder(policy, d, sorted[k]) && AtOrAbove(sorted[k].path, sorted[i].path);
    SortedHas(selected, sorted[k]);
    var m :| 0 <= m < |entries| && entries[m] == sorted[k];
    assert Above(entries[m].path, sorted[i].path);
  }

  lemma ShallowerIsEarlier(sorted: seq<Entry>, k: nat, i: nat)
    requires DepthOrdered(sorted) && k < |sorted| && i < |sorted| && |sorted[k].path| < |sorted[i].path|
    ensures k < i
  {
  }

  lemma PlaceAbove(selected: seq<Entry>, f: Entry, i: nat) returns (k: nat)
    requires f in selected && i < |ByDepth(selected)| && Above(f.path, ByDepth(selected)[i].path)
    ensures k < i && ByDepth(selected)[k] == f
  {
    SortedHas(selected, f);
    k :| 0 <= k < |ByDepth(selected)| && ByDepth(selected)[k] == f;
    ByDepthIsOrdered(selected);
    ShallowerIsEarlier(ByDepth(selected), k, i);
  }

  lemma AskedIsHidden(policy: Policy, d: Destination, entries: seq<Entry>, requested: seq<Path>, selected: seq<Entry>, i: nat)
    requires Chosen(entries, requested, selected) && i < |ByDepth(selected)|
    requires HiddenBy(policy, d, entries, requested, ByDepth(selected)[i])
    ensures Hidden(policy, d, ByDepth(selected), i)
  {
    var sorted := ByDepth(selected);
    var m :| 0 <= m < |entries| && AsksFor(entries, requested, entries[m].path) && LeftFolder(policy, d, entries[m]) && Above(entries[m].path, sorted[i].path);
    assert entries[m] in entries;
    var k := PlaceAbove(selected, entries[m], i);
    assert LeftFolder(policy, d, sorted[k]) && AtOrAbove(sorted[k].path, sorted[i].path);
  }

  /** Nothing asked for makes planning fail. */
  predicate CanPlan(policy: Policy, d: Destination, entries: seq<Entry>, requested: seq<Path>) {
    forall i :: 0 <= i < |entries| && AsksFor(entries, requested, entries[i].path) && !HiddenBy(policy, d, entries, requested, entries[i]) ==>
      !Fails(policy, d, entries[i])
  }

  /** One entry, planned as the destination and the policy say. */
  ghost predicate PlansEntry(policy: Policy, d: Destination, entries: seq<Entry>, requested: seq<Path>, p: Planned) {
    && p.entry in entries && AsksFor(entries, requested, p.entry.path) && p.metadataAllowed == (p.action != Skip)
    && IsPlannedAs(policy, d, p.entry, HiddenBy(policy, d, entries, requested, p.entry), p.action)
  }

  predicate IsPlanned(plan: seq<Planned>, e: Entry) {
    exists i :: 0 <= i < |plan| && plan[i].entry == e
  }

  /** The plan is for what was asked, each entry once, shallower ones first. */
  ghost predicate PlansRequest(policy: Policy, d: Destination, entries: seq<Entry>, requested: seq<Path>, plan: seq<Planned>) {
    && (forall i, j :: 0 <= i < j < |plan| ==> plan[i].entry.path != plan[j].entry.path && |plan[i].entry.path| <= |plan[j].entry.path|)
    && (forall e :: e in entries && AsksFor(entries, requested, e.path) ==> IsPlanned(plan, e))
    && (forall i :: 0 <= i < |plan| ==> PlansEntry(policy, d, entries, requested, plan[i]))
  }

  lemma SortedIsAsked(policy: Policy, d: Destination, entries: seq<Entry>, requested: seq<Path>, selected: seq<Entry>)
    requires PathsDistinct(ByDepth(selected)) && Chosen(entries, requested, selected)
    ensures forall i :: 0 <= i < |ByDepth(selected)| ==>
              && (Hidden(policy, d, ByDepth(selected), i) <==> HiddenBy(policy, d, entries, requested, ByDepth(selected)[i]))
              && ByDepth(selected)[i] in entries && AsksFor(entries, requested, ByDepth(selected)[i].path)
    ensures forall e :: e in entries && AsksFor(entries, requested, e.path) ==> exists i :: 0 <= i < |ByDepth(selected)| && ByDepth(selected)[i] == e
  {
    var sorted := ByDepth(selected);
    forall i | 0 <= i < |sorted|
      ensures Hidden(policy, d, sorted, i) <==> HiddenBy(policy, d, entries, requested, sorted[i])
      ensures sorted[i] in entries && AsksFor(entries, requested, sorted[i].path)
    {
      if Hidden(policy, d, sorted, i) {
        HiddenIsAsked(policy, d, entries, requested, selected, i);
      }
      if HiddenBy(policy, d, entries, requested, sorted[i]) {
        AskedIsHidden(policy, d, entries, requested, selected, i);
      }
      SortedHas(selected, sorted[i]);
    }
    forall e | e in entries && AsksFor(entries, requested, e.path)
      ensures exists i :: 0 <= i < |sorted| && sorted[i] == e
    {
      SortedHas(selected, e);
    }
  }

  /** Planning what has been chosen succeeds exactly if nothing asked for makes it fail. */
  lemma PlanningIff(policy: Policy, d: Destination, entries: seq<Entry>, requested: seq<Path>, selected: seq<Entry>)
    requires PathsDistinct(ByDepth(selected)) && Chosen(entries, requested, selected)
    ensures PlanFrom(policy, d, ByDepth(selected), []).Ok? <==> CanPlan(policy, d, entries, requested)
  {
    var sorted := ByDepth(selected);
    PlanMeaning(policy, d, sorted);
    SortedIsAsked(policy, d, entries, requested, selected);
    forall i | 0 <= i < |entries| && AsksFor(entries, requested, entries[i].path)
      ensures exists k :: 0 <= k < |sorted| && sorted[k] == entries[i]
    {
      assert entries[i] in entries;
    }
  }

  lemma PlanOfRequest(policy: Policy, d: Destination, entries: seq<Entry>, requested: seq<Path>, selected: seq<Entry>)
    requires PathsDistinct(ByDepth(selected)) && Chosen(entries, requested, selected) && PlanFrom(policy, d, ByDepth(selected), []).Ok?
    ensures PlansRequest(policy, d, entries, requested, PlanFrom(policy, d, ByDepth(selected), []).value)
  {
    var sorted, plan := ByDepth(selected), PlanFrom(policy, d, ByDepth(selected), []).value;
    SortedIsAsked(policy, d, entries, requested, selected);
    PlanKeepsEntries(policy, d, sorted, []);
    forall i | 0 <= i < |plan|
      ensures PlansEntry(policy, d, entries, requested, plan[i])
    {
      PlanMeaning(policy, d, sorted);
    }
    forall e | e in entries && AsksFor(entries, requested, e.path)
      ensures IsPlanned(plan, e)
    {
      var i :| 0 <= i < |sorted| && sorted[i] == e;
      assert plan[i].entry == e;
    }
    forall i, j | 0 <= i < j < |plan|
      ensures plan[i].entry.path != plan[j].entry.path && |plan[i].entry.path| <= |plan[j].entry.path|
    {
      ByDepthIsOrdered(selected);
      assert plan[i].entry == sorted[i] && plan[j].entry == sorted[j];
    }
  }
}
