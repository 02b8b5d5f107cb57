/** Which entries of a snapshot a restore concerns. */
module Selection {
  import opened Common
  import opened Metadata
  import Utf8

  /** A stored path, as its components; the root's is empty. */
  type Path = seq<Bytes>

  datatype Entry = Entry(path: Path, kind: EntryKind, size: nat, hash: Option<Digest>, target: Option<Bytes>)

  datatype RestoreError = BadRequest | BadDatabase | UnsafePath | Exists | CorruptObject | Interrupted | Io

  const DOT: Bytes := [46]
  const DOT_DOT: Bytes := [46, 46]

  predicate SafeComponent(name: Bytes) {
    name != [] && name != DOT && name != DOT_DOT && Utf8.Valid(name)
  }

  predicate SafePath(path: Path) {
    path != [] && forall i :: 0 <= i < |path| ==> SafeComponent(path[i])
  }

  /** Where a path leads from the root when its components are followed as a filesystem would: "." stays,
      ".." goes back, and nothing goes back beyond the root. */
  function Followed(path: Path): Option<Path>
    decreases |path|
  {
    if path == [] then Some([])
    else
      match Followed(path[..|path| - 1])
      case None => None
      case Some(at) =>
        var name := path[|path| - 1];
        if name == DOT then Some(at)
        else if name == DOT_DOT then if at == [] then None else Some(at[..|at| - 1])
        else Some(at + [name])
  }

  /** Every part of the path leads exactly where it says. */
  predicate LeadsWhereItSays(path: Path) {
    forall n {:trigger path[..n]} :: 0 <= n <= |path| ==> Followed(path[..n]) == Some(path[..n])
  }

  lemma {:induction false} SafePathsLead(path: Path, n: nat)
    requires SafePath(path) && n <= |path|
    ensures Followed(path[..n]) == Some(path[..n])
  {
    if n > 0 {
      SafePathsLead(path, n - 1);
      assert path[..n][..n - 1] == path[..n - 1];
      assert path[..n - 1] + [path[n - 1]] == path[..n];
    }
  }

  /** Path safety: among the paths made of non-empty valid names, the safe ones are exactly those that, at
      every depth, lead where they say: so nothing restored under a safe path is outside the destination,
      or in the place of another entry. */
  lemma SafePathIff(path: Path)
    requires path != [] && forall i :: 0 <= i < |path| ==> path[i] != [] && Utf8.Valid(path[i])
    ensures SafePath(path) <==> LeadsWhereItSays(path)
  {
    if SafePath(path) {
      forall n | 0 <= n <= |path|
        ensures Followed(path[..n]) == Some(path[..n])
      {
        SafePathsLead(path, n);
      }
    }
    if LeadsWhereItSays(path) {
      forall i | 0 <= i < |path|
        ensures SafeComponent(path[i])
      {
        assert path[..i + 1][..i] == path[..i] && path[..i + 1][i] == path[i];
        assert Followed(path[..i]) == Some(path[..i]) && Followed(path[..i + 1]) == Some(path[..i + 1]);
        assert |path[..i + 1]| == i + 1 && |path[..i]| == i;
      }
    }
  }

  /** `a` is a proper ancestor of `p`. */
  predicate Above(a: Path, p: Path) {
    |a| < |p| && p[..|a|] == a
  }

  /** `a` is `p` or an ancestor of it: `is_component_prefix`. */
  predicate AtOrAbove(a: Path, p: Path) {
    |a| <= |p| && p[..|a|] == a
  }

  /** The loop over both component lists. */
  method IsComponentPrefix(prefix: Path, path: Path) returns (r: bool)
    ensures r <==> AtOrAbove(prefix, path)
  {
    var i := 0;
    while i < |prefix| && i < |path|
      invariant i <= |prefix| && i <= |path| && prefix[..i] == path[..i]
    {
      if prefix[i] != path[i] {
        assert i < |prefix| <= |path| ==> path[..|prefix|][i] != prefix[i];
        return false;
      }
      i := i + 1;
    }
    assert prefix[..|prefix|] == prefix;
    return i == |prefix|;
  }

  predicate PathsDistinct(entries: seq<Entry>) {
    forall i, j :: 0 <= i < j < |entries| ==> entries[i].path != entries[j].path
  }

  /** What `validate_entries` insists on: one root, a directory, and otherwise safe paths. */
  predicate ValidEntries(entries: seq<Entry>) {
    && (exists i :: 0 <= i < |entries| && entries[i].path == [])
    && (forall i :: 0 <= i < |entries| && entries[i].path == [] ==> entries[i].kind == Folder)
    && (forall i, j :: 0 <= i < j < |entries| ==> entries[i].path != [] || entries[j].path != [])
    && (forall i :: 0 <= i < |entries| ==> entries[i].path == [] || SafePath(entries[i].path))
  }

  method ValidateEntries(entries: seq<Entry>) returns (r: Result<nat, RestoreError>)
    ensures r.Ok? <==> ValidEntries(entries)
  {
    var rootCount, rootIndex := 0, 0;
    for i := 0 to |entries|
      invariant forall k :: 0 <= k < i ==> entries[k].path == [] || SafePath(entries[k].path)
      invariant forall k :: 0 <= k < i && entries[k].path == [] ==> entries[k].kind == Folder
      invariant rootCount == 0 ==> forall k :: 0 <= k < i ==> entries[k].path != []
      invariant rootCount > 0 ==> rootIndex < i && entries[rootIndex].path == []
      invariant rootCount == 1 ==> forall k :: 0 <= k < i && k != rootIndex ==> entries[k].path != []
      invariant rootCount > 1 ==> exists k, l :: 0 <= k < l < i && entries[k].path == [] && entries[l].path == []
    {
      if entries[i].path == [] {
        assert rootCount > 0 ==> 0 <= rootIndex < i && entries[rootIndex].path == [] && entries[i].path == [];
        if rootCount == 0 {
          rootIndex := i;
        }
        rootCount := rootCount + 1;
        if entries[i].kind != Folder {
          return Err(BadDatabase);
        }
      } else if !SafePath(entries[i].path) {
        return Err(UnsafePath);
      }
    }
    return if rootCount == 1 then Ok(rootIndex) else Err(BadDatabase);
  }

  // ----- selection -----------------------------------------------------------------------------

  type Index = map<Path, Entry>

  /** The entries other than the root, by path; `emplace` keeps the first of equal paths. */
  predicate Indexes(index: Index, entries: seq<Entry>) {
    && (forall p :: p in index ==> p != [] && index[p] in entries && index[p].path == p)
    && (forall i :: 0 <= i < |entries| && entries[i].path != [] ==> entries[i].path in index)
  }

  predicate Names(index: Index, requested: seq<Path>, p: Path) {
    p in index && exists k :: 0 <= k < |requested| && requested[k] in index && Covers(index, requested[k], p)
  }

  /** A requested entry covers itself and, if it is a directory, everything below it. */
  predicate Covers(index: Index, r: Path, p: Path)
    requires r in index
  {
    p == r || (index[r].kind == Folder && AtOrAbove(r, p))
  }

  /** Every proper ancestor of `p` but the root is there, as a directory. */
  predicate Anchored(index: Index, p: Path) {
    forall n :: 0 < n < |p| ==> p[..n] in index && index[p[..n]].kind == Folder
  }

  method BuildIndex(entries: seq<Entry>) returns (index: Index)
    ensures Indexes(index, entries)
  {
    index := map[];
    for i := 0 to |entries|
      invariant forall p :: p in index ==> p != [] && index[p] in entries && index[p].path == p
      invariant forall k :: 0 <= k < i && entries[k].path != [] ==> entries[k].path in index
    {
      if entries[i].path != [] && entries[i].path !in index {
        index := index[entries[i].path := entries[i]];
      }
    }
  }

  method AddCovered(index: Index, r: Path, keys: set<Path>) returns (more: set<Path>)
    requires r in index
    ensures more == keys + set p | p in index && Covers(index, r, p)
  {
    more := keys + {r};
    if index[r].kind == Folder {
      var rest := index.Keys;
      while rest != {}
        invariant rest <= index.Keys
        invariant more == keys + {r} + set p | p in index && p !in rest && AtOrAbove(r, p)
        decreases rest
      {
        var candidate :| candidate in rest;
        var below := IsComponentPrefix(r, candidate);
        if below {
          more := more + {candidate};
        }
        rest := rest - {candidate};
      }
    }
  }

  /** Adds the ancestors of `p`; they must be there, as directories. */
  method AddAncestors(index: Index, p: Path, keys: set<Path>) returns (r: Result<set<Path>, RestoreError>)
    requires p in index
    ensures r.Ok? <==> Anchored(index, p)
    ensures r.Ok? ==> r.value == keys + set n | 0 < n < |p| :: p[..n]
  {
    var more := keys;
    var n := if p == [] then 0 else |p| - 1;
    while n > 0
      invariant 0 <= n && (p != [] ==> n < |p|)
      invariant forall m :: n < m < |p| ==> p[..m] in index && index[p[..m]].kind == Folder
      invariant more == keys + set m | n < m < |p| :: p[..m]
    {
      var parent := p[..n];
      if parent !in index || index[parent].kind != Folder {
        return Err(BadDatabase);
      }
      more := more + {parent};
      n := n - 1;
    }
    return Ok(more);
  }

  /** The selected paths other than the root. */
  predicate IsSelected(index: Index, requested: seq<Path>, p: Path) {
    Names(index, requested, p) || exists q :: q in index && Names(index, requested, q) && p != [] && Above(p, q)
  }

  /** What a request needs in order to succeed. */
  predicate Answerable(index: Index, requested: seq<Path>) {
    && (forall k :: 0 <= k < |requested| ==> SafePath(requested[k]) && requested[k] in index)
    && (forall q :: q in Named(index, requested) ==> Anchored(index, q))
  }

  function Named(index: Index, requested: seq<Path>): set<Path> {
    set p | p in index && Names(index, requested, p)
  }

  method NameRequested(index: Index, requested: seq<Path>) returns (r: Result<set<Path>, RestoreError>)
    ensures r.Ok? <==> forall k :: 0 <= k < |requested| ==> SafePath(requested[k]) && requested[k] in index
    ensures r.Ok? ==> r.value == Named(index, requested)
    ensures r.Err? ==> r.error == BadRequest
  {
    var keys: set<Path> := {};
    for i := 0 to |requested|
      invariant forall k :: 0 <= k < i ==> SafePath(requested[k]) && requested[k] in index
      invariant keys == Named(index, requested[..i])
    {
      if !SafePath(requested[i]) || requested[i] !in index {
        return Err(BadRequest);
      }
      NamedMore(index, requested, i);
      keys := AddCovered(index, requested[i], keys);
    }
    assert requested[..|requested|] == requested;
    return Ok(keys);
  }

  lemma NamedMore(index: Index, requested: seq<Path>, i: nat)
    requires i < |requested| && requested[i] in index
    ensures Named(index, requested[..i + 1]) == Named(index, requested[..i]) + set p | p in index && Covers(index, requested[i], p)
  {
    forall p | p in index
      ensures Names(index, requested[..i + 1], p) <==> Names(index, requested[..i], p) || Covers(index, requested[i], p)
    {
      OneMoreRequest(index, requested, i, p);
    }
  }

  lemma OneMoreRequest(index: Index, requested: seq<Path>, i: nat, p: Path)
    requires i < |requested| && requested[i] in index && p in index
    ensures Names(index, requested[..i + 1], p) <==> Names(index, requested[..i], p) || Covers(index, requested[i], p)
  {
    var more, less := requested[..i + 1], requested[..i];
    if Names(index, more, p) {
      var k :| 0 <= k < |more| && more[k] in index && Covers(index, more[k], p);
      assert k < i ==> less[k] == more[k];
    }
    if Names(index, less, p) {
      var k :| 0 <= k < |less| && less[k] in index && Covers(index, less[k], p);
      assert more[k] == less[k];
    }
    if Covers(index, requested[i], p) {
      assert more[i] == requested[i];
    }
  }

  /** The proper ancestors of some of the paths, but for the root. */
  function AncestorsOf(paths: set<Path>): set<Path> {
    set q, n | q in paths && 0 < n < |q| :: q[..n]
  }

  lemma AncestorsOfMore(paths: set<Path>, p: Path)
    ensures AncestorsOf(paths + {p}) == AncestorsOf(paths) + set n | 0 < n < |p| :: p[..n]
  {
  }

  lemma IsAncestorOf(paths: set<Path>, p: Path)
    ensures p in AncestorsOf(paths) <==> p != [] && exists q :: q in paths && Above(p, q)
  {
    if p != [] && exists q :: q in paths && Above(p, q) {
      var q :| q in paths && Above(p, q);
      assert 0 < |p| < |q| && q[..|p|] == p;
    }
    if p in AncestorsOf(paths) {
      var q, n :| q in paths && 0 < n < |q| && q[..n] == p;
      assert Above(p, q);
    }
  }

  method AddAllAncestors(index: Index, keys: set<Path>) returns (r: Result<set<Path>, RestoreError>)
    requires keys <= index.Keys
    ensures r.Ok? <==> forall q :: q in keys ==> Anchored(index, q)
    ensures r.Ok? ==> r.value == keys + AncestorsOf(keys)
    ensures r.Err? ==> r.error == BadDatabase
  {
    var all, rest := keys, keys;
    assert AncestorsOf(keys - rest) == {};
    while rest != {}
      invariant rest <= keys
      invariant forall q :: q in keys && q !in rest ==> Anchored(index, q)
      invariant all == keys + AncestorsOf(keys - rest)
      decreases rest
    {
      var key :| key in rest;
      var added := AddAncestors(index, key, all);
      if added.Err? {
        return Err(BadDatabase);
      }
      AncestorsOfMore(keys - rest, key);
      assert keys - (rest - {key}) == keys - rest + {key};
      all := added.value;
      rest := rest - {key};
    }
    assert keys - rest == keys;
    return Ok(all);
  }

  method InOrder(keys: set<Path>) returns (paths: seq<Path>)
    ensures forall p :: p in paths <==> p in keys
    ensures forall i, j :: 0 <= i < j < |paths| ==> paths[i] != paths[j]
  {
    paths := [];
    var rest := keys;
    while rest != {}
      invariant rest <= keys && forall p :: p in paths <==> p in keys && p !in rest
      invariant forall i, j :: 0 <= i < j < |paths| ==> paths[i] != paths[j]
      decreases rest
    {
      var p :| p in rest;
      paths, rest := paths + [p], rest - {p};
    }
  }

  /** The entries in the order of `paths`, which all name one. */
  function Fetch(index: Index, paths: seq<Path>): (es: seq<Entry>)
    requires forall p :: p in paths ==> p in index
    ensures |es| == |paths| && forall i :: 0 <= i < |es| ==> es[i] == index[paths[i]]
  {
    seq(|paths|, i requires 0 <= i < |paths| => index[paths[i]])
  }

  /** The selection holds each selected entry once, the root first, and nothing else. */
  ghost predicate IsSelection(entries: seq<Entry>, index: Index, requested: seq<Path>, selected: seq<Entry>) {
    && selected != [] && selected[0].path == [] && PathsDistinct(selected)
    && (forall i :: 0 <= i < |selected| ==> selected[i] in entries)
    && (forall p :: p in index ==> (IsSelected(index, requested, p) <==> HasPath(selected, p)))
    && (forall i :: 0 < i < |selected| ==> selected[i].path in index && selected[i] == index[selected[i].path])
  }

  ghost predicate HasPath(selected: seq<Entry>, p: Path) {
    exists i :: 0 <= i < |selected| && selected[i].path == p
  }

  /** `select_entries`. Without a request everything is selected; with one it succeeds exactly if every
      requested path is safe and known and everything to be selected is anchored in directories. */
  method SelectEntries(entries: seq<Entry>, requested: seq<Path>) returns (r: Result<seq<Entry>, RestoreError>, ghost index: Index)
    requires ValidEntries(entries)
    ensures Indexes(index, entries)
    ensures requested == [] ==> r == Ok(entries)
    ensures requested != [] ==> (r.Ok? <==> Answerable(index, requested))
    ensures requested != [] && r.Ok? ==> IsSelection(entries, index, requested, r.value)
    ensures r.Err? ==> r.error == BadRequest || r.error == BadDatabase
  {
    var byPath := BuildIndex(entries);
    index := byPath;
    if requested == [] {
      return Ok(entries), index;
    }
    var rootAt := 0;
    while entries[rootAt].path != []
      invariant 0 <= rootAt < |entries| && forall k :: 0 <= k < rootAt ==> entries[k].path != []
      decreases |entries| - rootAt
    {
      rootAt := rootAt + 1;
    }
    r := SelectRequested(entries, byPath, entries[rootAt], requested);
  }

  method SelectRequested(entries: seq<Entry>, index: Index, root: Entry, requested: seq<Path>) returns (r: Result<seq<Entry>, RestoreError>)
    requires Indexes(index, entries) && root in entries && root.path == []
    ensures r.Ok? <==> Answerable(index, requested)
    ensures r.Ok? ==> IsSelection(entries, index, requested, r.value)
    ensures r.Err? ==> r.error == BadRequest || r.error == BadDatabase
  {
    var named := NameRequested(index, requested);
    if named.Err? {
      return Err(named.error);
    }
    var keys := AddAllAncestors(index, named.value);
    if keys.Err? {
      return Err(keys.error);
    }
    AnchoredAreKnown(index, named.value, keys.value);
    var paths := InOrder(keys.value);
    var selected := [root] + Fetch(index, paths);
    SelectionIsRight(entries, index, requested, named.value, keys.value, paths, selected);
    return Ok(selected);
  }

  lemma AnchoredAreKnown(index: Index, named: set<Path>, keys: set<Path>)
    requires named <= index.Keys && forall q :: q in named ==> Anchored(index, q)
    requires keys == named + AncestorsOf(named)
    ensures keys <= index.Keys
  {
    forall p | p in AncestorsOf(named)
      ensures p in index
    {
      var q, n :| q in named && 0 < n < |q| && q[..n] == p;
      assert Anchored(index, q);
    }
  }

  lemma SelectionIsRight(entries: seq<Entry>, index: Index, requested: seq<Path>, named: set<Path>, keys: set<Path>, paths: seq<Path>, selected: seq<Entry>)
    requires Indexes(index, entries) && named == Named(index, requested)
    requires keys == named + AncestorsOf(named) && keys <= index.Keys
    requires (forall p :: p in paths <==> p in keys) && (forall i, j :: 0 <= i < j < |paths| ==> paths[i] != paths[j])
    requires |selected| == |paths| + 1 && selected[0] in entries && selected[0].path == []
    requires forall i :: 0 <= i < |paths| ==> paths[i] in index && selected[i + 1] == index[paths[i]]
    ensures IsSelection(entries, index, requested, selected)
  {
    forall i | 0 < i < |selected|
      ensures selected[i].path == paths[i - 1] && selected[i].path in index && selected[i] == index[selected[i].path]
    {
      assert selected[i] == index[paths[i - 1]];
    }
    forall p | p in index
      ensures IsSelected(index, requested, p) <==> HasPath(selected, p)
    {
      IsAncestorOf(named, p);
      assert IsSelected(index, requested, p) <==> p in keys;
      if p in keys {
        var i :| 0 <= i < |paths| && paths[i] == p;
        assert selected[i + 1].path == p;
      }
      if HasPath(selected, p) {
        var i :| 0 <= i < |selected| && selected[i].path == p;
        assert i > 0 ==> paths[i - 1] in keys;
      }
    }
  }

  // ----- the closure ---------------------------------------------------------------------------

  predicate Requested(requested: seq<Path>, p: Path) {
    exists k :: 0 <= k < |requested| && requested[k] == p
  }

  /** Selection closure: apart from the root, what is selected is exactly the requested entries, the
      descendants of requested directories, and the ancestors of requested entries. */
  lemma SelectionClosure(index: Index, requested: seq<Path>, p: Path)
    requires Answerable(index, requested) && p in index && p != []
    ensures IsSelected(index, requested, p) <==>
            || Requested(requested, p)
            || (exists r :: Requested(requested, r) && r in index && index[r].kind == Folder && Above(r, p))
            || (exists r :: Requested(requested, r) && Above(p, r))
  {
    if IsSelected(index, requested, p) {
      SelectedIsClosure(index, requested, p);
    }
    ClosureIsSelected(index, requested, p);
  }

  /** `r` at or above `q`, and `p` at or above `q`: one of `r` and `p` is at or above the other. */
  lemma Between(r: Path, p: Path, q: Path)
    requires AtOrAbove(r, q) && AtOrAbove(p, q)
    ensures |r| <= |p| ==> AtOrAbove(r, p)
    ensures |p| < |r| ==> Above(p, r)
    ensures |p| == |r| ==> p == r
  {
    if |r| <= |p| {
      assert p[..|r|] == q[..|p|][..|r|] == q[..|r|];
    } else {
      assert r[..|p|] == q[..|r|][..|p|] == q[..|p|];
    }
  }

  lemma SelectedIsClosure(index: Index, requested: seq<Path>, p: Path)
    requires p in index && p != [] && IsSelected(index, requested, p)
    ensures || Requested(requested, p)
            || (exists r :: Requested(requested, r) && r in index && index[r].kind == Folder && Above(r, p))
            || (exists r :: Requested(requested, r) && Above(p, r))
  {
    var q := p;
    if !Names(index, requested, p) {
      q :| q in index && Names(index, requested, q) && Above(p, q);
    }
    var k :| 0 <= k < |requested| && requested[k] in index && Covers(index, requested[k], q);
    var r := requested[k];
    assert Requested(requested, r);
    assert AtOrAbove(p, q) && AtOrAbove(q, q);
    Between(r, p, q);
  }

  lemma ClosureIsSelected(index: Index, requested: seq<Path>, p: Path)
    requires Answerable(index, requested) && p in index && p != []
    ensures Requested(requested, p) ==> IsSelected(index, requested, p)
    ensures (exists r :: Requested(requested, r) && r in index && index[r].kind == Folder && Above(r, p)) ==> IsSelected(index, requested, p)
    ensures (exists r :: Requested(requested, r) && Above(p, r)) ==> IsSelected(index, requested, p)
  {
    if r :| Requested(requested, r) && r in index && index[r].kind == Folder && Above(r, p) {
      var k :| 0 <= k < |requested| && requested[k] == r;
      assert Covers(index, requested[k], p);
    }
    if Requested(requested, p) {
      var k :| 0 <= k < |requested| && requested[k] == p;
      assert Covers(index, requested[k], p);
    }
    if r :| Requested(requested, r) && Above(p, r) {
      var k :| 0 <= k < |requested| && requested[k] == r;
      assert requested[k] in index && Covers(index, requested[k], r);
      assert Names(index, requested, r);
    }
  }

  /** Every selected entry of an answered request has all its ancestors selected, as directories. */
  lemma SelectedAreAnchored(index: Index, requested: seq<Path>, p: Path, n: nat)
    requires Answerable(index, requested) && p in index && IsSelected(index, requested, p) && 0 < n < |p|
    ensures p[..n] in index && index[p[..n]].kind == Folder && IsSelected(index, requested, p[..n])
  {
    var a, q := p[..n], p;
    if !Names(index, requested, p) {
      q :| q in index && Names(index, requested, q) && p != [] && Above(p, q);
    }
    assert q in Named(index, requested);
    assert Anchored(index, q);
    assert a == q[..n] && Above(a, q);
  }
}
