/** What the scan and the pipeline together give: the shape of every complete snapshot. */
module SnapshotShape {
  import opened Common
  import opened Pipeline
  import opened PipelinePublication
  import opened Scanning
  import Ignoring
  import M = Metadata
  import S = Selection
  import P = RestorePlan
  import Utf8
  import Exactness
  import W = SnapshotWriters

  function KindOf(e: Emission): Kind {
    if e.Entry? then e.kind else Warning
  }

  function Kinds(es: seq<Emission>): seq<Kind> {
    seq(|es|, i requires 0 <= i < |es| => KindOf(es[i]))
  }

  /** The row holds the directory that the entry `e` is in. */
  ghost predicate HoldsParent(es: seq<Emission>, row: Row, e: Emission) {
    row.kind == Directory && row.id < |es| && IsParent(es[row.id], e)
  }

  ghost predicate HasParentRow(es: seq<Emission>, rows: seq<Row>, e: Emission) {
    exists k :: 0 <= k < |rows| && HoldsParent(es, rows[k], e)
  }

  /** A row that is an entry is the scanner's entry of that number. */
  ghost predicate IsEntryRow(es: seq<Emission>, row: Row) {
    row.kind != Warning && row.id < |es| && es[row.id].Entry? && es[row.id].kind == row.kind
  }

  /** Rows that correspond to the scanner's emissions have one for the directory of each entry. */
  lemma ParentHasRow(es: seq<Emission>, rows: seq<Row>, j: nat)
    requires ExactlyOnce(Kinds(es), rows) && j < |es| && ParentBefore(es, j)
    ensures HasParentRow(es, rows, es[j])
  {
    var i :| 0 <= i < j && IsParent(es[i], es[j]);
    assert HasRow(rows, i);
    var m :| 0 <= m < |rows| && rows[m].id == i;
    assert MayBecome(Kinds(es)[i], rows[m].kind);
    assert HoldsParent(es, rows[m], es[j]);
  }

  /** A complete snapshot has exactly one root, and with every other entry the directory it is in: the
      pipeline may turn files into warnings, but never a directory. So its entry set is closed under
      ancestors, for every tree, every rule set and every run. */
  lemma CompleteSnapshotsAreClosed(c: Config, run: seq<Step>, s: State, o: Options, root: Node)
    requires c.Valid() && Reaches(c, run, s) && s.f.status == Complete && c.plan == Kinds(ScanStreaming(o, root))
    ensures var es, rows := ScanStreaming(o, root), s.d.committed;
            && (exists k :: 0 <= k < |rows| && rows[k].id == 0 && rows[k].kind == Directory)
            && (forall k, l :: 0 <= k < |rows| && 0 <= l < |rows| && rows[k].id == rows[l].id ==> k == l)
            && forall k :: 0 <= k < |rows| && rows[k].kind != Warning ==>
                 IsEntryRow(es, rows[k]) && (es[rows[k].id].at == [] <==> rows[k].id == 0) && (rows[k].id > 0 ==> HasParentRow(es, rows, es[rows[k].id]))
  {
    PublicationSafety(c, run, s);
    var es, rows := ScanStreaming(o, root), s.d.committed;
    ScanParentsFirst(o, root);
    assert HasRow(rows, 0);
    forall k | 0 <= k < |rows| && rows[k].kind != Warning
      ensures IsEntryRow(es, rows[k]) && (es[rows[k].id].at == [] <==> rows[k].id == 0)
      ensures rows[k].id > 0 ==> HasParentRow(es, rows, es[rows[k].id])
    {
      var j := rows[k].id;
      assert MayBecome(c.plan[j], rows[k].kind);
      if j > 0 {
        ParentHasRow(es, rows, j);
      }
    }
  }

  /** The row is about the place. */
  ghost predicate IsAbout(es: seq<Emission>, row: Row, at: seq<nat>) {
    row.id < |es| && es[row.id].at == at
  }

  ghost predicate HasRowAbout(es: seq<Emission>, rows: seq<Row>, at: seq<nat>, kind: Kind) {
    exists k :: 0 <= k < |rows| && IsAbout(es, rows[k], at) && MayBecome(kind, rows[k].kind)
  }

  lemma EmissionHasRow(es: seq<Emission>, rows: seq<Row>, e: Emission)
    requires ExactlyOnce(Kinds(es), rows) && e in es
    ensures HasRowAbout(es, rows, e.at, KindOf(e))
  {
    var j :| 0 <= j < |es| && es[j] == e;
    assert HasRow(rows, j);
    var k :| 0 <= k < |rows| && rows[k].id == j;
    assert MayBecome(Kinds(es)[j], rows[k].kind);
  }

  /** Nothing is left out of a complete snapshot without a trace: of every node that the scan finds there is
      a row, of the entry it is captured as or, for a file that could not be read stably and for what could
      not be captured, of a warning; but for those that are ignored, or hidden where hidden ones are. */
  lemma NothingIsLeftOut(c: Config, run: seq<Step>, s: State, o: Options, root: Node, at: seq<nat>, node: Node, path: Bytes)
    requires c.Valid() && Reaches(c, run, s) && s.f.status == Complete && c.plan == Kinds(ScanStreaming(o, root))
    requires Found(o, root, [], at, node, path) && !PassedOver(o, node, path)
    ensures var es, rows := ScanStreaming(o, root), s.d.committed;
            if exists kind :: CapturedAs(o, node, path, kind) then exists kind :: CapturedAs(o, node, path, kind) && HasRowAbout(es, rows, at, kind)
            else HasRowAbout(es, rows, at, Warning)
  {
    PublicationSafety(c, run, s);
    NothingIsLost(o, root, at, node, path);
    var es, rows := ScanStreaming(o, root), s.d.committed;
    if kind :| CapturedAs(o, node, path, kind) {
      ScanIsExact(o, root, at, path, kind);
      FoundIsCaptured(o, root, [], at, node, path, kind);
      EmissionHasRow(es, rows, Entry(at, path, kind));
    } else {
      NotCapturedIsWarned(o, root, at, node, path);
      var p, code :| Warns(es, at, p, code);
      EmissionHasRow(es, rows, Note(at, p, code));
    }
  }

  lemma NoOtherVerdict(v: Verdict)
    ensures v != Silent && (forall kind: Kind :: v != Taken(kind)) ==> v.Noted?
  {
    assert v.Taken? ==> v == Taken(v.kind);
  }

  lemma NotCapturedIsWarned(o: Options, root: Node, at: seq<nat>, node: Node, path: Bytes)
    requires Found(o, root, [], at, node, path) && !PassedOver(o, node, path) && forall kind: Kind :: !CapturedAs(o, node, path, kind)
    ensures exists p, code :: Warns(ScanStreaming(o, root), at, p, code)
  {
    JudgeMeaning(o, node, path);
    var v := Judge(o, node, path);
    NoOtherVerdict(v);
    assert Warrants(o, node, path, v.path, v.code);
    WarningsAreExact(o, root, at, v.path, v.code);
    assert Warns(ScanStreaming(o, root), at, v.path, v.code);
  }

  // ----- paths ---------------------------------------------------------------------------------

  /** What the system allows as a name in a directory. */
  predicate GoodName(name: Bytes) {
    name != [] && name != S.DOT && name != S.DOT_DOT && !Ignoring.HasSlash(name)
  }

  /** Good names everywhere, and no name twice in a directory. */
  predicate GoodTree(dir: Node) {
    && (forall i :: 0 <= i < |dir.children| ==> GoodName(dir.children[i].name) && GoodTree(dir.children[i]))
    && (forall i, j :: 0 <= i < j < |dir.children| ==> dir.children[i].name != dir.children[j].name)
  }

  predicate InTree(dir: Node, at: seq<nat>) {
    at == [] || (at[0] < |dir.children| && InTree(dir.children[at[0]], at[1..]))
  }

  /** The names on the way to a place. */
  function NamesAt(dir: Node, at: seq<nat>): (names: seq<Bytes>)
    requires InTree(dir, at)
    ensures |names| == |at|
  {
    if at == [] then [] else [dir.children[at[0]].name] + NamesAt(dir.children[at[0]], at[1..])
  }

  function JoinAll(path: Bytes, names: seq<Bytes>): Bytes
    decreases |names|
  {
    if names == [] then path else JoinAll(Join(path, names[0]), names[1..])
  }

  /** A captured place is in the tree, its path is made of the names on the way, and everything on the way
      is captured as a directory. */
  lemma {:induction false} CapturedPath(o: Options, dir: Node, path: Bytes, at: seq<nat>, path': Bytes, kind: Kind)
    requires Captured(o, dir, path, at, path', kind)
    ensures InTree(dir, at) && path' == JoinAll(path, NamesAt(dir, at))
    decreases |at|
  {
    if |at| > 1 {
      var node := dir.children[at[0]];
      CapturedPath(o, node, Join(path, node.name), at[1..], path', kind);
    } else {
      assert at[1..] == [] && NamesAt(dir, at) == [dir.children[at[0]].name];
    }
  }

  lemma {:induction false} CapturedAncestor(o: Options, dir: Node, path: Bytes, at: seq<nat>, path': Bytes, kind: Kind, n: nat)
    requires Captured(o, dir, path, at, path', kind) && 0 < n < |at| && InTree(dir, at[..n])
    ensures Captured(o, dir, path, at[..n], JoinAll(path, NamesAt(dir, at[..n])), Directory)
    decreases |at|
  {
    var node := dir.children[at[0]];
    assert at[..n][1..] == at[1..][..n - 1] && at[..n][0] == at[0];
    if n > 1 {
      CapturedAncestor(o, node, Join(path, node.name), at[1..], path', kind, n - 1);
    } else {
      assert NamesAt(dir, at[..n]) == [node.name];
    }
  }

  lemma {:induction false} CapturedAsOneKind(o: Options, dir: Node, path: Bytes, at: seq<nat>, a: Bytes, b: Bytes, kind: Kind, other: Kind)
    requires Captured(o, dir, path, at, a, kind) && Captured(o, dir, path, at, b, other)
    ensures kind == other
    decreases |at|
  {
    if |at| > 1 {
      var node := dir.children[at[0]];
      CapturedAsOneKind(o, node, Join(path, node.name), at[1..], a, b, kind, other);
    }
  }

  lemma {:induction false} PrefixInTree(dir: Node, at: seq<nat>, n: nat)
    requires InTree(dir, at) && n <= |at|
    ensures InTree(dir, at[..n]) && NamesAt(dir, at[..n]) == NamesAt(dir, at)[..n]
    decreases |at|
  {
    if n > 0 {
      assert at[..n][1..] == at[1..][..n - 1] && at[..n][0] == at[0];
      PrefixInTree(dir.children[at[0]], at[1..], n - 1);
    }
  }

  /** Different places have different names on the way. */
  lemma {:induction false} SameNamesSamePlace(dir: Node, a: seq<nat>, b: seq<nat>)
    requires GoodTree(dir) && InTree(dir, a) && InTree(dir, b) && NamesAt(dir, a) == NamesAt(dir, b)
    ensures a == b
    decreases |a|
  {
    if a != [] {
      assert NamesAt(dir, a)[0] == dir.children[a[0]].name && NamesAt(dir, b)[0] == dir.children[b[0]].name;
      assert NamesAt(dir, a)[1..] == NamesAt(dir.children[a[0]], a[1..]);
      assert NamesAt(dir, b)[1..] == NamesAt(dir.children[b[0]], b[1..]);
      assert a[0] == b[0];
      SameNamesSamePlace(dir.children[a[0]], a[1..], b[1..]);
      assert a == [a[0]] + a[1..] && b == [b[0]] + b[1..];
    }
  }

  lemma {:induction false} NamesAreGood(dir: Node, at: seq<nat>)
    requires GoodTree(dir) && InTree(dir, at)
    ensures forall i :: 0 <= i < |at| ==> GoodName(NamesAt(dir, at)[i])
    decreases |at|
  {
    if at != [] {
      NamesAreGood(dir.children[at[0]], at[1..]);
    }
  }

  // ----- stored paths and their components -----------------------------------------------------

  /** `longer` is the path with a separator and the name behind it. */
  predicate Extends(longer: Bytes, path: Bytes, name: Bytes) {
    && |longer| == |path| + 1 + |name| && longer[|path|] == Ignoring.SLASH
    && (forall x :: 0 <= x < |path| ==> longer[x] == path[x])
    && (forall x :: |path| < x < |longer| ==> longer[x] == name[x - |path| - 1])
  }

  lemma {:induction false} EndStays(longer: Bytes, path: Bytes, name: Bytes, from: nat)
    requires Extends(longer, path, name) && from <= |path|
    ensures Ignoring.ComponentEnd(longer, from) == Ignoring.ComponentEnd(path, from)
    decreases |path| - from
  {
    if from < |path| && path[from] != Ignoring.SLASH {
      EndStays(longer, path, name, from + 1);
    }
  }

  lemma LastPart(longer: Bytes, path: Bytes, name: Bytes)
    requires Extends(longer, path, name) && !Ignoring.HasSlash(name)
    ensures Ignoring.AreComponents(longer, |path| + 1, [name])
  {
    Ignoring.NoSeparatorFrom(longer, |path| + 1);
    assert longer[|path| + 1..|longer|] == name;
  }

  /** A name appended is a component more. */
  lemma {:induction false} OneMorePart(longer: Bytes, path: Bytes, name: Bytes, from: nat, parts: seq<Bytes>)
    requires Extends(longer, path, name) && !Ignoring.HasSlash(name) && from <= |path| && Ignoring.AreComponents(path, from, parts)
    ensures Ignoring.AreComponents(longer, from, parts + [name])
    decreases |path| - from
  {
    var end := Ignoring.ComponentEnd(path, from);
    EndStays(longer, path, name, from);
    assert longer[from..end] == path[from..end];
    if end < |path| {
      OneMorePart(longer, path, name, end + 1, parts[1..]);
      assert (parts + [name])[1..] == parts[1..] + [name];
    } else {
      LastPart(longer, path, name);
      assert (parts + [name])[1..] == [name];
    }
  }

  lemma {:induction false} OnlyComponents(path: Bytes, from: nat, parts: seq<Bytes>)
    requires from <= |path| && Ignoring.AreComponents(path, from, parts)
    ensures parts == Ignoring.Components(path, from)
    decreases |path| - from
  {
    var end := Ignoring.ComponentEnd(path, from);
    Ignoring.FirstComponent(path, from);
    if end < |path| {
      OnlyComponents(path, end + 1, parts[1..]);
    }
    assert parts == [parts[0]] + parts[1..];
  }

  lemma JoinedComponents(longer: Bytes, path: Bytes, name: Bytes, parts: seq<Bytes>)
    requires Extends(longer, path, name) && !Ignoring.HasSlash(name) && parts == Ignoring.Components(path, 0)
    ensures parts + [name] == Ignoring.Components(longer, 0)
  {
    Ignoring.ComponentsAreThey(path, 0);
    OneMorePart(longer, path, name, 0, parts);
    OnlyComponents(longer, 0, parts + [name]);
  }

  lemma JoinExtends(path: Bytes, name: Bytes)
    requires path != []
    ensures Extends(Join(path, name), path, name)
  {
  }

  /** A stored path as readers take it apart; the root's is empty. */
  function SplitPath(path: Bytes): S.Path {
    if path == [] then [] else Ignoring.Components(path, 0)
  }

  lemma OneJoined(path: Bytes, name: Bytes)
    requires GoodName(name)
    ensures SplitPath(Join(path, name)) == SplitPath(path) + [name]
  {
    if path == [] {
      Ignoring.NoSeparatorFrom(name, 0);
      assert name[0..] == name;
    } else {
      JoinExtends(path, name);
      JoinedComponents(Join(path, name), path, name, Ignoring.Components(path, 0));
    }
  }

  lemma {:induction false} JoinedAndSplit(path: Bytes, names: seq<Bytes>)
    requires forall i :: 0 <= i < |names| ==> GoodName(names[i])
    ensures SplitPath(JoinAll(path, names)) == SplitPath(path) + names
    decreases |names|
  {
    if names == [] {
      assert SplitPath(path) + names == SplitPath(path);
    } else {
      OneJoined(path, names[0]);
      JoinedAndSplit(Join(path, names[0]), names[1..]);
      FirstAndRest(SplitPath(path), names);
    }
  }

  lemma FirstAndRest(before: seq<Bytes>, names: seq<Bytes>)
    requires names != []
    ensures before + [names[0]] + names[1..] == before + names
  {
  }

  /** Everything captured is stored under a path that is valid text. */
  lemma {:induction false} CapturedIsValid(o: Options, dir: Node, path: Bytes, at: seq<nat>, path': Bytes, kind: Kind)
    requires Captured(o, dir, path, at, path', kind)
    ensures Utf8.Valid(path')
    decreases |at|
  {
    var node := dir.children[at[0]];
    var below := Join(path, node.name);
    if |at| > 1 {
      CapturedIsValid(o, node, below, at[1..], path', kind);
    } else {
      JudgeMeaning(o, node, below);
    }
  }

  /** The path of a scanned entry, taken apart, is the names on the way to it, and safe. */
  lemma EntryPath(o: Options, root: Node, e: Emission)
    requires GoodTree(root) && e.Entry? && e in ScanStreaming(o, root)
    ensures InTree(root, e.at) && SplitPath(e.path) == NamesAt(root, e.at)
    ensures e.at != [] ==> Captured(o, root, [], e.at, e.path, e.kind) && S.SafePath(SplitPath(e.path))
    ensures e.at == [] ==> e.path == [] && e.kind == Directory
  {
    ScanIsExact(o, root, e.at, e.path, e.kind);
    if e.at != [] {
      CapturedPath(o, root, [], e.at, e.path, e.kind);
      CapturedIsValid(o, root, [], e.at, e.path, e.kind);
      NamesAreGood(root, e.at);
      JoinedAndSplit([], NamesAt(root, e.at));
      assert SplitPath([]) + NamesAt(root, e.at) == NamesAt(root, e.at);
      PartsAreValid(e.path);
    }
  }

  lemma PartsAreValid(path: Bytes)
    requires Utf8.Valid(path)
    ensures forall i :: 0 <= i < |SplitPath(path)| ==> Utf8.Valid(SplitPath(path)[i])
  {
    Exactness.ComponentsAreValid(path, 0);
    forall i | 0 <= i < |SplitPath(path)|
      ensures Utf8.Valid(SplitPath(path)[i])
    {
      Utf8.ValidIffWellFormed(SplitPath(path)[i]);
    }
  }

  /** The two entries lie one above the other in the tree: the upper one is a directory. */
  lemma AboveIsDirectory(o: Options, root: Node, upper: Emission, lower: Emission)
    requires GoodTree(root) && upper.Entry? && lower.Entry? && upper in ScanStreaming(o, root) && lower in ScanStreaming(o, root)
    requires S.Above(SplitPath(upper.path), SplitPath(lower.path))
    ensures upper.kind == Directory
  {
    EntryPath(o, root, upper);
    EntryPath(o, root, lower);
    if upper.at != [] {
      var n := |upper.at|;
      PrefixInTree(root, lower.at, n);
      SameNamesSamePlace(root, upper.at, lower.at[..n]);
      CapturedAncestor(o, root, [], lower.at, lower.path, lower.kind, n);
      CapturedAsOneKind(o, root, [], upper.at, upper.path, JoinAll([], NamesAt(root, upper.at)), upper.kind, Directory);
    }
  }

  /** What readers list of a snapshot: an entry for each row that is one. */
  ghost predicate Lists(es: seq<Emission>, rows: seq<Row>, of: seq<nat>, entries: seq<S.Entry>) {
    && |of| == |entries| && (forall i, j :: 0 <= i < j < |of| ==> of[i] != of[j])
    && (forall i :: 0 <= i < |of| ==> of[i] < |rows| && ListsRow(es, rows[of[i]], entries[i]))
    && (forall k :: 0 <= k < |rows| && rows[k].kind != Warning ==> k in of)
  }

  ghost predicate ListsRow(es: seq<Emission>, row: Row, entry: S.Entry) {
    IsEntryRow(es, row) && entry.path == SplitPath(es[row.id].path) && W.KindOf(entry.kind) == row.kind
  }

  lemma {:induction false} CountedAt(es: seq<Emission>, x: nat)
    requires x < |es| && es[x].Entry?
    ensures Count(es, es[x].at, true) >= 1
  {
    if x > 0 {
      CountedAt(es[1..], x - 1);
    }
  }

  /** No place is emitted under two numbers. */
  lemma OnePlaceOneNumber(o: Options, root: Node, x: nat, y: nat)
    requires x < y < |ScanStreaming(o, root)| && ScanStreaming(o, root)[x].Entry? && ScanStreaming(o, root)[y].Entry?
    ensures ScanStreaming(o, root)[x].at != ScanStreaming(o, root)[y].at
  {
    var es := ScanStreaming(o, root);
    assert es == es[..y] + es[y..];
    CountOfConcat(es[..y], es[y..], es[x].at, true);
    CountedAt(es[..y], x);
    CountedAt(es[y..], 0);
    ScanIsOnce(o, root, es[x].at);
  }

  /** Different rows are listed under different paths. */
  lemma RowsDiffer(o: Options, root: Node, row: Row, other: Row, entry: S.Entry, another: S.Entry)
    requires GoodTree(root) && ListsRow(ScanStreaming(o, root), row, entry) && ListsRow(ScanStreaming(o, root), other, another)
    requires row.id != other.id
    ensures entry.path != another.path
  {
    var es := ScanStreaming(o, root);
    EntryPath(o, root, es[row.id]);
    EntryPath(o, root, es[other.id]);
    if entry.path == another.path {
      SameNamesSamePlace(root, es[row.id].at, es[other.id].at);
      OnePlaceOneNumber(o, root, if row.id < other.id then row.id else other.id, if row.id < other.id then other.id else row.id);
    }
  }

  lemma ListedDistinct(o: Options, root: Node, rows: seq<Row>, of: seq<nat>, entries: seq<S.Entry>)
    requires GoodTree(root) && Lists(ScanStreaming(o, root), rows, of, entries)
    requires forall k, l :: 0 <= k < |rows| && 0 <= l < |rows| && rows[k].id == rows[l].id ==> k == l
    ensures S.PathsDistinct(entries)
  {
    var es := ScanStreaming(o, root);
    forall i, j | 0 <= i < j < |entries|
      ensures entries[i].path != entries[j].path
    {
      assert ListsRow(es, rows[of[i]], entries[i]) && ListsRow(es, rows[of[j]], entries[j]);
      RowsDiffer(o, root, rows[of[i]], rows[of[j]], entries[i], entries[j]);
    }
  }

  /** Where a row that is an entry is listed. */
  lemma RowIsListed(es: seq<Emission>, rows: seq<Row>, of: seq<nat>, entries: seq<S.Entry>, k: nat) returns (i: nat)
    requires Lists(es, rows, of, entries) && k < |rows| && rows[k].kind != Warning
    ensures i < |entries| && of[i] == k && ListsRow(es, rows[k], entries[i])
  {
    assert k in of;
    i :| 0 <= i < |of| && of[i] == k;
    assert ListsRow(es, rows[of[i]], entries[i]);
  }

  lemma ParentIsListed(o: Options, root: Node, rows: seq<Row>, of: seq<nat>, entries: seq<S.Entry>, i: nat)
    requires GoodTree(root) && Lists(ScanStreaming(o, root), rows, of, entries) && i < |entries| && entries[i].path != []
    requires HasParentRow(ScanStreaming(o, root), rows, ScanStreaming(o, root)[rows[of[i]].id])
    ensures P.Listed(entries, entries[i].path[..|entries[i].path| - 1])
  {
    var es := ScanStreaming(o, root);
    assert ListsRow(es, rows[of[i]], entries[i]);
    var e := es[rows[of[i]].id];
    var k :| 0 <= k < |rows| && HoldsParent(es, rows[k], e);
    var x := RowIsListed(es, rows, of, entries, k);
    EntryPath(o, root, e);
    EntryPath(o, root, es[rows[k].id]);
    PrefixInTree(root, e.at, |e.at| - 1);
    assert entries[x].path == entries[i].path[..|entries[i].path| - 1];
  }

  /** A listed entry is the root, a directory, or has a safe path. */
  lemma ListedIsSafe(o: Options, root: Node, row: Row, entry: S.Entry)
    requires GoodTree(root) && ListsRow(ScanStreaming(o, root), row, entry)
    ensures entry.path == [] <==> ScanStreaming(o, root)[row.id].at == []
    ensures if entry.path == [] then entry.kind == M.Folder else S.SafePath(entry.path)
  {
    EntryPath(o, root, ScanStreaming(o, root)[row.id]);
  }

  lemma ListedAreValid(o: Options, root: Node, rows: seq<Row>, of: seq<nat>, entries: seq<S.Entry>, k: nat)
    requires GoodTree(root) && Lists(ScanStreaming(o, root), rows, of, entries) && S.PathsDistinct(entries)
    requires k < |rows| && rows[k].id == 0 && rows[k].kind == Directory
    ensures S.ValidEntries(entries)
  {
    var es := ScanStreaming(o, root);
    forall i | 0 <= i < |entries|
      ensures if entries[i].path == [] then entries[i].kind == M.Folder else S.SafePath(entries[i].path)
    {
      assert ListsRow(es, rows[of[i]], entries[i]);
      ListedIsSafe(o, root, rows[of[i]], entries[i]);
    }
    var x := RowIsListed(es, rows, of, entries, k);
    ListedIsSafe(o, root, rows[k], entries[x]);
    ScanParentsFirst(o, root);
    assert entries[x].path == [];
  }

  lemma ListedAbove(o: Options, root: Node, rows: seq<Row>, of: seq<nat>, entries: seq<S.Entry>)
    requires GoodTree(root) && Lists(ScanStreaming(o, root), rows, of, entries)
    ensures P.AncestorsAreFolders(entries)
  {
    var es := ScanStreaming(o, root);
    forall i, k | 0 <= i < |entries| && 0 <= k < |entries| && S.Above(entries[k].path, entries[i].path)
      ensures entries[k].kind == M.Folder
    {
      assert ListsRow(es, rows[of[i]], entries[i]) && ListsRow(es, rows[of[k]], entries[k]);
      AboveIsDirectory(o, root, es[rows[of[k]].id], es[rows[of[i]].id]);
    }
  }

  /** The entries of a complete snapshot are what a restore relies on: one root, a directory; safe and
      distinct paths; nothing but directories above anything; and every parent there. */
  lemma CompleteSnapshotsCanBeRestored(c: Config, run: seq<Step>, s: State, o: Options, root: Node, of: seq<nat>, entries: seq<S.Entry>)
    requires c.Valid() && Reaches(c, run, s) && s.f.status == Complete && c.plan == Kinds(ScanStreaming(o, root))
    requires GoodTree(root) && Lists(ScanStreaming(o, root), s.d.committed, of, entries)
    ensures S.PathsDistinct(entries) && S.ValidEntries(entries) && P.AncestorsAreFolders(entries) && P.ParentsListed(entries)
  {
    var es, rows := ScanStreaming(o, root), s.d.committed;
    CompleteSnapshotsAreClosed(c, run, s, o, root);
    ListedDistinct(o, root, rows, of, entries);
    var k :| 0 <= k < |rows| && rows[k].id == 0 && rows[k].kind == Directory;
    ListedAreValid(o, root, rows, of, entries, k);
    ListedAbove(o, root, rows, of, entries);
    forall i | 0 <= i < |entries| && entries[i].path != []
      ensures P.Listed(entries, entries[i].path[..|entries[i].path| - 1])
    {
      assert ListsRow(es, rows[of[i]], entries[i]);
      ListedIsSafe(o, root, rows[of[i]], entries[i]);
      ParentIsListed(o, root, rows, of, entries, i);
    }
  }
}
