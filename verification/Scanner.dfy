/** The recursive scan: what it emits, in which order, and what it never enters. */
module Scanning {
  import opened Common
  import opened Pipeline
  import Ignoring
  import Utf8

  datatype FileStatus = IsRegular | IsDirectory | IsSymlink | IsOther

  datatype Reparse = NoReparse | ReparseSymlink | Junction | MountPoint | OtherReparse

  datatype Platform = Platform(reparse: Reparse, hidden: bool, placeholder: bool, identity: nat)

  /** A filesystem node as the scan finds it: what reading its status, its platform facts, its metadata
      and its link target yields, and, for a directory, its children in enumeration order, whether it
      can be opened at all, and after which child, if any, the enumeration fails. */
  datatype Node = Node(name: Bytes, status: Option<FileStatus>, platform: Option<Platform>, metadata: bool, target: Option<Bytes>,
                       openable: bool, children: seq<Node>, breaksAfter: Option<nat>)

  /** `ignores` is the verdict of the ignore rules on a path, given whether it is directory-like. */
  datatype Options = Options(includeHidden: bool, oneFileSystem: bool, rootIdentity: nat, ignores: (Bytes, bool) -> bool)

  datatype Code =
    | PathEncoding | InspectionFailed | MetadataUnavailable | CloudPlaceholder | VolumeMountPoint
    | UnsupportedReparse | FilesystemBoundary | UnsupportedType | TargetUnavailable | EnumerationFailed

  /** What the scan hands to its callbacks: entries and warnings. `at` is the place in the tree that it is
      about: the child indices from the root. */
  datatype Emission = Entry(at: seq<nat>, path: Bytes, kind: Kind) | Note(at: seq<nat>, path: Bytes, code: Code)

  datatype EntryKind = Ordinary | LinkEntry | JunctionEntry | MountPointEntry | UnsupportedEntry

  datatype Decision = Skip | WarnAndSkip(code: Code) | CaptureAsLink | Capture

  datatype Verdict = Silent | Noted(path: Bytes, code: Code) | Taken(kind: Kind)

  function Join(parent: Bytes, name: Bytes): Bytes {
    if parent == [] then name else parent + [Ignoring.SLASH] + name
  }

  function ScanEntryKind(status: FileStatus, p: Platform): EntryKind {
    match p.reparse
    case ReparseSymlink => LinkEntry
    case Junction => JunctionEntry
    case MountPoint => MountPointEntry
    case OtherReparse => UnsupportedEntry
    case NoReparse => if status == IsSymlink then LinkEntry else Ordinary
  }

  function DecideScanEntry(o: Options, kind: EntryKind, p: Platform): Decision {
    if !o.includeHidden && p.hidden then Skip
    else if p.placeholder then WarnAndSkip(CloudPlaceholder)
    else if kind == MountPointEntry then WarnAndSkip(VolumeMountPoint)
    else if kind == UnsupportedEntry then WarnAndSkip(UnsupportedReparse)
    else if o.oneFileSystem && p.identity != o.rootIdentity then WarnAndSkip(FilesystemBoundary)
    else if kind == LinkEntry || kind == JunctionEntry then CaptureAsLink
    else Capture
  }

  function ScanEntry(node: Node, status: FileStatus, path: Bytes, asLink: bool): Verdict {
    if !(asLink || status == IsSymlink) && status == IsOther then Noted(path, UnsupportedType)
    else if !node.metadata then Noted(path, MetadataUnavailable)
    else if asLink || status == IsSymlink then
      if node.target == None then Noted(path, TargetUnavailable)
      else if !Utf8.Valid(node.target.value) then Noted(path, PathEncoding)
      else Taken(SymbolicLink)
    else Taken(if status == IsRegular then RegularFile else Directory)
  }

  predicate DirectoryLike(status: FileStatus, kind: EntryKind) {
    status == IsDirectory || kind == JunctionEntry || kind == MountPointEntry
  }

  /** What becomes of one node, before anything below it. */
  function Judge(o: Options, node: Node, path: Bytes): Verdict {
    if !Utf8.Valid(path) then Noted([], PathEncoding)
    else if node.status == None then Noted(path, InspectionFailed)
    else if node.platform == None then Noted(path, MetadataUnavailable)
    else
      var status, platform := node.status.value, node.platform.value;
      var kind := ScanEntryKind(status, platform);
      if o.ignores(path, DirectoryLike(status, kind)) then Silent
      else
        match DecideScanEntry(o, kind, platform)
        case Skip => Silent
        case WarnAndSkip(code) => Noted(path, code)
        case CaptureAsLink => ScanEntry(node, status, path, true)
        case Capture => ScanEntry(node, status, path, false)
  }

  /** The path is valid, and the node's status and platform facts can be read. */
  predicate Inspected(node: Node, path: Bytes) {
    Utf8.Valid(path) && node.status.Some? && node.platform.Some?
  }

  /** A directory for the ignore rules: also what a junction or a mount point stands for. */
  predicate CountsAsDirectory(node: Node)
    requires node.status.Some? && node.platform.Some?
  {
    node.status.value == IsDirectory || node.platform.value.reparse == Junction || node.platform.value.reparse == MountPoint
  }

  /** Ignored by the rules, or hidden where hidden entries are left out: passed over without a word. */
  predicate PassedOver(o: Options, node: Node, path: Bytes) {
    Inspected(node, path) && (o.ignores(path, CountsAsDirectory(node)) || (node.platform.value.hidden && !o.includeHidden))
  }

  /** A symbolic link, or a junction, which is captured like one. */
  predicate LinkLike(node: Node)
    requires node.status.Some? && node.platform.Some?
  {
    || node.platform.value.reparse == ReparseSymlink || node.platform.value.reparse == Junction
    || (node.platform.value.reparse == NoReparse && node.status.value == IsSymlink)
  }

  predicate Considered(o: Options, node: Node, path: Bytes) {
    Inspected(node, path) && !PassedOver(o, node, path)
  }

  /** Neither a placeholder nor a mount point nor of an unknown kind nor, where the scan stays on one
      filesystem, on another. */
  predicate Within(o: Options, p: Platform) {
    !p.placeholder && p.reparse != MountPoint && p.reparse != OtherReparse && (o.oneFileSystem ==> p.identity == o.rootIdentity)
  }

  /** The node cannot be captured, for the reason `code`. */
  predicate Refused(o: Options, node: Node, path: Bytes, code: Code) {
    match code
    case PathEncoding =>
      || !Utf8.Valid(path)
      || (Considered(o, node, path) && Within(o, node.platform.value) && LinkLike(node) && node.metadata
          && node.target.Some? && !Utf8.Valid(node.target.value))
    case InspectionFailed => Utf8.Valid(path) && node.status == None
    case MetadataUnavailable =>
      || (Utf8.Valid(path) && node.status.Some? && node.platform == None)
      || (Considered(o, node, path) && Within(o, node.platform.value) && !node.metadata && (LinkLike(node) || node.status.value != IsOther))
    case CloudPlaceholder => Considered(o, node, path) && node.platform.value.placeholder
    case VolumeMountPoint => Considered(o, node, path) && !node.platform.value.placeholder && node.platform.value.reparse == MountPoint
    case UnsupportedReparse => Considered(o, node, path) && !node.platform.value.placeholder && node.platform.value.reparse == OtherReparse
    case FilesystemBoundary =>
      && Considered(o, node, path) && !node.platform.value.placeholder && node.platform.value.reparse != MountPoint
      && node.platform.value.reparse != OtherReparse && o.oneFileSystem && node.platform.value.identity != o.rootIdentity
    case UnsupportedType => Considered(o, node, path) && Within(o, node.platform.value) && !LinkLike(node) && node.status.value == IsOther
    case TargetUnavailable => Considered(o, node, path) && Within(o, node.platform.value) && LinkLike(node) && node.metadata && node.target == None
    case EnumerationFailed => false
  }

  /** The node is captured as `kind`: directories and files only if no reparse point is involved; links and
      junctions as links, if their target can be stored. */
  predicate CapturedAs(o: Options, node: Node, path: Bytes, kind: Kind) {
    && Considered(o, node, path) && Within(o, node.platform.value) && node.metadata
    && match kind
       case Directory => node.status.value == IsDirectory && node.platform.value.reparse == NoReparse
       case RegularFile => node.status.value == IsRegular && node.platform.value.reparse == NoReparse
       case SymbolicLink => LinkLike(node) && node.target.Some? && Utf8.Valid(node.target.value)
       case Warning => false
  }

  /** Exactly which nodes are captured, and as what; which are refused, and why; and which are passed over.
      Whatever is refused is refused under its path, if that can be stored. */
  lemma JudgeMeaning(o: Options, node: Node, path: Bytes)
    ensures forall kind: Kind :: Judge(o, node, path) == Taken(kind) <==> CapturedAs(o, node, path, kind)
    ensures forall p, code :: Judge(o, node, path) == Noted(p, code) <==>
              p == (if Utf8.Valid(path) then path else []) && Refused(o, node, path, code)
    ensures Judge(o, node, path) == Silent <==> PassedOver(o, node, path)
  {
    if Inspected(node, path) {
      DirectoryLikeMeaning(node);
    }
  }

  lemma DirectoryLikeMeaning(node: Node)
    requires node.status.Some? && node.platform.Some?
    ensures DirectoryLike(node.status.value, ScanEntryKind(node.status.value, node.platform.value)) <==> CountsAsDirectory(node)
  {
  }

  // ----- the whole scan as a function ----------------------------------------------------------

  function ScanDirectory(o: Options, dir: Node, path: Bytes, at: seq<nat>): seq<Emission>
    decreases dir, 1, 0
  {
    if !dir.openable then [Note(at, path, EnumerationFailed)] else ScanFrom(o, dir, path, at, 0)
  }

  function ScanFrom(o: Options, dir: Node, path: Bytes, at: seq<nat>, i: nat): seq<Emission>
    decreases dir, 0, |dir.children| - i
  {
    if i >= |dir.children| then []
    else
      ScanNode(o, dir.children[i], Join(path, dir.children[i].name), at + [i]) +
      if dir.breaksAfter == Some(i) then [Note(at, path, EnumerationFailed)] else ScanFrom(o, dir, path, at, i + 1)
  }

  function ScanNode(o: Options, node: Node, path: Bytes, at: seq<nat>): seq<Emission>
    decreases node, 2, 0
  {
    match Judge(o, node, path)
    case Silent => []
    case Noted(p, code) => [Note(at, p, code)]
    case Taken(kind) => [Entry(at, path, kind)] + if kind == Directory then ScanDirectory(o, node, path, at) else []
  }

  /** `scan_streaming` below a root that can be captured. */
  function ScanStreaming(o: Options, root: Node): seq<Emission> {
    [Entry([], [], Directory)] + ScanDirectory(o, root, [], [])
  }

  predicate Remaining(emitted: seq<Emission>, rest: seq<Emission>, all: seq<Emission>) {
    emitted + rest == all
  }

  lemma ChildEmitted(sofar: seq<Emission>, child: seq<Emission>, emitted: seq<Emission>, rest: seq<Emission>, all: seq<Emission>)
    requires Remaining(sofar, child + rest, all) && emitted == sofar + child
    ensures Remaining(emitted, rest, all)
  {
    assert sofar + child + rest == sofar + (child + rest);
  }

  /** The scanner as the loop with callbacks that it is. A stop request ends it by an error. */
  class FileScanner {
    const o: Options
    var emitted: seq<Emission>
    var patience: Budget

    constructor (o: Options, patience: Budget)
      ensures this.o == o && emitted == [] && this.patience == patience
    {
      this.o, emitted, this.patience := o, [], patience;
    }

    method StopSeen() returns (stop: bool)
      modifies this`patience
      ensures old(patience) == None ==> !stop && patience == None
    {
      stop, patience := Spent(patience), OneLess(patience);
    }

    method Directory(dir: Node, path: Bytes, at: seq<nat>) returns (ok: bool)
      modifies this`emitted, this`patience
      ensures ok ==> emitted == old(emitted) + ScanDirectory(o, dir, path, at)
      ensures old(patience) == None ==> ok && patience == None
      decreases dir, 1
    {
      var stop := StopSeen();
      if stop {
        return false;
      }
      if !dir.openable {
        emitted := emitted + [Note(at, path, EnumerationFailed)];
        return true;
      }
      var i := 0;
      ghost var before, whole := emitted, ScanFrom(o, dir, path, at, 0);
      while i < |dir.children|
        invariant i <= |dir.children| && Remaining(emitted, ScanFrom(o, dir, path, at, i), before + whole)
        invariant old(patience) == None ==> patience == None
      {
        stop := StopSeen();
        if stop {
          return false;
        }
        ghost var sofar := emitted;
        var child := Child(dir.children[i], Join(path, dir.children[i].name), at + [i]);
        if !child {
          return false;
        }
        ChildEmitted(sofar, ScanNode(o, dir.children[i], Join(path, dir.children[i].name), at + [i]), emitted,
                     if dir.breaksAfter == Some(i) then [Note(at, path, EnumerationFailed)] else ScanFrom(o, dir, path, at, i + 1), before + whole);
        if dir.breaksAfter == Some(i) {
          emitted := emitted + [Note(at, path, EnumerationFailed)];
          return true;
        }
        i := i + 1;
      }
      assert ScanFrom(o, dir, path, at, i) == [];
      return true;
    }

    method Child(node: Node, path: Bytes, at: seq<nat>) returns (ok: bool)
      modifies this`emitted, this`patience
      ensures ok ==> emitted == old(emitted) + ScanNode(o, node, path, at)
      ensures old(patience) == None ==> ok && patience == None
      decreases node, 2
    {
      ok := true;
      match Judge(o, node, path) {
        case Silent =>
        case Noted(p, code) => emitted := emitted + [Note(at, p, code)];
        case Taken(kind) =>
          emitted := emitted + [Entry(at, path, kind)];
          if kind == Pipeline.Directory {
            ok := Directory(node, path, at);
          }
      }
    }
  }

  // ----- what is emitted -----------------------------------------------------------------------

  /** The enumeration of the directory gets as far as child `i`. */
  predicate Enumerated(dir: Node, i: nat) {
    dir.openable && i < |dir.children| && (dir.breaksAfter.Some? && dir.breaksAfter.value < |dir.children| ==> i <= dir.breaksAfter.value)
  }

  /** The place `at`, below a directory whose path is `path`, is emitted as `path'` of kind `kind`: every
      node on the way is enumerated, not ignored, and captured, all but the last as a directory. */
  predicate Captured(o: Options, dir: Node, path: Bytes, at: seq<nat>, path': Bytes, kind: Kind)
    decreases |at|
  {
    at != [] && Enumerated(dir, at[0]) &&
    var node := dir.children[at[0]];
    var below := Join(path, node.name);
    match Judge(o, node, below)
    case Taken(k) =>
      if |at| == 1 then path' == below && kind == k
      else k == Directory && Captured(o, node, below, at[1..], path', kind)
    case _ => false
  }

  /** The directory cannot be enumerated, or not to its end. */
  predicate EnumerationFails(dir: Node) {
    !dir.openable || (dir.breaksAfter.Some? && dir.breaksAfter.value < |dir.children|)
  }

  /** What one node itself gives rise to. */
  predicate IsOwn(o: Options, node: Node, path: Bytes, e: Emission) {
    match e
    case Entry(_, p, kind) => p == path && Judge(o, node, path) == Taken(kind)
    case Note(_, p, code) => Judge(o, node, path) == Noted(p, code)
  }

  /** What is due about the place `e.at`, taken from the directory on: a warning about the directory itself,
      if its enumeration fails; what an enumerated child gives rise to; or what is due below a child that is
      captured as a directory. */
  predicate Due(o: Options, dir: Node, path: Bytes, e: Emission)
    decreases |e.at|
  {
    if e.at == [] then e == Note([], path, EnumerationFailed) && EnumerationFails(dir)
    else
      && Enumerated(dir, e.at[0])
      && var node := dir.children[e.at[0]];
         var below := Join(path, node.name);
         || (|e.at| == 1 && IsOwn(o, node, below, e))
         || (Judge(o, node, below) == Taken(Directory) && Due(o, node, below, Moved(e, e.at[1..])))
  }

  function Moved(e: Emission, at: seq<nat>): (m: Emission)
    ensures m.at == at && (m.Entry? <==> e.Entry?)
  {
    match e
    case Entry(_, p, kind) => Entry(at, p, kind)
    case Note(_, p, code) => Note(at, p, code)
  }

  lemma ScanFromHas(o: Options, dir: Node, path: Bytes, at: seq<nat>, i: nat, e: Emission)
    requires i < |dir.children|
    ensures e in ScanFrom(o, dir, path, at, i) <==>
            || e in ScanNode(o, dir.children[i], Join(path, dir.children[i].name), at + [i])
            || (if dir.breaksAfter == Some(i) then e == Note(at, path, EnumerationFailed) else e in ScanFrom(o, dir, path, at, i + 1))
  {
  }

  /** Whatever is emitted for a node is about its place or one below it. */
  lemma {:induction false} NodeEmitsBelow(o: Options, node: Node, path: Bytes, at: seq<nat>, e: Emission)
    requires e in ScanNode(o, node, path, at)
    ensures |at| <= |e.at| && e.at[..|at|] == at
    decreases node, 2, 0
  {
    var v := Judge(o, node, path);
    if v.Taken? && v.kind == Directory && e != Entry(at, path, v.kind) && node.openable {
      DirectoryEmitsBelow(o, node, path, at, 0, e);
    }
  }

  lemma {:induction false} DirectoryEmitsBelow(o: Options, dir: Node, path: Bytes, at: seq<nat>, i: nat, e: Emission)
    requires e in ScanFrom(o, dir, path, at, i)
    ensures e == Note(at, path, EnumerationFailed) || (|at| < |e.at| && e.at[..|at|] == at && i <= e.at[|at|] < |dir.children|)
    decreases dir, 0, |dir.children| - i
  {
    ScanFromHas(o, dir, path, at, i, e);
    var child := dir.children[i];
    if e in ScanNode(o, child, Join(path, child.name), at + [i]) {
      NodeEmitsBelow(o, child, Join(path, child.name), at + [i], e);
      assert e.at[..|at|] == (at + [i])[..|at|] && e.at[|at|] == (at + [i])[|at|];
    } else if dir.breaksAfter != Some(i) {
      DirectoryEmitsBelow(o, dir, path, at, i + 1, e);
    }
  }

  lemma EmittedUnder(o: Options, child: Node, below: Bytes, at: seq<nat>, i: nat, place: seq<nat>, e: Emission)
    ensures Moved(e, at + place) in ScanNode(o, child, below, at + [i]) ==> place != [] && place[0] == i
  {
    if Moved(e, at + place) in ScanNode(o, child, below, at + [i]) {
      NodeEmitsBelow(o, child, below, at + [i], Moved(e, at + place));
      assert (at + place)[..|at| + 1] == at + [i];
      assert (at + place)[|at|] == (at + place)[..|at| + 1][|at|] == i;
    }
  }

  /** What is emitted about a place below child `i` is what is due there. */
  lemma {:induction false} ChildIsExact(o: Options, dir: Node, path: Bytes, at: seq<nat>, i: nat, e: Emission)
    requires Enumerated(dir, i) && e.at != [] && e.at[0] == i
    ensures Moved(e, at + e.at) in ScanNode(o, dir.children[i], Join(path, dir.children[i].name), at + [i]) <==> Due(o, dir, path, e)
    decreases dir, 0, |dir.children| - i, 0
  {
    var child, rest := dir.children[i], Moved(e, e.at[1..]);
    var below := Join(path, child.name);
    assert (at + [i]) + e.at[1..] == at + e.at;
    NodeIsExact(o, child, below, at + [i], rest);
    assert |e.at| == 1 <==> e.at[1..] == [];
  }

  predicate DueFrom(o: Options, dir: Node, path: Bytes, i: nat, e: Emission) {
    (e.at == [] || e.at[0] >= i) && Due(o, dir, path, e)
  }

  lemma {:induction false} HereIsExact(o: Options, dir: Node, path: Bytes, at: seq<nat>, i: nat, e: Emission)
    requires Enumerated(dir, i) && e.at != [] && e.at[0] == i
    ensures Moved(e, at + e.at) in ScanFrom(o, dir, path, at, i) <==> DueFrom(o, dir, path, i, e)
    decreases dir, 0, |dir.children| - i, 1
  {
    ScanFromHas(o, dir, path, at, i, Moved(e, at + e.at));
    BrokenOff(at, e, path);
    ChildIsExact(o, dir, path, at, i, e);
    NotEmittedLater(o, dir, path, at, i, e);
  }

  lemma BreakIsExact(o: Options, dir: Node, path: Bytes, at: seq<nat>, i: nat, e: Emission)
    requires dir.openable && dir.breaksAfter == Some(i) && i < |dir.children| && (e.at == [] || e.at[0] != i)
    ensures Moved(e, at + e.at) in ScanFrom(o, dir, path, at, i) <==> DueFrom(o, dir, path, i, e)
  {
    ScanFromHas(o, dir, path, at, i, Moved(e, at + e.at));
    EmittedUnder(o, dir.children[i], Join(path, dir.children[i].name), at, i, e.at, e);
    BrokenOff(at, e, path);
  }

  /** From child `i` on, exactly what is due is emitted. */
  lemma {:induction false} FromIsExact(o: Options, dir: Node, path: Bytes, at: seq<nat>, i: nat, e: Emission)
    requires dir.openable && (dir.breaksAfter.Some? && dir.breaksAfter.value < |dir.children| ==> i <= dir.breaksAfter.value)
    ensures Moved(e, at + e.at) in ScanFrom(o, dir, path, at, i) <==> DueFrom(o, dir, path, i, e)
    decreases dir, 0, |dir.children| - i, 2
  {
    if i >= |dir.children| {
      assert !DueFrom(o, dir, path, i, e);
    } else if e.at != [] && e.at[0] == i {
      HereIsExact(o, dir, path, at, i, e);
    } else if dir.breaksAfter == Some(i) {
      BreakIsExact(o, dir, path, at, i, e);
    } else {
      FromIsExact(o, dir, path, at, i + 1, e);
      ScanFromHas(o, dir, path, at, i, Moved(e, at + e.at));
      EmittedUnder(o, dir.children[i], Join(path, dir.children[i].name), at, i, e.at, e);
    }
  }

  lemma BrokenOff(at: seq<nat>, e: Emission, path: Bytes)
    ensures Moved(e, at + e.at) == Note(at, path, EnumerationFailed) <==> e == Note([], path, EnumerationFailed)
  {
    assert at + [] == at;
    assert |at + e.at| == |at| + |e.at|;
  }

  lemma NotEmittedLater(o: Options, dir: Node, path: Bytes, at: seq<nat>, i: nat, e: Emission)
    requires e.at != [] && e.at[0] == i
    ensures Moved(e, at + e.at) !in ScanFrom(o, dir, path, at, i + 1)
  {
    assert |at + e.at| > |at| && (at + e.at)[|at|] == i;
    if Moved(e, at + e.at) in ScanFrom(o, dir, path, at, i + 1) {
      DirectoryEmitsBelow(o, dir, path, at, i + 1, Moved(e, at + e.at));
    }
  }

  lemma {:induction false} NodeIsExact(o: Options, node: Node, path: Bytes, at: seq<nat>, e: Emission)
    ensures Moved(e, at + e.at) in ScanNode(o, node, path, at) <==>
            (e.at == [] && IsOwn(o, node, path, e)) || (Judge(o, node, path) == Taken(Directory) && Due(o, node, path, e))
    decreases node, 2, 0, 0
  {
    assert at + [] == at;
    assert e.at != [] ==> |at + e.at| > |at|;
    if Judge(o, node, path) == Taken(Directory) {
      DirectoryIsExact(o, node, path, at, e);
    }
  }

  lemma {:induction false} DirectoryIsExact(o: Options, dir: Node, path: Bytes, at: seq<nat>, e: Emission)
    ensures Moved(e, at + e.at) in ScanDirectory(o, dir, path, at) <==> Due(o, dir, path, e)
    decreases dir, 1, 0, 0
  {
    BrokenOff(at, e, path);
    if dir.openable {
      FromIsExact(o, dir, path, at, 0, e);
    }
  }

  lemma {:induction false} EntryIsDue(o: Options, dir: Node, path: Bytes, at: seq<nat>, path': Bytes, kind: Kind)
    ensures Due(o, dir, path, Entry(at, path', kind)) <==> Captured(o, dir, path, at, path', kind)
    decreases |at|
  {
    if at != [] && Enumerated(dir, at[0]) {
      var node := dir.children[at[0]];
      EntryIsDue(o, node, Join(path, node.name), at[1..], path', kind);
    }
  }

  /** The scan emits the root, and exactly the captured places below it. */
  lemma ScanIsExact(o: Options, root: Node, at: seq<nat>, path: Bytes, kind: Kind)
    ensures Entry(at, path, kind) in ScanStreaming(o, root) <==>
            if at == [] then path == [] && kind == Directory else Captured(o, root, [], at, path, kind)
  {
    assert [] + at == at;
    DirectoryIsExact(o, root, [], [], Entry(at, path, kind));
    EntryIsDue(o, root, [], at, path, kind);
  }

  // ----- warnings ------------------------------------------------------------------------------

  /** The place `at` below a directory is enumerated, through directories that are all captured: `node` is
      there, and `below` its path. */
  predicate Found(o: Options, dir: Node, path: Bytes, at: seq<nat>, node: Node, below: Bytes)
    decreases |at|
  {
    && at != [] && Enumerated(dir, at[0])
    && var child := dir.children[at[0]];
       if |at| == 1 then node == child && below == Join(path, child.name)
       else CapturedAs(o, child, Join(path, child.name), Directory) && Found(o, child, Join(path, child.name), at[1..], node, below)
  }

  /** What a warning about a place says of the node there: it cannot be captured, for the reason given; or it
      is a captured directory whose enumeration fails. */
  predicate Warrants(o: Options, node: Node, path: Bytes, p: Bytes, code: Code) {
    || (p == (if Utf8.Valid(path) then path else []) && Refused(o, node, path, code))
    || (p == path && code == EnumerationFailed && CapturedAs(o, node, path, Directory) && EnumerationFails(node))
  }

  /** The node found at the place warrants a warning. */
  ghost predicate NoteDue(o: Options, dir: Node, path: Bytes, at: seq<nat>, p: Bytes, code: Code) {
    at != [] && at[0] < |dir.children| &&
    exists node, below :: Found(o, dir, path, at, node, below) && Warrants(o, node, below, p, code)
  }

  lemma {:induction false} NoteIsDue(o: Options, dir: Node, path: Bytes, at: seq<nat>, p: Bytes, code: Code)
    requires at != []
    ensures Due(o, dir, path, Note(at, p, code)) <==> NoteDue(o, dir, path, at, p, code)
    decreases |at|
  {
    if Enumerated(dir, at[0]) {
      var child := dir.children[at[0]];
      var below := Join(path, child.name);
      JudgeMeaning(o, child, below);
      if |at| == 1 {
        LastNoteIsDue(o, dir, path, at, p, code);
      } else {
        NoteIsDue(o, child, below, at[1..], p, code);
        if NoteDue(o, child, below, at[1..], p, code) && CapturedAs(o, child, below, Directory) {
          var node, b :| Found(o, child, below, at[1..], node, b) && Warrants(o, node, b, p, code);
          assert Found(o, dir, path, at, node, b);
        }
        if NoteDue(o, dir, path, at, p, code) {
          var node, b :| Found(o, dir, path, at, node, b) && Warrants(o, node, b, p, code);
          assert Found(o, child, below, at[1..], node, b);
          FoundInside(o, child, below, at[1..], node, b);
        }
      }
    }
  }

  lemma FoundInside(o: Options, dir: Node, path: Bytes, at: seq<nat>, node: Node, below: Bytes)
    requires Found(o, dir, path, at, node, below)
    ensures at != [] && at[0] < |dir.children|
  {
  }

  lemma LastNoteIsDue(o: Options, dir: Node, path: Bytes, at: seq<nat>, p: Bytes, code: Code)
    requires |at| == 1 && Enumerated(dir, at[0])
    ensures Due(o, dir, path, Note(at, p, code)) <==> NoteDue(o, dir, path, at, p, code)
  {
    var child := dir.children[at[0]];
    var below := Join(path, child.name);
    JudgeMeaning(o, child, below);
    assert at[1..] == [];
    assert Due(o, child, below, Note([], p, code)) <==> p == below && code == EnumerationFailed && EnumerationFails(child);
    assert Due(o, dir, path, Note(at, p, code)) <==> Warrants(o, child, below, p, code);
    assert Found(o, dir, path, at, child, below);
    if NoteDue(o, dir, path, at, p, code) {
      var node, b :| Found(o, dir, path, at, node, b) && Warrants(o, node, b, p, code);
    }
  }

  /** Warnings are exact: there is one about a place exactly if the node there, found through captured
      directories, cannot be captured for the reason it gives, or is a directory, the root included, whose
      enumeration fails. */
  lemma WarningsAreExact(o: Options, root: Node, at: seq<nat>, p: Bytes, code: Code)
    ensures Note(at, p, code) in ScanStreaming(o, root) <==>
            if at == [] then p == [] && code == EnumerationFailed && EnumerationFails(root)
            else exists node, below :: Found(o, root, [], at, node, below) && Warrants(o, node, below, p, code)
  {
    assert [] + at == at;
    DirectoryIsExact(o, root, [], [], Note(at, p, code));
    if at != [] {
      NoteIsDue(o, root, [], at, p, code);
      if node, below :| Found(o, root, [], at, node, below) && Warrants(o, node, below, p, code) {
        FoundInside(o, root, [], at, node, below);
      }
    }
  }

  predicate Emits(es: seq<Emission>, at: seq<nat>, path: Bytes, kind: Kind) {
    Entry(at, path, kind) in es
  }

  predicate Warns(es: seq<Emission>, at: seq<nat>, path: Bytes, code: Code) {
    Note(at, path, code) in es
  }

  lemma {:induction false} FoundIsCaptured(o: Options, dir: Node, path: Bytes, at: seq<nat>, node: Node, below: Bytes, kind: Kind)
    requires Found(o, dir, path, at, node, below)
    ensures Captured(o, dir, path, at, below, kind) <==> CapturedAs(o, node, below, kind)
    decreases |at|
  {
    var child := dir.children[at[0]];
    JudgeMeaning(o, child, Join(path, child.name));
    if |at| > 1 {
      FoundIsCaptured(o, child, Join(path, child.name), at[1..], node, below, kind);
    }
  }

  /** Nothing is lost without a trace: every node found is emitted as an entry, or passed over because it is
      ignored or hidden, or warned about; and no two of these. */
  lemma NothingIsLost(o: Options, root: Node, at: seq<nat>, node: Node, path: Bytes)
    requires Found(o, root, [], at, node, path)
    ensures var es := ScanStreaming(o, root);
            var entered, warned := exists kind :: Emits(es, at, path, kind), exists p, code :: code != EnumerationFailed && Warns(es, at, p, code);
            && (entered || warned || PassedOver(o, node, path))
            && !(entered && warned) && !(entered && PassedOver(o, node, path)) && !(warned && PassedOver(o, node, path))
  {
    var es := ScanStreaming(o, root);
    JudgeMeaning(o, node, path);
    forall kind
      ensures Emits(es, at, path, kind) <==> Judge(o, node, path) == Taken(kind)
    {
      ScanIsExact(o, root, at, path, kind);
      FoundIsCaptured(o, root, [], at, node, path, kind);
    }
    forall p, code | code != EnumerationFailed
      ensures Warns(es, at, p, code) <==> Judge(o, node, path) == Noted(p, code)
    {
      WarningsAreExact(o, root, at, p, code);
      FoundOnce(o, root, [], at, node, path);
      if Warns(es, at, p, code) {
        var n, b :| Found(o, root, [], at, n, b) && Warrants(o, n, b, p, code);
      } else {
        assert !Warrants(o, node, path, p, code);
      }
    }
    match Judge(o, node, path)
    case Silent =>
    case Noted(p, code) => assert Warns(es, at, p, code);
    case Taken(kind) => assert Emits(es, at, path, kind);
  }

  lemma {:induction false} FoundOnce(o: Options, dir: Node, path: Bytes, at: seq<nat>, node: Node, below: Bytes)
    requires Found(o, dir, path, at, node, below)
    ensures forall n, b :: Found(o, dir, path, at, n, b) ==> n == node && b == below
    decreases |at|
  {
    if |at| > 1 {
      var child := dir.children[at[0]];
      FoundOnce(o, child, Join(path, child.name), at[1..], node, below);
    }
  }

  // ----- once each -----------------------------------------------------------------------------

  /** How often there is an entry, or a warning, about the place. */
  function Count(es: seq<Emission>, at: seq<nat>, entries: bool): nat {
    if es == [] then 0 else (if es[0].at == at && es[0].Entry? == entries then 1 else 0) + Count(es[1..], at, entries)
  }

  lemma {:induction false} CountOfConcat(a: seq<Emission>, b: seq<Emission>, at: seq<nat>, entries: bool)
    ensures Count(a + b, at, entries) == Count(a, at, entries) + Count(b, at, entries)
  {
    if a == [] {
      assert a + b == b;
    } else {
      assert (a + b)[1..] == a[1..] + b;
      CountOfConcat(a[1..], b, at, entries);
    }
  }

  lemma {:induction false} CountIsZero(es: seq<Emission>, at: seq<nat>, entries: bool)
    requires forall e :: e in es && e.Entry? == entries ==> e.at != at
    ensures Count(es, at, entries) == 0
  {
    if es != [] {
      CountIsZero(es[1..], at, entries);
    }
  }

  lemma {:induction false} FromOnce(o: Options, dir: Node, path: Bytes, at: seq<nat>, i: nat, place: seq<nat>, entries: bool)
    ensures Count(ScanFrom(o, dir, path, at, i), place, entries) <= 1
    decreases dir, 0, |dir.children| - i
  {
    if i < |dir.children| {
      var child := dir.children[i];
      var first := ScanNode(o, child, Join(path, child.name), at + [i]);
      var rest := if dir.breaksAfter == Some(i) then [Note(at, path, EnumerationFailed)] else ScanFrom(o, dir, path, at, i + 1);
      CountOfConcat(first, rest, place, entries);
      if |place| > |at| && place[..|at| + 1] == at + [i] {
        forall e | e in rest
          ensures e.at != place
        {
          if dir.breaksAfter != Some(i) {
            DirectoryEmitsBelow(o, dir, path, at, i + 1, e);
          }
          assert place[|at|] == (at + [i])[|at|];
        }
        CountIsZero(rest, place, entries);
        NodeOnce(o, child, Join(path, child.name), at + [i], place, entries);
      } else {
        forall e | e in first
          ensures e.at != place
        {
          NodeEmitsBelow(o, child, Join(path, child.name), at + [i], e);
        }
        CountIsZero(first, place, entries);
        if dir.breaksAfter != Some(i) {
          FromOnce(o, dir, path, at, i + 1, place, entries);
        }
      }
    }
  }

  lemma {:induction false} NodeOnce(o: Options, node: Node, path: Bytes, at: seq<nat>, place: seq<nat>, entries: bool)
    ensures Count(ScanNode(o, node, path, at), place, entries) <= 1
    decreases node, 2, 0
  {
    var v := Judge(o, node, path);
    if v.Taken? && v.kind == Directory {
      DirectoryOnce(o, node, path, at, place, entries);
    }
  }

  lemma {:induction false} DirectoryOnce(o: Options, dir: Node, path: Bytes, at: seq<nat>, place: seq<nat>, entries: bool)
    ensures Count([Entry(at, path, Directory)] + ScanDirectory(o, dir, path, at), place, entries) <= 1
    decreases dir, 1, 0
  {
    var below := ScanDirectory(o, dir, path, at);
    CountOfConcat([Entry(at, path, Directory)], below, place, entries);
    if dir.openable {
      FromOnce(o, dir, path, at, 0, place, entries);
    }
    if place == at && entries {
      forall e | e in below && e.Entry?
        ensures e.at != place
      {
        if dir.openable {
          DirectoryEmitsBelow(o, dir, path, at, 0, e);
        }
      }
      CountIsZero(below, place, true);
    }
  }

  /** About no place are there two entries, or two warnings. */
  lemma ScanIsOnce(o: Options, root: Node, at: seq<nat>)
    ensures Count(ScanStreaming(o, root), at, true) <= 1 && Count(ScanStreaming(o, root), at, false) <= 1
  {
    DirectoryOnce(o, root, [], [], at, true);
    DirectoryOnce(o, root, [], [], at, false);
  }

  // ----- parents first -------------------------------------------------------------------------

  /** `parent` is the directory that the entry `e` is in. */
  ghost predicate IsParent(parent: Emission, e: Emission) {
    && parent.Entry? && e.Entry? && e.at != [] && parent.kind == Directory
    && parent.at == e.at[..|e.at| - 1] && IsInside(parent.path, e.path)
  }

  ghost predicate IsInside(parent: Bytes, path: Bytes) {
    exists name :: path == Join(parent, name)
  }

  ghost predicate ParentBefore(es: seq<Emission>, j: nat)
    requires j < |es|
  {
    exists i :: 0 <= i < j && IsParent(es[i], es[j])
  }

  /** Every entry deeper than `depth` comes after its parent. */
  ghost predicate ParentsFirst(es: seq<Emission>, depth: nat) {
    forall j {:trigger ParentBefore(es, j)} :: 0 <= j < |es| && es[j].Entry? && |es[j].at| > depth ==> ParentBefore(es, j)
  }

  lemma ParentsFirstOfConcat(a: seq<Emission>, b: seq<Emission>, depth: nat)
    requires ParentsFirst(a, depth) && ParentsFirst(b, depth)
    ensures ParentsFirst(a + b, depth)
  {
    var es := a + b;
    forall j | 0 <= j < |es| && es[j].Entry? && |es[j].at| > depth
      ensures ParentBefore(es, j)
    {
      if j < |a| {
        assert ParentBefore(a, j);
        var i :| 0 <= i < j && IsParent(a[i], a[j]);
        assert es[i] == a[i];
      } else {
        assert ParentBefore(b, j - |a|);
        var i :| 0 <= i < j - |a| && IsParent(b[i], b[j - |a|]);
        assert es[i + |a|] == b[i];
      }
    }
  }

  lemma ParentsFirstBelow(head: Emission, below: seq<Emission>)
    requires head.Entry? && head.kind == Directory && ParentsFirst(below, |head.at| + 1)
    requires forall e :: e in below && e.Entry? ==> |e.at| > |head.at| && (|e.at| == |head.at| + 1 ==> IsParent(head, e))
    ensures ParentsFirst([head] + below, |head.at|)
  {
    var es := [head] + below;
    forall j | 0 <= j < |es| && es[j].Entry? && |es[j].at| > |head.at|
      ensures ParentBefore(es, j)
    {
      assert es[j] == below[j - 1] && below[j - 1] in below;
      assert |below[j - 1].at| > |head.at| + 1 ==> ParentBefore(below, j - 1);
      OneParentFirst(head, below, j - 1);
    }
  }

  lemma OneParentFirst(head: Emission, below: seq<Emission>, j: nat)
    requires j < |below| && below[j].Entry? && (|below[j].at| == |head.at| + 1 ==> IsParent(head, below[j]))
    requires |below[j].at| > |head.at| + 1 ==> ParentBefore(below, j)
    requires |below[j].at| > |head.at|
    ensures ParentBefore([head] + below, j + 1)
  {
    var es := [head] + below;
    assert es[j + 1] == below[j];
    if |below[j].at| == |head.at| + 1 {
      assert IsParent(es[0], es[j + 1]);
    } else {
      var i :| 0 <= i < j && IsParent(below[i], below[j]);
      assert es[i + 1] == below[i];
    }
  }

  lemma {:induction false} FromParentsFirst(o: Options, dir: Node, path: Bytes, at: seq<nat>, i: nat)
    ensures ParentsFirst(ScanFrom(o, dir, path, at, i), |at| + 1)
    decreases dir, 0, |dir.children| - i
  {
    if i < |dir.children| {
      var child := dir.children[i];
      NodeParentsFirst(o, child, Join(path, child.name), at + [i]);
      var rest := if dir.breaksAfter == Some(i) then [Note(at, path, EnumerationFailed)] else ScanFrom(o, dir, path, at, i + 1);
      if dir.breaksAfter != Some(i) {
        FromParentsFirst(o, dir, path, at, i + 1);
      }
      ParentsFirstOfConcat(ScanNode(o, child, Join(path, child.name), at + [i]), rest, |at| + 1);
    }
  }

  lemma {:induction false} NodeParentsFirst(o: Options, node: Node, path: Bytes, at: seq<nat>)
    ensures ParentsFirst(ScanNode(o, node, path, at), |at|)
    decreases node, 2, 0
  {
    var v := Judge(o, node, path);
    if v.Taken? && v.kind == Directory {
      DirectoryParentsFirst(o, node, path, at);
    }
  }

  lemma {:induction false} DirectoryParentsFirst(o: Options, dir: Node, path: Bytes, at: seq<nat>)
    ensures ParentsFirst([Entry(at, path, Directory)] + ScanDirectory(o, dir, path, at), |at|)
    decreases dir, 1, 0
  {
    var head, below := Entry(at, path, Directory), ScanDirectory(o, dir, path, at);
    if dir.openable {
      FromParentsFirst(o, dir, path, at, 0);
      forall e | e in below && e.Entry?
        ensures |e.at| > |at| && (|e.at| == |at| + 1 ==> IsParent(head, e))
      {
        DirectoryEmitsBelow(o, dir, path, at, 0, e);
        if |e.at| == |at| + 1 {
          ChildOf(o, dir, path, at, e);
        }
      }
    }
    ParentsFirstBelow(head, below);
  }

  lemma ChildOf(o: Options, dir: Node, path: Bytes, at: seq<nat>, e: Emission)
    requires dir.openable && e.Entry? && e in ScanFrom(o, dir, path, at, 0) && |e.at| == |at| + 1 && e.at[..|at|] == at
    ensures IsParent(Entry(at, path, Directory), e)
  {
    var place := [e.at[|at|]];
    assert e.at == at + place;
    FromIsExact(o, dir, path, at, 0, Moved(e, place));
    EntryIsDue(o, dir, path, place, e.path, e.kind);
    assert e.path == Join(path, dir.children[place[0]].name);
  }

  /** The scan emits the root first, and every other entry after the directory that holds it. */
  lemma ScanParentsFirst(o: Options, root: Node)
    ensures var es := ScanStreaming(o, root);
            es[0] == Entry([], [], Directory) && forall j :: 0 < j < |es| && es[j].Entry? ==> es[j].at != [] && ParentBefore(es, j)
  {
    DirectoryParentsFirst(o, root, [], []);
    var es := ScanStreaming(o, root);
    forall j | 0 < j < |es| && es[j].Entry?
      ensures es[j].at != []
    {
      assert es[j] == ScanDirectory(o, root, [], [])[j - 1];
      if root.openable {
        DirectoryEmitsBelow(o, root, [], [], 0, es[j]);
      }
    }
  }

  // ----- pruning -------------------------------------------------------------------------------

  /** Nothing on the way to the place, itself included, is ignored. */
  predicate NothingIgnored(o: Options, dir: Node, path: Bytes, at: seq<nat>)
    decreases |at|
  {
    at == [] ||
    (at[0] < |dir.children| &&
     var node := dir.children[at[0]];
     var below := Join(path, node.name);
     && node.status.Some? && node.platform.Some?
     && !o.ignores(below, DirectoryLike(node.status.value, ScanEntryKind(node.status.value, node.platform.value)))
     && NothingIgnored(o, node, below, at[1..]))
  }

  /** Nothing is emitted that is ignored or lies below something ignored. */
  lemma {:induction false} CapturedIsNotIgnored(o: Options, dir: Node, path: Bytes, at: seq<nat>, path': Bytes, kind: Kind)
    requires Captured(o, dir, path, at, path', kind)
    ensures NothingIgnored(o, dir, path, at)
    decreases |at|
  {
    if |at| > 1 {
      var node := dir.children[at[0]];
      CapturedIsNotIgnored(o, node, Join(path, node.name), at[1..], path', kind);
    }
  }

  /** Links, and everything else that is not captured as a directory, are never entered. */
  lemma {:induction false} OnlyDirectoriesAreEntered(o: Options, dir: Node, path: Bytes, at: seq<nat>, path': Bytes, kind: Kind, more: seq<nat>, path'': Bytes, kind': Kind)
    requires Captured(o, dir, path, at, path', kind) && kind != Directory && more != []
    ensures !Captured(o, dir, path, at + more, path'', kind')
    decreases |at|
  {
    assert (at + more)[1..] == at[1..] + more && (at + more)[0] == at[0];
    if |at| > 1 {
      var node := dir.children[at[0]];
      OnlyDirectoriesAreEntered(o, node, Join(path, node.name), at[1..], path', kind, more, path'', kind');
    }
  }
}
