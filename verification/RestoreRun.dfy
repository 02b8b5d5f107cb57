/** Carrying a restore plan out: what ends up at the destination, whatever fails and whatever the object
    store contains, and that every planned entry is accounted for. */
module RestoreRun {
  import opened Common
  import opened Metadata
  import opened Selection
  import opened RestorePlan
  import O = Objects
  import R = Reassembly

  /** The item is what the entry says: a directory; a file of the recorded length whose digest is the
      recorded one; a link with the recorded target. */
  predicate Faithful(c: O.Settings, e: Entry, item: Item) {
    match e.kind
    case Folder => item == DirItem
    case Regular => item.FileItem? && |item.bytes| == e.size && e.hash == Some(c.codec.digest(item.bytes))
    case Link => e.target.Some? && item == LinkItem(e.target.value)
  }

  /** What is at `q` after one or more planned entries have been dealt with: what was there before; what
      another program put where nothing was; or a faithful copy of an entry that was not to be skipped,
      over something else only if it was to be replaced. */
  predicate Explained(c: O.Settings, before: Destination, after: Destination, rivals: Destination, plan: seq<Planned>, q: Path)
    requires q in after
  {
    || (q in before && after[q] == before[q])
    || (q !in before && q in rivals && after[q] == rivals[q])
    || exists i :: 0 <= i < |plan| && Restores(c, plan[i], q, after[q]) && (q in before ==> plan[i].action == Replace)
  }

  predicate Restores(c: O.Settings, p: Planned, q: Path, item: Item) {
    p.entry.path == q && p.action != Skip && Faithful(c, p.entry, item)
  }

  predicate SameAt(d: Destination, after: Destination, q: Path) {
    (q in after <==> q in d) && (q in d ==> after[q] == d[q])
  }

  /** What is at `q` was there before, or is in a real directory. */
  predicate Sheltered(before: Destination, after: Destination, q: Path) {
    SameAt(before, after, q) || (q != [] && IsDir(after, q[..|q| - 1]))
  }

  /** Nothing disappears, everything there is explained, directories remain directories, and nothing is put
      anywhere but into a real directory. */
  ghost predicate Fair(c: O.Settings, before: Destination, after: Destination, rivals: Destination, plan: seq<Planned>) {
    && (forall q :: q in before ==> q in after)
    && (forall q :: q in after ==> Explained(c, before, after, rivals, plan, q))
    && (forall q :: IsDir(before, q) ==> IsDir(after, q))
    && (forall q :: q in after ==> Sheltered(before, after, q))
  }

  /** So a real destination remains one: nothing is ever put below a link or a file. */
  lemma FairKeepsTrees(c: O.Settings, before: Destination, after: Destination, rivals: Destination, plan: seq<Planned>)
    requires Fair(c, before, after, rivals, plan) && IsTree(before)
    ensures IsTree(after)
  {
    forall q | q in after && q != []
      ensures IsDir(after, q[..|q| - 1])
    {
      assert Sheltered(before, after, q);
      if SameAt(before, after, q) {
        assert IsDir(before, q[..|q| - 1]);
      }
    }
  }

  lemma ShelteredThrough(before: Destination, middle: Destination, after: Destination)
    requires forall q :: q in middle ==> Sheltered(before, middle, q)
    requires forall q :: q in after ==> Sheltered(middle, after, q)
    requires forall q :: IsDir(middle, q) ==> IsDir(after, q)
    ensures forall q :: q in after ==> Sheltered(before, after, q)
  {
    forall q | q in after
      ensures Sheltered(before, after, q)
    {
      if q in middle {
        assert Sheltered(middle, after, q);
        if !SameAt(before, middle, q) {
          assert IsDir(middle, q[..|q| - 1]);
        }
      } else {
        assert Sheltered(middle, after, q);
      }
    }
  }

  lemma ExplainedThrough(c: O.Settings, before: Destination, middle: Destination, after: Destination, rivals: Destination, plan: seq<Planned>, i: nat, q: Path)
    requires i < |plan| && q in after && Explained(c, middle, after, rivals, [plan[i]], q)
    requires (q in before ==> q in middle) && (q in middle ==> Explained(c, before, middle, rivals, plan, q))
    ensures Explained(c, before, after, rivals, plan, q)
  {
    if exists k :: 0 <= k < 1 && Restores(c, [plan[i]][k], q, after[q]) && (q in middle ==> [plan[i]][k].action == Replace) {
      assert Restores(c, plan[i], q, after[q]);
    }
  }

  lemma FairThrough(c: O.Settings, before: Destination, middle: Destination, after: Destination, rivals: Destination, plan: seq<Planned>, i: nat)
    requires i < |plan| && Fair(c, before, middle, rivals, plan) && Fair(c, middle, after, rivals, [plan[i]])
    ensures Fair(c, before, after, rivals, plan)
  {
    ShelteredThrough(before, middle, after);
    forall q | q in after
      ensures Explained(c, before, after, rivals, plan, q)
    {
      ExplainedThrough(c, before, middle, after, rivals, plan, i, q);
    }
  }

  // ----- one entry after the other, where no operation fails -------------------------------------

  /** The path is free, and the directory for it there. */
  predicate Free(d: Destination, path: Path) {
    path != [] && path !in d && SafeAncestors(d, path).Ok? && IsDir(d, path[..|path| - 1])
  }

  /** The entry can be restored from the rows and objects there are. */
  predicate Makeable(c: O.Settings, objects: O.Disk, rows: map<Path, seq<R.Listed>>, e: Entry) {
    match e.kind
    case Folder => true
    case Link => e.target.Some?
    case Regular =>
      && e.path in rows && R.TotalLength(rows[e.path]) <= MAX_UINT64
      && match R.Reassembled(c, objects, rows[e.path])
         case Err(_) => false
         case Ok(content) => |content| == e.size && e.hash == Some(c.codec.digest(content))
  }

  /** What it is restored to. */
  function Made(c: O.Settings, objects: O.Disk, rows: map<Path, seq<R.Listed>>, e: Entry): Item
    requires Makeable(c, objects, rows, e)
  {
    match e.kind
    case Folder => DirItem
    case Link => LinkItem(e.target.value)
    case Regular => FileItem(R.Reassembled(c, objects, rows[e.path]).value)
  }

  /** What a restore depends on besides the plan and the destination: `rivals` is what other programs put
      at paths where nothing was by the time the restore publishes there, `metadataFails` are the paths
      whose times or permissions cannot be set. */
  datatype World = World(c: O.Settings, objects: O.Disk, rows: map<Path, seq<R.Listed>>, rivals: Destination,
                         metadataFails: set<Path>, canLink: bool)

  /** How far a restore has come: the destination, the counters and reports of the result, and the
      directories whose times and permissions the last pass has set, or tried to, in order. */
  datatype Progress = Progress(dest: Destination, files: nat, directories: nat, links: nat, bytes: nat,
                               skipped: seq<Path>, warnings: nat, touched: seq<Path>)
  {
    function Reporting(path: Path): Progress {
      this.(skipped := skipped + [path])
    }
  }

  function Begin(d: Destination): Progress {
    Progress(d, 0, 0, 0, 0, [], 0, [])
  }

  /** A finished item goes where it was planned: over what is there, or where nothing is. */
  predicate Lands(w: World, d: Destination, p: Planned) {
    p.action == Replace || (p.entry.path !in d && p.entry.path !in w.rivals)
  }

  /** Putting a finished item in place; none if that fails. */
  function PutsTo(w: World, d: Destination, p: Planned, item: Item): Option<Destination> {
    var path := p.entry.path;
    if p.action == Replace then if IsDir(d, path) then None else Some(d[path := item])
    else if path in d then Some(d)
    else if path in w.rivals then Some(d[path := w.rivals[path]])
    else Some(d[path := item])
  }

  /** A file in place is counted; one whose times or permissions could not be set is reported as well. */
  function FileCounted(w: World, s: Progress, e: Entry): Progress {
    var counted := s.(files := s.files + 1, bytes := s.bytes + e.size);
    if e.path in w.metadataFails then counted.Reporting(e.path).(warnings := s.warnings + 1) else counted
  }

  function FilePuts(w: World, s: Progress, p: Planned, item: Item): Option<Progress> {
    match PutsTo(w, s.dest, p, item)
    case None => None
    case Some(d) =>
      if Lands(w, s.dest, p) then Some(FileCounted(w, s.(dest := d), p.entry)) else Some(s.(dest := d).Reporting(p.entry.path))
  }

  function LinkPuts(w: World, s: Progress, p: Planned, item: Item): Option<Progress> {
    match PutsTo(w, s.dest, p, item)
    case None => None
    case Some(d) =>
      if Lands(w, s.dest, p) then Some(s.(dest := d, links := s.links + 1)) else Some(s.(dest := d).Reporting(p.entry.path))
  }

  /** How far one more entry takes the restore; none if the entry cannot be restored. */
  function TakesTo(w: World, s: Progress, p: Planned): Option<Progress> {
    var path := p.entry.path;
    if p.action == Skip then Some(s.Reporting(path))
    else
      match p.entry.kind
      case Folder =>
        if p.action != Create then Some(s.(directories := s.directories + 1))
        else if Free(s.dest, path) then Some(s.(dest := s.dest[path := DirItem], directories := s.directories + 1))
        else None
      case Regular =>
        if SafeAncestors(s.dest, path).Err? || path == [] || !IsDir(s.dest, path[..|path| - 1]) || !Makeable(w.c, w.objects, w.rows, p.entry) then None
        else FilePuts(w, s, p, Made(w.c, w.objects, w.rows, p.entry))
      case Link =>
        if p.entry.target == None || SafeAncestors(s.dest, path).Err? then None
        else if !w.canLink then Some(s.Reporting(path))
        else if path == [] || !IsDir(s.dest, path[..|path| - 1]) then None
        else LinkPuts(w, s, p, LinkItem(p.entry.target.value))
  }

  /** After the entries of one kind. */
  function Pass(w: World, s: Progress, plan: seq<Planned>, kind: EntryKind): Option<Progress>
    decreases |plan|
  {
    if plan == [] then Some(s)
    else
      var last := plan[|plan| - 1];
      match Pass(w, s, plan[..|plan| - 1], kind)
      case None => None
      case Some(before) => if last.entry.kind == kind then TakesTo(w, before, last) else Some(before)
  }

  /** And after the three passes that change the destination. */
  function Passes(w: World, s: Progress, plan: seq<Planned>): Option<Progress> {
    match Pass(w, s, plan, Folder)
    case None => None
    case Some(one) =>
      match Pass(w, one, plan, Regular)
      case None => None
      case Some(two) => Pass(w, two, plan, Link)
  }

  lemma PassOneMore(w: World, s: Progress, plan: seq<Planned>, i: nat, kind: EntryKind)
    requires i < |plan|
    ensures Pass(w, s, plan[..i + 1], kind) ==
            var before := Pass(w, s, plan[..i], kind);
            if before == None || plan[i].entry.kind != kind then before else TakesTo(w, before.value, plan[i])
    ensures Pass(w, s, plan, kind).Some? ==> Pass(w, s, plan[..i + 1], kind).Some?
  {
    assert plan[..i + 1][..i] == plan[..i];
    if Pass(w, s, plan[..i + 1], kind) == None {
      PassGoesOn(w, s, plan, i + 1, kind);
    }
  }

  lemma {:induction false} PassGoesOn(w: World, s: Progress, plan: seq<Planned>, i: nat, kind: EntryKind)
    requires i <= |plan| && Pass(w, s, plan[..i], kind) == None
    ensures Pass(w, s, plan, kind) == None
    decreases |plan|
  {
    if i == |plan| {
      assert plan[..i] == plan;
    } else {
      assert plan[..|plan| - 1][..i] == plan[..i];
      PassGoesOn(w, s, plan[..|plan| - 1], i, kind);
    }
  }

  // ----- the three passes, entry by entry --------------------------------------------------------

  /** The entry ends up restored: a directory unless it is skipped, a file or link if it lands where it was
      planned. `d` is the destination before the restore. */
  predicate Restored(w: World, d: Destination, p: Planned) {
    && p.action != Skip
    && match p.entry.kind
       case Folder => true
       case Regular => Lands(w, d, p)
       case Link => w.canLink && Lands(w, d, p)
  }

  /** Another program has put something there first. */
  predicate GivesWay(w: World, d: Destination, p: Planned) {
    && p.action != Skip && p.action != Replace && p.entry.kind != Folder && (p.entry.kind == Link ==> w.canLink)
    && p.entry.path !in d && p.entry.path in w.rivals
  }

  /** What is at the path of an entry that has been dealt with: what the entry says, where it was restored
      and not merged; what came before it; or what was there already. */
  predicate Settles(w: World, d: Destination, after: Destination, p: Planned) {
    var path := p.entry.path;
    if Restored(w, d, p) && (p.entry.kind == Folder ==> p.action == Create) then
      Makeable(w.c, w.objects, w.rows, p.entry) && path in after && after[path] == Made(w.c, w.objects, w.rows, p.entry)
    else if GivesWay(w, d, p) then path in after && after[path] == w.rivals[path]
    else SameAt(d, after, path)
  }

  predicate OfPlan(plan: seq<Planned>, q: Path) {
    exists i :: 0 <= i < |plan| && plan[i].entry.path == q
  }

  /** The destination is the one before with the entries numbered in `done` dealt with, and nothing else
      changed. */
  ghost predicate Overlaid(w: World, d: Destination, plan: seq<Planned>, after: Destination, done: set<nat>) {
    && (forall i :: 0 <= i < |plan| && i in done ==> Settles(w, d, after, plan[i]))
    && (forall i :: 0 <= i < |plan| && i !in done ==> SameAt(d, after, plan[i].entry.path))
    && (forall q :: !OfPlan(plan, q) ==> SameAt(d, after, q))
  }

  function UpTo(plan: seq<Planned>, n: nat, kind: EntryKind): set<nat> {
    set i: nat | i < n && i < |plan| && plan[i].entry.kind == kind
  }

  function CountOf(w: World, d: Destination, plan: seq<Planned>, kind: EntryKind, restored: bool): nat {
    if plan == [] then 0
    else
      var last := plan[|plan| - 1];
      CountOf(w, d, plan[..|plan| - 1], kind, restored) + if last.entry.kind == kind && Restored(w, d, last) == restored then 1 else 0
  }

  /** The sizes of the restored files. */
  function BytesOf(w: World, d: Destination, plan: seq<Planned>): nat {
    if plan == [] then 0
    else
      var last := plan[|plan| - 1];
      BytesOf(w, d, plan[..|plan| - 1]) + if last.entry.kind == Regular && Restored(w, d, last) then last.entry.size else 0
  }

  predicate FileWarned(w: World, d: Destination, p: Planned) {
    p.entry.kind == Regular && Restored(w, d, p) && p.entry.path in w.metadataFails
  }

  function WarnedFiles(w: World, d: Destination, plan: seq<Planned>): nat {
    if plan == [] then 0 else WarnedFiles(w, d, plan[..|plan| - 1]) + if FileWarned(w, d, plan[|plan| - 1]) then 1 else 0
  }

  /** The paths reported by the pass over one kind: those not restored, and the files that were restored
      without their times or permissions. */
  function Reports(w: World, d: Destination, plan: seq<Planned>, kind: EntryKind): seq<Path> {
    if plan == [] then []
    else
      var last := plan[|plan| - 1];
      Reports(w, d, plan[..|plan| - 1], kind) +
      if last.entry.kind == kind && (!Restored(w, d, last) || FileWarned(w, d, last)) then [last.entry.path] else []
  }

  /** What the pass over `kind` adds to the result, as far as the entries of `plan`. */
  predicate Adds(w: World, d: Destination, plan: seq<Planned>, kind: EntryKind, s: Progress, s': Progress) {
    && s'.files == s.files + (if kind == Regular then CountOf(w, d, plan, Regular, true) else 0)
    && s'.directories == s.directories + (if kind == Folder then CountOf(w, d, plan, Folder, true) else 0)
    && s'.links == s.links + (if kind == Link then CountOf(w, d, plan, Link, true) else 0)
    && s'.bytes == s.bytes + (if kind == Regular then BytesOf(w, d, plan) else 0)
    && s'.warnings == s.warnings + (if kind == Regular then WarnedFiles(w, d, plan) else 0)
    && s'.skipped == s.skipped + Reports(w, d, plan, kind)
    && s'.touched == s.touched
  }

  /** What dealing with one entry does. */
  predicate DealsWith(w: World, d: Destination, p: Planned, s: Progress, s': Progress) {
    && Settles(w, d, s'.dest, p) && s'.dest - {p.entry.path} == s.dest - {p.entry.path}
    && s'.files == s.files + (if p.entry.kind == Regular && Restored(w, d, p) then 1 else 0)
    && s'.directories == s.directories + (if p.entry.kind == Folder && Restored(w, d, p) then 1 else 0)
    && s'.links == s.links + (if p.entry.kind == Link && Restored(w, d, p) then 1 else 0)
    && s'.bytes == s.bytes + (if p.entry.kind == Regular && Restored(w, d, p) then p.entry.size else 0)
    && s'.warnings == s.warnings + (if FileWarned(w, d, p) then 1 else 0)
    && s'.skipped == s.skipped + (if !Restored(w, d, p) || FileWarned(w, d, p) then [p.entry.path] else [])
    && s'.touched == s.touched
  }

  lemma FileMeaning(w: World, d: Destination, s: Progress, p: Planned)
    requires SameAt(d, s.dest, p.entry.path) && p.entry.kind == Regular && p.action != Skip && Makeable(w.c, w.objects, w.rows, p.entry)
    requires FilePuts(w, s, p, Made(w.c, w.objects, w.rows, p.entry)).Some?
    ensures DealsWith(w, d, p, s, FilePuts(w, s, p, Made(w.c, w.objects, w.rows, p.entry)).value)
  {
  }

  lemma LinkMeaning(w: World, d: Destination, s: Progress, p: Planned)
    requires SameAt(d, s.dest, p.entry.path) && p.entry.kind == Link && p.action != Skip && p.entry.target.Some? && w.canLink
    requires LinkPuts(w, s, p, LinkItem(p.entry.target.value)).Some?
    ensures DealsWith(w, d, p, s, LinkPuts(w, s, p, LinkItem(p.entry.target.value)).value)
  {
  }

  lemma TakesMeaning(w: World, d: Destination, s: Progress, p: Planned)
    requires SameAt(d, s.dest, p.entry.path) && TakesTo(w, s, p).Some?
    ensures DealsWith(w, d, p, s, TakesTo(w, s, p).value)
  {
    if p.action != Skip {
      match p.entry.kind
      case Folder =>
      case Regular => FileMeaning(w, d, s, p);
      case Link =>
        if w.canLink {
          LinkMeaning(w, d, s, p);
        }
    }
  }

  lemma ElsewhereSame(w: World, d: Destination, p: Planned, s: Progress, s': Progress, q: Path)
    requires DealsWith(w, d, p, s, s') && q != p.entry.path
    ensures SameAt(s.dest, s'.dest, q)
  {
    assert q in s'.dest - {p.entry.path} <==> q in s'.dest;
    assert q in s.dest - {p.entry.path} <==> q in s.dest;
    if q in s.dest {
      assert (s'.dest - {p.entry.path})[q] == s'.dest[q];
    }
  }

  lemma SettlesStill(w: World, d: Destination, after: Destination, after': Destination, p: Planned)
    requires Settles(w, d, after, p) && SameAt(after, after', p.entry.path)
    ensures Settles(w, d, after', p)
  {
  }

  lemma StepOverlays(w: World, d: Destination, plan: seq<Planned>, s: Progress, done: set<nat>, i: nat)
    requires DistinctPlan(plan) && Overlaid(w, d, plan, s.dest, done) && i < |plan| && i !in done && TakesTo(w, s, plan[i]).Some?
    ensures Overlaid(w, d, plan, TakesTo(w, s, plan[i]).value.dest, done + {i})
  {
    var s' := TakesTo(w, s, plan[i]).value;
    var after := s'.dest;
    TakesMeaning(w, d, s, plan[i]);
    forall k | 0 <= k < |plan| && k != i
      ensures plan[k].entry.path != plan[i].entry.path && SameAt(s.dest, after, plan[k].entry.path)
      ensures k in done ==> Settles(w, d, after, plan[k])
    {
      ElsewhereSame(w, d, plan[i], s, s', plan[k].entry.path);
      if k in done {
        SettlesStill(w, d, s.dest, after, plan[k]);
      }
    }
    forall q | !OfPlan(plan, q)
      ensures SameAt(d, after, q)
    {
      ElsewhereSame(w, d, plan[i], s, s', q);
    }
  }

  /** What one more entry adds. */
  lemma AddsOneMore(w: World, d: Destination, plan: seq<Planned>, i: nat, kind: EntryKind, s: Progress, before: Progress)
    requires i < |plan| && Adds(w, d, plan[..i], kind, s, before)
    requires plan[i].entry.kind == kind ==> SameAt(d, before.dest, plan[i].entry.path) && TakesTo(w, before, plan[i]).Some?
    ensures Adds(w, d, plan[..i + 1], kind, s, if plan[i].entry.kind == kind then TakesTo(w, before, plan[i]).value else before)
  {
    assert plan[..i + 1][..i] == plan[..i];
    if plan[i].entry.kind == kind {
      TakesMeaning(w, d, before, plan[i]);
    }
  }

  lemma OneMoreOfKind(plan: seq<Planned>, i: nat, kind: EntryKind, done: set<nat>)
    requires i < |plan|
    ensures done + UpTo(plan, i + 1, kind) == if plan[i].entry.kind == kind then done + UpTo(plan, i, kind) + {i} else done + UpTo(plan, i, kind)
  {
  }

  /** The pass over one kind: it deals with the entries of that kind, and adds them up. */
  lemma {:induction false} PassOverlays(w: World, d: Destination, plan: seq<Planned>, s: Progress, done: set<nat>, i: nat, kind: EntryKind)
    requires DistinctPlan(plan) && Overlaid(w, d, plan, s.dest, done) && i <= |plan| && Pass(w, s, plan[..i], kind).Some?
    requires forall k :: k in done && k < |plan| ==> plan[k].entry.kind != kind
    ensures var s' := Pass(w, s, plan[..i], kind).value;
            Overlaid(w, d, plan, s'.dest, done + UpTo(plan, i, kind)) && Adds(w, d, plan[..i], kind, s, s')
  {
    if i == 0 {
      assert done + UpTo(plan, 0, kind) == done;
    } else {
      PassOneMore(w, s, plan, i - 1, kind);
      PassOverlays(w, d, plan, s, done, i - 1, kind);
      var before, sofar := Pass(w, s, plan[..i - 1], kind).value, done + UpTo(plan, i - 1, kind);
      OneMoreOfKind(plan, i - 1, kind, done);
      assert i - 1 !in UpTo(plan, i - 1, kind);
      AddsOneMore(w, d, plan, i - 1, kind, s, before);
      if plan[i - 1].entry.kind == kind {
        StepOverlays(w, d, plan, before, sofar, i - 1);
      }
    }
  }

  lemma AncestorsAreSafe(d: Destination, path: Path, n: nat)
    requires n <= |path| && forall q :: q in d && Above(q, path) ==> d[q] == DirItem
    ensures AncestorsFrom(d, path, n).Ok?
    decreases |path| - n
  {
    if n < |path| && path[..n] in d {
      assert Above(path[..n], path);
      AncestorsAreSafe(d, path, n + 1);
    }
  }

  predicate DistinctPlan(plan: seq<Planned>) {
    forall i, j :: 0 <= i < j < |plan| ==> plan[i].entry.path != plan[j].entry.path
  }

  // ----- the last pass, and the whole ------------------------------------------------------------

  predicate DepthOrderedPlan(plan: seq<Planned>) {
    forall i, j :: 0 <= i < j < |plan| ==> |plan[i].entry.path| <= |plan[j].entry.path|
  }

  function FolderPath(p: Planned): seq<Path> {
    if p.entry.kind == Folder && p.metadataAllowed then [p.entry.path] else []
  }

  /** The directories of the plan that are not skipped. */
  function FolderPaths(plan: seq<Planned>): seq<Path> {
    if plan == [] then [] else FolderPaths(plan[..|plan| - 1]) + FolderPath(plan[|plan| - 1])
  }

  lemma {:induction false} FolderPathsOfConcat(a: seq<Planned>, b: seq<Planned>)
    ensures FolderPaths(a + b) == FolderPaths(a) + FolderPaths(b)
    decreases |b|
  {
    if b == [] {
      assert a + b == a;
    } else {
      assert (a + b)[..|a + b| - 1] == a + b[..|b| - 1];
      FolderPathsOfConcat(a, b[..|b| - 1]);
    }
  }

  /** Those whose times or permissions cannot be set. */
  function Failing(paths: seq<Path>, fails: set<Path>): seq<Path> {
    if paths == [] then []
    else Failing(paths[..|paths| - 1], fails) + if paths[|paths| - 1] in fails then [paths[|paths| - 1]] else []
  }

  lemma FailingOneMore(paths: seq<Path>, p: Path, fails: set<Path>)
    ensures Failing(paths + [p], fails) == Failing(paths, fails) + if p in fails then [p] else []
  {
    assert (paths + [p])[..|paths|] == paths;
  }

  /** Each directory that is not skipped once, and none before one that is deeper. */
  predicate DeepestFirst(plan: seq<Planned>, touched: seq<Path>) {
    && multiset(touched) == multiset(FolderPaths(plan))
    && forall i, j :: 0 <= i < j < |touched| ==> |touched[i]| >= |touched[j]|
  }

  predicate InPlace(dest: Destination, p: Planned) {
    p.entry.kind == Folder && p.metadataAllowed ==> IsDir(dest, p.entry.path)
  }

  /** What a restore that has ended normally leaves, into a destination that was `d`: every entry is dealt
      with and nothing else is changed; the counters and reports are those of the plan; and every directory
      that was not skipped is there and was given its times and permissions after everything below it. */
  ghost predicate Finished(w: World, d: Destination, plan: seq<Planned>, s: Progress) {
    && Deals(w, d, plan, s.dest) && (forall i :: 0 <= i < |plan| ==> InPlace(s.dest, plan[i]))
    && s.files == CountOf(w, d, plan, Regular, true) && s.directories == CountOf(w, d, plan, Folder, true)
    && s.links == CountOf(w, d, plan, Link, true) && s.bytes == BytesOf(w, d, plan)
    && DeepestFirst(plan, s.touched)
    && s.skipped == Reports(w, d, plan, Folder) + Reports(w, d, plan, Regular) + Reports(w, d, plan, Link) + Failing(s.touched, w.metadataFails)
    && s.warnings == WarnedFiles(w, d, plan) + |Failing(s.touched, w.metadataFails)|
  }

  lemma {:induction false} ReportsCount(w: World, d: Destination, plan: seq<Planned>, kind: EntryKind)
    ensures |Reports(w, d, plan, kind)| == CountOf(w, d, plan, kind, false) + if kind == Regular then WarnedFiles(w, d, plan) else 0
  {
    if plan != [] {
      ReportsCount(w, d, plan[..|plan| - 1], kind);
    }
  }

  lemma {:induction false} CountsAddUp(w: World, d: Destination, plan: seq<Planned>)
    ensures CountOf(w, d, plan, Folder, true) + CountOf(w, d, plan, Folder, false) + CountOf(w, d, plan, Regular, true)
            + CountOf(w, d, plan, Regular, false) + CountOf(w, d, plan, Link, true) + CountOf(w, d, plan, Link, false) == |plan|
  {
    if plan != [] {
      CountsAddUp(w, d, plan[..|plan| - 1]);
    }
  }

  /** Restored entries and reports add up to the plan and the warnings. */
  lemma EveryEntryIsAccountedFor(w: World, d: Destination, plan: seq<Planned>, s: Progress)
    requires Finished(w, d, plan, s)
    ensures s.files + s.directories + s.links + |s.skipped| == |plan| + s.warnings
  {
    ReportsCount(w, d, plan, Folder);
    ReportsCount(w, d, plan, Regular);
    ReportsCount(w, d, plan, Link);
    CountsAddUp(w, d, plan);
  }

  lemma {:induction false} NotRestoredIsReported(w: World, d: Destination, plan: seq<Planned>, i: nat)
    requires i < |plan| && !Restored(w, d, plan[i])
    ensures plan[i].entry.path in Reports(w, d, plan, plan[i].entry.kind)
  {
    if i < |plan| - 1 {
      NotRestoredIsReported(w, d, plan[..|plan| - 1], i);
    }
  }

  /** Every planned entry is in place as the snapshot says, or reported. */
  lemma EveryEntryIsInPlaceOrReported(w: World, d: Destination, plan: seq<Planned>, s: Progress, i: nat)
    requires Finished(w, d, plan, s) && i < |plan| && plan[i].metadataAllowed == (plan[i].action != Skip)
    ensures (plan[i].entry.path in s.dest && Faithful(w.c, plan[i].entry, s.dest[plan[i].entry.path])) || plan[i].entry.path in s.skipped
  {
    if !Restored(w, d, plan[i]) {
      NotRestoredIsReported(w, d, plan, i);
    }
  }

  /** The whole restore, where no operation fails, gets to the end. */
  predicate CanFinish(w: World, d: Destination, plan: seq<Planned>) {
    Passes(w, Begin(d), plan).Some? && DirectoriesThere(Passes(w, Begin(d), plan).value.dest, plan)
  }

  /** Every directory of the plan that is not skipped is there, and can be reached. */
  predicate DirectoriesThere(dest: Destination, plan: seq<Planned>) {
    forall i :: 0 <= i < |plan| ==> DirectoryThere(dest, plan[i])
  }

  predicate DirectoryThere(dest: Destination, p: Planned) {
    p.entry.kind == Folder && p.metadataAllowed ==> IsDir(dest, p.entry.path) && SafeAncestors(dest, p.entry.path).Ok?
  }

  lemma NothingDealtWith(w: World, d: Destination, plan: seq<Planned>)
    ensures Overlaid(w, d, plan, d, {})
  {
  }

  ghost predicate Deals(w: World, d: Destination, plan: seq<Planned>, after: Destination) {
    && (forall i :: 0 <= i < |plan| ==> Settles(w, d, after, plan[i]))
    && (forall q :: !OfPlan(plan, q) ==> SameAt(d, after, q))
  }

  lemma AllDealtWith(w: World, d: Destination, plan: seq<Planned>, after: Destination)
    requires Overlaid(w, d, plan, after, {} + UpTo(plan, |plan|, Folder) + UpTo(plan, |plan|, Regular) + UpTo(plan, |plan|, Link))
    ensures Deals(w, d, plan, after)
  {
    forall i | 0 <= i < |plan|
      ensures Settles(w, d, after, plan[i])
    {
      assert i in {} + UpTo(plan, |plan|, Folder) + UpTo(plan, |plan|, Regular) + UpTo(plan, |plan|, Link);
    }
  }

  /** The three passes together. */
  lemma PassesOverlay(w: World, d: Destination, plan: seq<Planned>)
    requires DistinctPlan(plan) && Passes(w, Begin(d), plan).Some?
    ensures var s := Passes(w, Begin(d), plan).value;
            && Deals(w, d, plan, s.dest)
            && s.files == CountOf(w, d, plan, Regular, true) && s.directories == CountOf(w, d, plan, Folder, true)
            && s.links == CountOf(w, d, plan, Link, true) && s.bytes == BytesOf(w, d, plan) && s.warnings == WarnedFiles(w, d, plan)
            && s.skipped == Reports(w, d, plan, Folder) + Reports(w, d, plan, Regular) + Reports(w, d, plan, Link) && s.touched == []
  {
    assert plan[..|plan|] == plan;
    NothingDealtWith(w, d, plan);
    PassOverlays(w, d, plan, Begin(d), {}, |plan|, Folder);
    var one := Pass(w, Begin(d), plan, Folder).value;
    var folders := {} + UpTo(plan, |plan|, Folder);
    PassOverlays(w, d, plan, one, folders, |plan|, Regular);
    var two := Pass(w, one, plan, Regular).value;
    PassOverlays(w, d, plan, two, folders + UpTo(plan, |plan|, Regular), |plan|, Link);
    AllDealtWith(w, d, plan, Pass(w, two, plan, Link).value.dest);
  }

  lemma StandsStill(c: O.Settings, dest: Destination, rivals: Destination, plan: seq<Planned>)
    ensures Fair(c, dest, dest, rivals, plan)
  {
  }

  lemma FairAgain(c: O.Settings, before: Destination, middle: Destination, after: Destination, rivals: Destination, plan: seq<Planned>)
    requires Fair(c, before, middle, rivals, plan) && Fair(c, middle, after, rivals, plan)
    ensures Fair(c, before, after, rivals, plan)
  {
    ShelteredThrough(before, middle, after);
    forall q | q in after
      ensures Explained(c, before, after, rivals, plan, q)
    {
      ExplainedAgain(c, before, middle, after, rivals, plan, q);
    }
  }

  lemma ExplainedAgain(c: O.Settings, before: Destination, middle: Destination, after: Destination, rivals: Destination, plan: seq<Planned>, q: Path)
    requires q in after && Explained(c, middle, after, rivals, plan, q)
    requires (q in before ==> q in middle) && (q in middle ==> Explained(c, before, middle, rivals, plan, q))
    ensures Explained(c, before, after, rivals, plan, q)
  {
  }

  /** A list that reassembles does so up to any of its rows. */
  lemma {:induction false} PrefixReassembles(c: O.Settings, d: O.Disk, rows: seq<R.Listed>, i: nat)
    requires i <= |rows| && R.Reassembled(c, d, rows).Ok?
    ensures R.Reassembled(c, d, rows[..i]).Ok?
    decreases |rows|
  {
    if i < |rows| {
      PrefixReassembles(c, d, rows[..|rows| - 1], i);
      assert rows[..|rows| - 1][..i] == rows[..i];
    } else {
      assert rows[..i] == rows;
    }
  }

  // ----- the code ------------------------------------------------------------------------------

  /** A restore under way. */
  class Run {
    const c: O.Settings
    const objects: O.Disk
    const rows: map<Path, seq<R.Listed>>
    const rivals: Destination
    const metadataFails: set<Path>
    const canLink: bool
    var dest: Destination
    var fuse: Budget
    var files: nat
    var directories: nat
    var links: nat
    var bytes: nat
    var skipped: seq<Path>
    var warnings: nat
    var touched: seq<Path>

    constructor (c: O.Settings, objects: O.Disk, rows: map<Path, seq<R.Listed>>, rivals: Destination, metadataFails: set<Path>, canLink: bool,
                 dest: Destination, fuse: Budget)
      ensures TheWorld() == World(c, objects, rows, rivals, metadataFails, canLink) && Now() == Begin(dest) && this.fuse == fuse
    {
      this.c, this.objects, this.rows, this.rivals, this.metadataFails, this.canLink := c, objects, rows, rivals, metadataFails, canLink;
      this.dest, this.fuse := dest, fuse;
      files, directories, links, bytes, warnings, skipped, touched := 0, 0, 0, 0, 0, [], [];
    }

    function TheWorld(): World {
      World(c, objects, rows, rivals, metadataFails, canLink)
    }

    function Now(): Progress
      reads this
    {
      Progress(dest, files, directories, links, bytes, skipped, warnings, touched)
    }

    /** An operation, or a check for a stop request, that may fail. */
    method Attempt() returns (ok: bool)
      modifies this`fuse
      ensures old(fuse) == None ==> ok && fuse == None
    {
      ok, fuse := !Spent(fuse), OneLess(fuse);
    }

    method Report(path: Path)
      modifies this`skipped
      ensures skipped == old(skipped) + [path]
    {
      skipped := skipped + [path];
    }

    /** The first pass, for one directory. */
    method RestoreDirectory(p: Planned) returns (ok: bool)
      requires p.entry.kind == Folder
      modifies this`dest, this`fuse, this`directories, this`skipped
      ensures Fair(c, old(dest), dest, rivals, [p])
      ensures ok ==> TakesTo(TheWorld(), old(Now()), p) == Some(Now())
      ensures old(fuse) == None ==> fuse == None && (ok <==> TakesTo(TheWorld(), old(Now()), p).Some?)
    {
      ok := Attempt();
      if !ok {
        return false;
      }
      if p.action == Skip {
        Report(p.entry.path);
        return true;
      }
      if p.action == Create {
        var path := p.entry.path;
        var safe := SafeAncestors(dest, path);
        ok := Attempt();
        if safe.Err? || !ok || path == [] || path in dest || !IsDir(dest, path[..|path| - 1]) {
          return false;
        }
        assert Restores(c, [p][0], path, DirItem);
        dest := dest[path := DirItem];
      }
      directories := directories + 1;
      return true;
    }

    /** Reads, verifies and collects the chunks of a file. */
    method Collect(e: Entry, rows: seq<R.Listed>) returns (r: Option<Bytes>)
      modifies this`fuse
      ensures r.Some? ==> |r.value| == e.size && e.hash == Some(c.codec.digest(r.value))
      ensures r.Some? ==> R.Reassembled(c, objects, rows) == Ok(r.value) && R.TotalLength(rows) <= MAX_UINT64
      ensures old(fuse) == None ==> fuse == None
      ensures old(fuse) == None && R.Reassembled(c, objects, rows).Ok? && R.TotalLength(rows) <= MAX_UINT64 ==>
                var content := R.Reassembled(c, objects, rows).value;
                |content| == e.size && e.hash == Some(c.codec.digest(content)) ==> r == Some(content)
    {
      var output: Bytes, written := [], 0;
      var i := 0;
      assert rows[..0] == [];
      while i < |rows|
        invariant i <= |rows| && written == |output| == R.TotalLength(rows[..i]) <= MAX_UINT64
        invariant R.Reassembled(c, objects, rows[..i]) == Ok(output)
        invariant old(fuse) == None ==> fuse == None
      {
        R.OneMore(rows, i);
        assert rows[..i + 1][..i] == rows[..i];
        if R.Reassembled(c, objects, rows).Ok? {
          PrefixReassembles(c, objects, rows, i + 1);
        }
        var ok := Attempt();
        if !ok {
          return None;
        }
        var raw := O.ReadVerified(c, objects, rows[i].hash, rows[i].rawSize, rows[i].storedSize);
        if raw.Err? || |raw.value| != rows[i].length {
          return None;
        }
        ok := Attempt();
        if !ok || rows[i].length > MAX_UINT64 - written {
          return None;
        }
        output := output + raw.value;
        written := written + rows[i].length;
        i := i + 1;
      }
      assert rows[..|rows|] == rows;
      if written != e.size || e.hash != Some(c.codec.digest(output)) {
        return None;
      }
      return Some(output);
    }

    /** Renames a finished temporary to its destination: over what is there if that was planned, and
        otherwise only where nothing is. */
    method Publish(p: Planned, item: Item) returns (ok: bool, published: bool)
      requires p.action != Skip && Faithful(c, p.entry, item)
      requires p.entry.path != [] && IsDir(dest, p.entry.path[..|p.entry.path| - 1])
      modifies this`dest, this`fuse
      ensures Fair(c, old(dest), dest, rivals, [p])
      ensures ok ==> PutsTo(TheWorld(), old(dest), p, item) == Some(dest) && (published <==> Lands(TheWorld(), old(dest), p))
      ensures old(fuse) == None ==> fuse == None && (ok <==> PutsTo(TheWorld(), old(dest), p, item).Some?)
    {
      var path := p.entry.path;
      ok := Attempt();
      if !ok {
        return false, false;
      }
      assert Restores(c, [p][0], path, item);
      if p.action == Replace {
        if IsDir(dest, path) {
          return false, false;
        }
        dest := dest[path := item];
        return true, true;
      }
      if path !in dest && path in rivals {
        dest := dest[path := rivals[path]];
      }
      if path in dest {
        return true, false;
      }
      dest := dest[path := item];
      return true, true;
    }

    /** Puts the finished file in place, and counts and reports. */
    method PublishFile(p: Planned, content: Bytes) returns (ok: bool)
      requires p.entry.kind == Regular && p.action != Skip && Faithful(c, p.entry, FileItem(content))
      requires p.entry.path != [] && IsDir(dest, p.entry.path[..|p.entry.path| - 1])
      modifies this`dest, this`fuse, this`files, this`bytes, this`skipped, this`warnings
      ensures Fair(c, old(dest), dest, rivals, [p])
      ensures ok ==> FilePuts(TheWorld(), old(Now()), p, FileItem(content)) == Some(Now())
      ensures old(fuse) == None ==> fuse == None && (ok <==> FilePuts(TheWorld(), old(Now()), p, FileItem(content)).Some?)
    {
      var published;
      ok, published := Publish(p, FileItem(content));
      if !ok {
        return false;
      }
      if !published {
        Report(p.entry.path);
        return true;
      }
      ok := Attempt();
      if ok {
        CountFile(p.entry);
      }
    }

    method CountFile(e: Entry)
      modifies this`files, this`bytes, this`skipped, this`warnings
      ensures Now() == FileCounted(TheWorld(), old(Now()), e)
    {
      files := files + 1;
      bytes := bytes + e.size;
      if e.path in metadataFails {
        Report(e.path);
        warnings := warnings + 1;
      }
    }

    /** The second pass, for one file. Until the rename only a temporary file is written. */
    method RestoreFile(p: Planned) returns (ok: bool)
      requires p.entry.kind == Regular && p.entry.path in rows
      modifies this`dest, this`fuse, this`files, this`bytes, this`skipped, this`warnings
      ensures Fair(c, old(dest), dest, rivals, [p])
      ensures ok ==> TakesTo(TheWorld(), old(Now()), p) == Some(Now())
      ensures old(fuse) == None ==> fuse == None && (ok <==> TakesTo(TheWorld(), old(Now()), p).Some?)
    {
      var e := p.entry;
      ok := Attempt();
      if !ok {
        return false;
      }
      if p.action == Skip {
        Report(e.path);
        return true;
      }
      if SafeAncestors(dest, e.path).Err? || e.path == [] || !IsDir(dest, e.path[..|e.path| - 1]) {
        return false;
      }
      var content := Collect(e, rows[e.path]);
      ok := Attempt();
      if content == None || !ok || SafeAncestors(dest, e.path).Err? {
        return false;
      }
      ok := PublishFile(p, content.value);
    }

    /** Puts the finished link in place, and counts. */
    method PublishLink(p: Planned) returns (ok: bool)
      requires p.entry.kind == Link && p.action != Skip && p.entry.target.Some?
      requires p.entry.path != [] && IsDir(dest, p.entry.path[..|p.entry.path| - 1])
      modifies this`dest, this`fuse, this`links, this`skipped
      ensures Fair(c, old(dest), dest, rivals, [p])
      ensures ok ==> LinkPuts(TheWorld(), old(Now()), p, LinkItem(p.entry.target.value)) == Some(Now())
      ensures old(fuse) == None ==>
                fuse == None && (ok <==> LinkPuts(TheWorld(), old(Now()), p, LinkItem(p.entry.target.value)).Some?)
    {
      var published;
      ok, published := Publish(p, LinkItem(p.entry.target.value));
      if !ok {
        return false;
      }
      if !published {
        Report(p.entry.path);
        return true;
      }
      ok := Attempt();
      if ok {
        links := links + 1;
      }
    }

    /** The third pass, for one link. */
    method RestoreLink(p: Planned) returns (ok: bool)
      requires p.entry.kind == Link
      modifies this`dest, this`fuse, this`links, this`skipped
      ensures Fair(c, old(dest), dest, rivals, [p])
      ensures ok ==> TakesTo(TheWorld(), old(Now()), p) == Some(Now())
      ensures old(fuse) == None ==> fuse == None && (ok <==> TakesTo(TheWorld(), old(Now()), p).Some?)
    {
      var e := p.entry;
      ok := Attempt();
      if !ok {
        return false;
      }
      if p.action == Skip {
        Report(e.path);
        return true;
      }
      if e.target == None || SafeAncestors(dest, e.path).Err? {
        return false;
      }
      if !canLink {
        Report(e.path);
        return true;
      }
      ok := Attempt();
      if !ok || e.path == [] || !IsDir(dest, e.path[..|e.path| - 1]) || SafeAncestors(dest, e.path).Err? {
        return false;
      }
      ok := PublishLink(p);
    }

    /** Of the directories touched so far, those that could not be given their times and permissions have
        been reported, after `reports`. */
    predicate Told(reports: seq<Path>, warned: nat)
      reads this
    {
      skipped == reports + Failing(touched, metadataFails) && warnings == warned + |Failing(touched, metadataFails)|
    }

    /** The last pass, for one directory. */
    method ApplyDirectoryMetadata(p: Planned, ghost reports: seq<Path>, ghost warned: nat) returns (ok: bool)
      requires p.entry.kind == Folder && p.metadataAllowed && Told(reports, warned)
      modifies this`fuse, this`skipped, this`warnings, this`touched
      ensures ok ==> IsDir(dest, p.entry.path) && touched == old(touched) + [p.entry.path] && Told(reports, warned)
      ensures old(fuse) == None ==> fuse == None && (ok <==> DirectoryThere(dest, p))
    {
      ok := Attempt();
      if !ok || SafeAncestors(dest, p.entry.path).Err? || !IsDir(dest, p.entry.path) {
        return false;
      }
      FailingOneMore(touched, p.entry.path, metadataFails);
      touched := touched + [p.entry.path];
      if p.entry.path in metadataFails {
        Report(p.entry.path);
        warnings := warnings + 1;
      }
      return true;
    }

    method DirectoriesPass(plan: seq<Planned>) returns (ok: bool)
      modifies this`dest, this`fuse, this`directories, this`skipped
      ensures Fair(c, old(dest), dest, rivals, plan)
      ensures ok ==> Pass(TheWorld(), old(Now()), plan, Folder) == Some(Now())
      ensures old(fuse) == None ==> fuse == None && (ok <==> Pass(TheWorld(), old(Now()), plan, Folder).Some?)
    {
      ghost var start := Now();
      StandsStill(c, dest, rivals, plan);
      var i := 0;
      assert plan[..0] == [];
      while i < |plan|
        invariant i <= |plan| && Fair(c, start.dest, dest, rivals, plan)
        invariant Pass(TheWorld(), start, plan[..i], Folder) == Some(Now()) && (old(fuse) == None ==> fuse == None)
      {
        PassOneMore(TheWorld(), start, plan, i, Folder);
        ghost var middle := dest;
        if plan[i].entry.kind == Folder {
          ok := RestoreDirectory(plan[i]);
          FairThrough(c, start.dest, middle, dest, rivals, plan, i);
          if !ok {
            return false;
          }
        }
        i := i + 1;
      }
      assert plan[..|plan|] == plan;
      return true;
    }

    method FilesPass(plan: seq<Planned>) returns (ok: bool)
      requires forall i :: 0 <= i < |plan| && plan[i].entry.kind == Regular ==> plan[i].entry.path in rows
      modifies this`dest, this`fuse, this`files, this`bytes, this`skipped, this`warnings
      ensures Fair(c, old(dest), dest, rivals, plan)
      ensures ok ==> Pass(TheWorld(), old(Now()), plan, Regular) == Some(Now())
      ensures old(fuse) == None ==> fuse == None && (ok <==> Pass(TheWorld(), old(Now()), plan, Regular).Some?)
    {
      ghost var start := Now();
      StandsStill(c, dest, rivals, plan);
      var i := 0;
      assert plan[..0] == [];
      while i < |plan|
        invariant i <= |plan| && Fair(c, start.dest, dest, rivals, plan)
        invariant Pass(TheWorld(), start, plan[..i], Regular) == Some(Now()) && (old(fuse) == None ==> fuse == None)
      {
        PassOneMore(TheWorld(), start, plan, i, Regular);
        ghost var middle := dest;
        if plan[i].entry.kind == Regular {
          ok := RestoreFile(plan[i]);
          FairThrough(c, start.dest, middle, dest, rivals, plan, i);
          if !ok {
            return false;
          }
        }
        i := i + 1;
      }
      assert plan[..|plan|] == plan;
      return true;
    }

    method LinksPass(plan: seq<Planned>) returns (ok: bool)
      modifies this`dest, this`fuse, this`links, this`skipped
      ensures Fair(c, old(dest), dest, rivals, plan)
      ensures ok ==> Pass(TheWorld(), old(Now()), plan, Link) == Some(Now())
      ensures old(fuse) == None ==> fuse == None && (ok <==> Pass(TheWorld(), old(Now()), plan, Link).Some?)
    {
      ghost var start := Now();
      StandsStill(c, dest, rivals, plan);
      var i := 0;
      assert plan[..0] == [];
      while i < |plan|
        invariant i <= |plan| && Fair(c, start.dest, dest, rivals, plan)
        invariant Pass(TheWorld(), start, plan[..i], Link) == Some(Now()) && (old(fuse) == None ==> fuse == None)
      {
        PassOneMore(TheWorld(), start, plan, i, Link);
        ghost var middle := dest;
        if plan[i].entry.kind == Link {
          ok := RestoreLink(plan[i]);
          FairThrough(c, start.dest, middle, dest, rivals, plan, i);
          if !ok {
            return false;
          }
        }
        i := i + 1;
      }
      assert plan[..|plan|] == plan;
      return true;
    }

    /** Only directories that are not skipped are given their times and permissions. */
    method MetadataOf(p: Planned, ghost reports: seq<Path>, ghost warned: nat) returns (ok: bool)
      requires Told(reports, warned)
      modifies this`fuse, this`skipped, this`warnings, this`touched
      ensures ok ==> Told(reports, warned) && touched == old(touched) + FolderPath(p) && InPlace(dest, p)
      ensures old(fuse) == None ==> fuse == None && (ok <==> DirectoryThere(dest, p))
    {
      ok := true;
      if p.entry.kind == Folder && p.metadataAllowed {
        ok := ApplyDirectoryMetadata(p, reports, warned);
      } else {
        assert touched + [] == touched;
      }
    }

    /** The directories of one depth, in plan order. */
    method MetadataOfDepth(plan: seq<Planned>, begin: nat, end: nat, ghost reports: seq<Path>, ghost warned: nat) returns (ok: bool)
      requires begin <= end <= |plan| && Told(reports, warned)
      modifies this`fuse, this`skipped, this`warnings, this`touched
      ensures ok ==> Told(reports, warned) && touched == old(touched) + FolderPaths(plan[begin..end])
      ensures ok ==> forall k :: begin <= k < end ==> InPlace(dest, plan[k])
      ensures old(fuse) == None ==> fuse == None && (ok <==> forall k :: begin <= k < end ==> DirectoryThere(dest, plan[k]))
    {
      var i := begin;
      ghost var d, before := dest, touched;
      assert touched + [] == touched && plan[begin..begin] == [];
      while i < end
        invariant begin <= i <= end && dest == d && touched == before + FolderPaths(plan[begin..i])
        invariant Told(reports, warned) && (old(fuse) == None ==> fuse == None)
        invariant forall k :: begin <= k < i ==> InPlace(d, plan[k])
        invariant old(fuse) == None ==> forall k :: begin <= k < i ==> DirectoryThere(d, plan[k])
      {
        GroupOneMore(plan, begin, i);
        assert before + FolderPaths(plan[begin..i]) + FolderPath(plan[i]) == before + FolderPaths(plan[begin..i + 1]);
        ok := MetadataOf(plan[i], reports, warned);
        if !ok {
          return false;
        }
        i := i + 1;
      }
      return true;
    }

    /** Deepest directories first, directories of equal depth in plan order. */
    method MetadataPass(plan: seq<Planned>) returns (ok: bool)
      requires touched == [] && DepthOrderedPlan(plan)
      modifies this`fuse, this`skipped, this`warnings, this`touched
      ensures ok ==> Told(old(skipped), old(warnings)) && DeepestFirst(plan, touched)
      ensures ok ==> forall i :: 0 <= i < |plan| ==> InPlace(dest, plan[i])
      ensures old(fuse) == None ==> fuse == None && (ok <==> DirectoriesThere(dest, plan))
    {
      var end: nat := |plan|;
      assert plan[end..] == [] && Told(skipped, warnings) by {
        assert skipped + [] == skipped;
      }
      while end > 0
        invariant end <= |plan| && Told(old(skipped), old(warnings)) && (old(fuse) == None ==> fuse == None)
        invariant DeepestFirst(plan[end..], touched)
        invariant forall i :: end <= i < |plan| ==> InPlace(dest, plan[i])
        invariant old(fuse) == None ==> forall i :: end <= i < |plan| ==> DirectoryThere(dest, plan[i])
      {
        var begin := end - 1;
        while begin > 0 && |plan[begin - 1].entry.path| == |plan[end - 1].entry.path|
          invariant 0 <= begin < end <= |plan|
          invariant forall k :: begin <= k < end ==> |plan[k].entry.path| == |plan[end - 1].entry.path|
        {
          begin := begin - 1;
        }
        ghost var before := touched;
        ok := MetadataOfDepth(plan, begin, end, old(skipped), old(warnings));
        if !ok {
          return false;
        }
        OneDepthMore(plan, begin, end, before);
        end := begin;
      }
      assert plan[0..] == plan;
      return true;
    }

    /** The passes of `restore`. However the run ends, and whatever the object store contains, nothing at
        the destination has disappeared and everything there is explained: only a replacement displaces
        anything, and what was restored is a directory, a verified file of the recorded length, or the
        recorded link. When it ends normally, the destination, the counters and the reports are exactly
        those of the plan. Without failing operations it ends normally if and only if it can. */
    method Execute(plan: seq<Planned>) returns (ok: bool)
      requires DistinctPlan(plan) && DepthOrderedPlan(plan) && Now() == Begin(dest)
      requires forall i :: 0 <= i < |plan| && plan[i].entry.kind == Regular ==> plan[i].entry.path in rows
      modifies this
      ensures Fair(c, old(dest), dest, rivals, plan)
      ensures ok ==> Finished(TheWorld(), old(dest), plan, Now())
      ensures old(fuse) == None ==> (ok <==> CanFinish(TheWorld(), old(dest), plan))
    {
      ghost var start := dest;
      ok := DirectoriesPass(plan);
      if !ok {
        return false;
      }
      ghost var one := dest;
      ok := FilesPass(plan);
      FairAgain(c, start, one, dest, rivals, plan);
      if !ok {
        return false;
      }
      ghost var two := dest;
      ok := LinksPass(plan);
      FairAgain(c, start, two, dest, rivals, plan);
      if !ok {
        return false;
      }
      PassesOverlay(TheWorld(), start, plan);
      ok := MetadataPass(plan);
    }
  }

  lemma {:induction false} FolderPathsAreOfPlan(plan: seq<Planned>, p: Path)
    requires p in FolderPaths(plan)
    ensures OfPlan(plan, p)
  {
    var last := plan[|plan| - 1];
    if last.entry.path != p {
      FolderPathsAreOfPlan(plan[..|plan| - 1], p);
      var i :| 0 <= i < |plan| - 1 && plan[..|plan| - 1][i].entry.path == p;
      assert plan[i].entry.path == p;
    }
  }

  lemma DepthOfGroup(plan: seq<Planned>, begin: nat, end: nat, p: Path)
    requires begin < end <= |plan| && p in FolderPaths(plan[begin..end])
    requires forall k :: begin <= k < end ==> |plan[k].entry.path| == |plan[end - 1].entry.path|
    ensures |p| == |plan[end - 1].entry.path|
  {
    FolderPathsAreOfPlan(plan[begin..end], p);
    var i :| 0 <= i < |plan[begin..end]| && plan[begin..end][i].entry.path == p;
    assert plan[begin + i].entry.path == p;
  }

  lemma DepthOfRest(plan: seq<Planned>, end: nat, p: Path)
    requires 0 < end <= |plan| && DepthOrderedPlan(plan) && p in FolderPaths(plan[end..])
    ensures |p| >= |plan[end - 1].entry.path|
  {
    FolderPathsAreOfPlan(plan[end..], p);
    var i :| 0 <= i < |plan[end..]| && plan[end..][i].entry.path == p;
    assert plan[end + i].entry.path == p;
  }

  /** The directories of the next depth come after the deeper ones. */
  lemma OneDepthMore(plan: seq<Planned>, begin: nat, end: nat, touched: seq<Path>)
    requires begin < end <= |plan| && DepthOrderedPlan(plan) && DeepestFirst(plan[end..], touched)
    requires forall k :: begin <= k < end ==> |plan[k].entry.path| == |plan[end - 1].entry.path|
    ensures DeepestFirst(plan[begin..], touched + FolderPaths(plan[begin..end]))
  {
    var group, depth := FolderPaths(plan[begin..end]), |plan[end - 1].entry.path|;
    GroupIsAdded(plan, begin, end, touched);
    forall p | p in group
      ensures |p| == depth
    {
      DepthOfGroup(plan, begin, end, p);
    }
    forall p | p in touched
      ensures |p| >= depth
    {
      assert p in multiset(touched);
      DepthOfRest(plan, end, p);
    }
    JoinedDescend(touched, group, depth);
  }

  lemma GroupOneMore(plan: seq<Planned>, begin: nat, i: nat)
    requires begin <= i < |plan|
    ensures FolderPaths(plan[begin..i + 1]) == FolderPaths(plan[begin..i]) + FolderPath(plan[i])
  {
    assert plan[begin..i + 1][..i - begin] == plan[begin..i];
  }

  lemma GroupIsAdded(plan: seq<Planned>, begin: nat, end: nat, touched: seq<Path>)
    requires begin < end <= |plan| && multiset(touched) == multiset(FolderPaths(plan[end..]))
    ensures multiset(touched + FolderPaths(plan[begin..end])) == multiset(FolderPaths(plan[begin..]))
  {
    assert plan[begin..] == plan[begin..end] + plan[end..];
    FolderPathsOfConcat(plan[begin..end], plan[end..]);
  }

  lemma JoinedDescend(a: seq<Path>, b: seq<Path>, depth: nat)
    requires forall i, j :: 0 <= i < j < |a| ==> |a[i]| >= |a[j]|
    requires (forall p :: p in a ==> |p| >= depth) && (forall p :: p in b ==> |p| == depth)
    ensures var all := a + b; forall i, j :: 0 <= i < j < |all| ==> |all[i]| >= |all[j]|
  {
    forall i | 0 <= i < |a + b|
      ensures i < |a| ==> |(a + b)[i]| >= depth
      ensures i >= |a| ==> |(a + b)[i]| == depth
    {
      assert (a + b)[i] == if i < |a| then a[i] else b[i - |a|];
    }
  }
}
