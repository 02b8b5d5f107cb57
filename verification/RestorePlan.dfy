/** What a restore will do with each selected entry. */
module RestorePlan {
  import opened Common
  import opened Metadata
  import opened Selection

  /** What can be at a path of the destination. Links and reparse points are never followed. */
  datatype Item = DirItem | FileItem(bytes: Bytes) | LinkItem(target: Bytes)

  type Destination = map<Path, Item>

  datatype Choice = ReplaceIt | SkipIt | CancelAll

  datatype Policy = Never | Always | Prompt(resolver: (Path, EntryKind) -> Choice)

  datatype Action = Create | Merge | Replace | Skip

  datatype Planned = Planned(entry: Entry, action: Action, metadataAllowed: bool)

  predicate IsDir(d: Destination, p: Path) {
    p in d && d[p] == DirItem
  }

  /** Whether the ancestors of `path` from depth `n` on are real directories as far as they exist. */
  function AncestorsFrom(d: Destination, path: Path, n: nat): Result<nat, RestoreError>
    requires n <= |path|
    decreases |path| - n
  {
    if n == |path| || path[..n] !in d then Ok(n)
    else
      match d[path[..n]]
      case DirItem => AncestorsFrom(d, path, n + 1)
      case LinkItem(_) => Err(UnsafePath)
      case FileItem(_) => Err(Exists)
  }

  function SafeAncestors(d: Destination, path: Path): Result<nat, RestoreError> {
    if !IsDir(d, []) then Err(UnsafePath) else if path == [] then Ok(0) else AncestorsFrom(d, path, 1)
  }

  /** What to do where something is in the way. */
  function ConflictAction(policy: Policy, e: Entry, existing: Item): Result<Action, RestoreError> {
    if e.kind == Folder && existing == DirItem then Ok(Merge)
    else if policy == Never then Ok(Skip)
    else
      var choice := if policy.Prompt? then policy.resolver(e.path, e.kind) else ReplaceIt;
      if choice == CancelAll then Err(Interrupted)
      else if choice == SkipIt then Ok(Skip)
      else if e.kind == Folder || existing == DirItem then Err(Exists)
      else Ok(Replace)
  }

  predicate BelowSkipped(skipped: seq<Path>, p: Path) {
    exists k :: 0 <= k < |skipped| && AtOrAbove(skipped[k], p)
  }

  /** One entry of the plan, given the directories skipped so far. */
  function Decide(policy: Policy, d: Destination, e: Entry, skipped: seq<Path>): Result<Planned, RestoreError> {
    if e.path == [] then Ok(Planned(e, Merge, true))
    else if BelowSkipped(skipped, e.path) then Ok(Planned(e, Skip, false))
    else
      match SafeAncestors(d, e.path)
      case Err(error) => Err(error)
      case Ok(_) =>
        if e.path !in d then Ok(Planned(e, Create, true))
        else
          match ConflictAction(policy, e, d[e.path])
          case Err(error) => Err(error)
          case Ok(action) => Ok(Planned(e, action, action != Skip))
  }

  /** The directories skipped once `p` has been decided; those below a skipped one need not be added. */
  function SkippedAfter(skipped: seq<Path>, p: Planned): seq<Path> {
    if p.action == Skip && p.entry.kind == Folder && !BelowSkipped(skipped, p.entry.path) then skipped + [p.entry.path] else skipped
  }

  function PlanFrom(policy: Policy, d: Destination, entries: seq<Entry>, skipped: seq<Path>): Result<seq<Planned>, RestoreError>
    decreases |entries|
  {
    if entries == [] then Ok([])
    else
      match Decide(policy, d, entries[0], skipped)
      case Err(error) => Err(error)
      case Ok(first) =>
        match PlanFrom(policy, d, entries[1..], SkippedAfter(skipped, first))
        case Err(error) => Err(error)
        case Ok(rest) => Ok([first] + rest)
  }

  // ----- the order -----------------------------------------------------------------------------

  /** A path as it is written: its components, separated. */
  function Written(path: Path): Bytes {
    if path == [] then [] else if |path| == 1 then path[0] else Written(path[..|path| - 1]) + [47] + path[|path| - 1]
  }

  /** Shallower paths first; paths of equal depth by the bytes they are written with. */
  predicate Precedes(a: Entry, b: Entry) {
    |a.path| < |b.path| || (|a.path| == |b.path| && BytesBefore(Written(a.path), Written(b.path)))
  }

  predicate BytesBefore(a: Bytes, b: Bytes)
    decreases |a|
  {
    if b == [] then false else if a == [] then true else a[0] < b[0] || (a[0] == b[0] && BytesBefore(a[1..], b[1..]))
  }

  function Insert(e: Entry, sorted: seq<Entry>): (r: seq<Entry>)
    ensures multiset(r) == multiset(sorted) + multiset{e}
  {
    if sorted == [] || Precedes(e, sorted[0]) then [e] + sorted
    else
      assert sorted == [sorted[0]] + sorted[1..];
      [sorted[0]] + Insert(e, sorted[1..])
  }

  function ByDepth(entries: seq<Entry>): (r: seq<Entry>)
    ensures multiset(r) == multiset(entries) && |r| == |entries|
  {
    if entries == [] then []
    else
      var r := Insert(entries[0], ByDepth(entries[1..]));
      assert entries == [entries[0]] + entries[1..];
      assert |r| == |multiset(r)| && |entries| == |multiset(entries)|;
      r
  }

  predicate DepthOrdered(entries: seq<Entry>) {
    forall i, j :: 0 <= i < j < |entries| ==> |entries[i].path| <= |entries[j].path|
  }

  lemma {:induction false} InsertKeepsOrder(e: Entry, sorted: seq<Entry>)
    requires DepthOrdered(sorted)
    ensures DepthOrdered(Insert(e, sorted))
  {
    if sorted != [] && !Precedes(e, sorted[0]) {
      InsertKeepsOrder(e, sorted[1..]);
      var r := Insert(e, sorted[1..]);
      forall j | 0 <= j < |r|
        ensures |sorted[0].path| <= |r[j].path|
      {
        assert r[j] in multiset(r);
        assert r[j] == e || r[j] in sorted[1..];
      }
    }
  }

  lemma {:induction false} ByDepthIsOrdered(entries: seq<Entry>)
    ensures DepthOrdered(ByDepth(entries))
  {
    if entries != [] {
      ByDepthIsOrdered(entries[1..]);
      InsertKeepsOrder(entries[0], ByDepth(entries[1..]));
    }
  }

  lemma {:induction false} BytesBeforeIsStrict(a: Bytes, b: Bytes)
    ensures BytesBefore(a, b) ==> !BytesBefore(b, a)
    decreases |a|
  {
    if a != [] && b != [] {
      BytesBeforeIsStrict(a[1..], b[1..]);
    }
  }

  lemma {:induction false} BytesBeforeThrough(a: Bytes, b: Bytes, c: Bytes)
    requires BytesBefore(a, b) && BytesBefore(b, c)
    ensures BytesBefore(a, c)
    decreases |a|
  {
    if a != [] && a[0] == b[0] && b[0] == c[0] {
      BytesBeforeThrough(a[1..], b[1..], c[1..]);
    }
  }

  predicate Sorted(entries: seq<Entry>) {
    forall i, j :: 0 <= i < j < |entries| ==> !Precedes(entries[j], entries[i])
  }

  lemma NotBefore(e: Entry, first: Entry, later: Entry)
    requires Precedes(e, first) && !Precedes(later, first)
    ensures !Precedes(later, e)
  {
    if Precedes(later, e) && |later.path| == |e.path| == |first.path| {
      BytesBeforeThrough(Written(later.path), Written(e.path), Written(first.path));
    }
  }

  lemma {:induction false} InsertKeepsSorted(e: Entry, sorted: seq<Entry>)
    requires Sorted(sorted)
    ensures Sorted(Insert(e, sorted))
  {
    if sorted == [] {
    } else if Precedes(e, sorted[0]) {
      BytesBeforeIsStrict(Written(e.path), Written(sorted[0].path));
      forall j | 0 <= j < |sorted|
        ensures !Precedes(sorted[j], e)
      {
        if j > 0 {
          NotBefore(e, sorted[0], sorted[j]);
        }
      }
    } else {
      InsertKeepsSorted(e, sorted[1..]);
      var r := Insert(e, sorted[1..]);
      forall j | 0 <= j < |r|
        ensures !Precedes(r[j], sorted[0])
      {
        assert r[j] in multiset(r);
        assert r[j] == e || r[j] in sorted[1..];
      }
    }
  }

  /** The plan's order: by depth, and entries of equal depth by the bytes of their paths. */
  lemma {:induction false} ByDepthIsSorted(entries: seq<Entry>)
    ensures Sorted(ByDepth(entries)) && multiset(ByDepth(entries)) == multiset(entries)
  {
    if entries != [] {
      ByDepthIsSorted(entries[1..]);
      InsertKeepsSorted(entries[0], ByDepth(entries[1..]));
    }
  }

  lemma {:induction false} PathsOnce(entries: seq<Entry>, i: nat, j: nat)
    requires i < j < |entries| && multiset(entries)[entries[i]] <= 1
    ensures entries[i] != entries[j]
  {
    assert entries == entries[..j] + entries[j..];
    assert entries[i] in entries[..j] && entries[j] in entries[j..];
    assert multiset(entries) == multiset(entries[..j]) + multiset(entries[j..]);
  }

  // ----- the plan ------------------------------------------------------------------------------

  lemma PlanStep(policy: Policy, d: Destination, entries: seq<Entry>, i: nat, plan: seq<Planned>, skipped: seq<Path>)
    requires i < |entries|
    ensures var next := Decide(policy, d, entries[i], skipped);
            var rest := Prepend(plan, PlanFrom(policy, d, entries[i..], skipped));
            if next.Err? then rest == Err(next.error)
            else rest == Prepend(plan + [next.value], PlanFrom(policy, d, entries[i + 1..], SkippedAfter(skipped, next.value)))
  {
    var rest := entries[i..];
    assert rest[0] == entries[i] && rest[1..] == entries[i + 1..];
    var next := Decide(policy, d, entries[i], skipped);
    if next.Ok? {
      var more := PlanFrom(policy, d, entries[i + 1..], SkippedAfter(skipped, next.value));
      if more.Ok? {
        assert plan + ([next.value] + more.value) == plan + [next.value] + more.value;
      }
    }
  }

  method IsBelowSkipped(skipped: seq<Path>, p: Path) returns (below: bool)
    ensures below <==> BelowSkipped(skipped, p)
  {
    for k := 0 to |skipped|
      invariant forall m :: 0 <= m < k ==> !AtOrAbove(skipped[m], p)
    {
      var prefix := IsComponentPrefix(skipped[k], p);
      if prefix {
        return true;
      }
    }
    return false;
  }

  lemma NothingPrepended(rest: Result<seq<Planned>, RestoreError>)
    ensures Prepend([], rest) == rest
  {
    if rest.Ok? {
      assert [] + rest.value == rest.value;
    }
  }

  /** The loop of `build_plan` over the sorted entries. */
  method PlanSorted(policy: Policy, d: Destination, entries: seq<Entry>) returns (r: Result<seq<Planned>, RestoreError>)
    ensures r == PlanFrom(policy, d, entries, [])
  {
    var plan, skipped, i := [], [], 0;
    assert entries[0..] == entries;
    NothingPrepended(PlanFrom(policy, d, entries, []));
    while i < |entries|
      invariant i <= |entries|
      invariant PlanFrom(policy, d, entries, []) == Prepend(plan, PlanFrom(policy, d, entries[i..], skipped))
    {
      PlanStep(policy, d, entries, i, plan, skipped);
      var entry := entries[i];
      var below := IsBelowSkipped(skipped, entry.path);
      var next := Decide(policy, d, entry, skipped);
      if next.Err? {
        return Err(next.error);
      }
      if next.value.action == Skip && entry.kind == Folder && !below {
        skipped := skipped + [entry.path];
      }
      plan := plan + [next.value];
      i := i + 1;
    }
    assert entries[i..] == [] && plan + [] == plan;
    return Ok(plan);
  }

  /** `build_plan`. */
  method BuildPlan(policy: Policy, d: Destination, selected: seq<Entry>) returns (r: Result<seq<Planned>, RestoreError>)
    ensures r == PlanFrom(policy, d, ByDepth(selected), [])
    ensures PlansExactly(policy, d, ByDepth(selected), r)
  {
    PlanMeaning(policy, d, ByDepth(selected));
    r := PlanSorted(policy, d, ByDepth(selected));
  }

  function Prepend(plan: seq<Planned>, rest: Result<seq<Planned>, RestoreError>): Result<seq<Planned>, RestoreError> {
    match rest
    case Ok(more) => Ok(plan + more)
    case Err(error) => Err(error)
  }

  /** The plan has the entries in order; metadata is applied exactly to what is not skipped. */
  lemma {:induction false} PlanKeepsEntries(policy: Policy, d: Destination, entries: seq<Entry>, skipped: seq<Path>)
    requires PlanFrom(policy, d, entries, skipped).Ok?
    ensures var plan := PlanFrom(policy, d, entries, skipped).value;
            && |plan| == |entries|
            && forall i :: 0 <= i < |plan| ==> plan[i].entry == entries[i] && (plan[i].metadataAllowed <==> plan[i].action != Skip)
    decreases |entries|
  {
    if entries != [] {
      var first := Decide(policy, d, entries[0], skipped).value;
      PlanKeepsEntries(policy, d, entries[1..], SkippedAfter(skipped, first));
    }
  }

  /** The policy wants something in the way replaced, or left alone. */
  predicate Wants(policy: Policy, e: Entry, choice: Choice) {
    match policy
    case Never => choice == SkipIt
    case Always => choice == ReplaceIt
    case Prompt(resolver) => resolver(e.path, e.kind) == choice
  }

  /** What an action presupposes. Only a file or link is ever replaced, only by a file or link, and only
      where the policy wants it; directories are merged only with real directories; something is created
      only where nothing is; and only what the policy wants left alone, or what lies below a skipped
      directory, is skipped. */
  predicate Justified(policy: Policy, d: Destination, plan: seq<Planned>, i: nat)
    requires i < |plan|
  {
    var e := plan[i].entry;
    match plan[i].action
    case Create => e.path !in d && SafeAncestors(d, e.path).Ok?
    case Merge => e.path == [] || (e.kind == Folder && IsDir(d, e.path))
    case Replace => e.path in d && d[e.path] != DirItem && e.kind != Folder && Wants(policy, e, ReplaceIt) && SafeAncestors(d, e.path).Ok?
    case Skip =>
      || (e.path in d && !(e.kind == Folder && d[e.path] == DirItem) && Wants(policy, e, SkipIt))
      || exists k :: 0 <= k < i && plan[k].action == Skip && plan[k].entry.kind == Folder && AtOrAbove(plan[k].entry.path, e.path)
  }

  /** The skipped directories that a plan begins with are those collected. */
  predicate Collected(plan: seq<Planned>, skipped: seq<Path>) {
    forall p :: p in skipped ==> exists k :: 0 <= k < |plan| && plan[k].action == Skip && plan[k].entry.kind == Folder && plan[k].entry.path == p
  }

  lemma DecisionIsJustified(policy: Policy, d: Destination, before: seq<Planned>, e: Entry, skipped: seq<Path>)
    requires Decide(policy, d, e, skipped).Ok? && Collected(before, skipped)
    ensures var p := Decide(policy, d, e, skipped).value;
            p.entry == e && Justified(policy, d, before + [p], |before|) && Collected(before + [p], SkippedAfter(skipped, p))
  {
    var p := Decide(policy, d, e, skipped).value;
    var plan := before + [p];
    if BelowSkipped(skipped, e.path) {
      var k :| 0 <= k < |skipped| && AtOrAbove(skipped[k], e.path);
      assert skipped[k] in skipped;
      var m :| 0 <= m < |before| && before[m].action == Skip && before[m].entry.kind == Folder && before[m].entry.path == skipped[k];
      assert plan[m] == before[m];
    }
    forall q | q in SkippedAfter(skipped, p)
      ensures exists k :: 0 <= k < |plan| && plan[k].action == Skip && plan[k].entry.kind == Folder && plan[k].entry.path == q
    {
      if q in skipped {
        var k :| 0 <= k < |before| && before[k].action == Skip && before[k].entry.kind == Folder && before[k].entry.path == q;
        assert plan[k] == before[k];
      } else {
        assert plan[|before|] == p && p.entry.path == q;
      }
    }
  }

  lemma {:induction false} RestIsJustified(policy: Policy, d: Destination, before: seq<Planned>, entries: seq<Entry>, skipped: seq<Path>)
    requires PlanFrom(policy, d, entries, skipped).Ok? && Collected(before, skipped)
    requires forall i :: 0 <= i < |before| ==> Justified(policy, d, before, i)
    ensures var plan := before + PlanFrom(policy, d, entries, skipped).value;
            forall i :: 0 <= i < |plan| ==> Justified(policy, d, plan, i)
    decreases |entries|
  {
    var plan := before + PlanFrom(policy, d, entries, skipped).value;
    if entries == [] {
      assert plan == before;
    } else {
      var first := Decide(policy, d, entries[0], skipped).value;
      var more := before + [first];
      DecisionIsJustified(policy, d, before, entries[0], skipped);
      forall i | 0 <= i < |more|
        ensures Justified(policy, d, more, i)
      {
        if i < |before| {
          StaysJustified(policy, d, before, first, i);
        }
      }
      RestIsJustified(policy, d, more, entries[1..], SkippedAfter(skipped, first));
      assert plan == more + PlanFrom(policy, d, entries[1..], SkippedAfter(skipped, first)).value;
    }
  }

  lemma StaysJustified(policy: Policy, d: Destination, before: seq<Planned>, next: Planned, i: nat)
    requires i < |before| && Justified(policy, d, before, i)
    ensures Justified(policy, d, before + [next], i)
  {
    var plan := before + [next];
    assert forall k :: 0 <= k <= i ==> plan[k] == before[k];
  }

  /** Every action of a plan is justified by the policy and by what is at the destination. */
  lemma PlanIsJustified(policy: Policy, d: Destination, entries: seq<Entry>)
    requires PlanFrom(policy, d, entries, []).Ok?
    ensures var plan := PlanFrom(policy, d, entries, []).value;
            forall i :: 0 <= i < |plan| ==> Justified(policy, d, plan, i)
  {
    var plan := PlanFrom(policy, d, entries, []).value;
    RestIsJustified(policy, d, [], entries, []);
    assert [] + plan == plan;
  }

  // ----- exactly when planning succeeds, and with what -----------------------------------------

  /** At depth `n` there is something other than a directory, below real directories from depth `from` on. */
  predicate BarredAt(d: Destination, path: Path, from: nat, n: nat)
    requires from <= n <= |path|
  {
    path[..n] in d && d[path[..n]] != DirItem && forall m {:trigger path[..m]} :: from <= m < n ==> IsDir(d, path[..m])
  }

  /** The first thing at the destination above `path` that is no directory is a link, or a file. */
  predicate Barred(d: Destination, path: Path, from: nat, link: bool)
    requires from <= |path|
  {
    exists n {:trigger BarredAt(d, path, from, n)} :: from <= n < |path| && BarredAt(d, path, from, n) && d[path[..n]].LinkItem? == link
  }

  lemma {:induction false} AncestorsMeaning(d: Destination, path: Path, n: nat)
    requires n <= |path|
    ensures AncestorsFrom(d, path, n) == Err(UnsafePath) <==> Barred(d, path, n, true)
    ensures AncestorsFrom(d, path, n) == Err(Exists) <==> Barred(d, path, n, false)
    ensures AncestorsFrom(d, path, n).Err? ==> AncestorsFrom(d, path, n) == Err(UnsafePath) || AncestorsFrom(d, path, n) == Err(Exists)
    decreases |path| - n
  {
    if n < |path| && path[..n] in d {
      if d[path[..n]] == DirItem {
        AncestorsMeaning(d, path, n + 1);
        BarredFurther(d, path, n, true);
        BarredFurther(d, path, n, false);
      } else {
        assert BarredAt(d, path, n, n);
        BarredHere(d, path, n);
      }
    } else if n < |path| {
      assert forall k {:trigger BarredAt(d, path, n, k)} :: n <= k < |path| && BarredAt(d, path, n, k) ==> k == n || IsDir(d, path[..n]);
    }
  }

  lemma BarredHere(d: Destination, path: Path, n: nat)
    requires n < |path| && path[..n] in d && d[path[..n]] != DirItem
    ensures forall link :: Barred(d, path, n, link) <==> d[path[..n]].LinkItem? == link
  {
    forall link
      ensures Barred(d, path, n, link) <==> d[path[..n]].LinkItem? == link
    {
      assert BarredAt(d, path, n, n);
      if Barred(d, path, n, link) {
        var k :| n <= k < |path| && BarredAt(d, path, n, k) && d[path[..k]].LinkItem? == link;
        assert k > n ==> IsDir(d, path[..n]);
      }
    }
  }

  lemma BarredFurther(d: Destination, path: Path, n: nat, link: bool)
    requires n < |path| && IsDir(d, path[..n])
    ensures Barred(d, path, n, link) <==> Barred(d, path, n + 1, link)
  {
    if Barred(d, path, n, link) {
      var k :| n <= k < |path| && BarredAt(d, path, n, k) && d[path[..k]].LinkItem? == link;
      assert BarredAt(d, path, n + 1, k);
    }
    if Barred(d, path, n + 1, link) {
      var k :| n + 1 <= k < |path| && BarredAt(d, path, n + 1, k) && d[path[..k]].LinkItem? == link;
      assert BarredAt(d, path, n, k);
    }
  }

  /** The entry cannot be reached below real directories. */
  predicate Unreachable(d: Destination, path: Path, link: bool)
    requires path != []
  {
    if IsDir(d, []) then Barred(d, path, 1, link) else link
  }

  /** Something is in the way: anything, unless a directory meets a real directory. */
  predicate InTheWay(d: Destination, e: Entry) {
    e.path in d && !(e.kind == Folder && d[e.path] == DirItem)
  }

  /** A directory the policy leaves alone, and with it everything below. */
  predicate LeftFolder(policy: Policy, d: Destination, e: Entry) {
    e.kind == Folder && e.path != [] && InTheWay(d, e) && Wants(policy, e, SkipIt)
  }

  /** Entry `i` lies below a directory that is skipped. */
  predicate Hidden(policy: Policy, d: Destination, entries: seq<Entry>, i: nat)
    requires i < |entries|
  {
    exists k :: 0 <= k < i && LeftFolder(policy, d, entries[k]) && AtOrAbove(entries[k].path, entries[i].path)
  }

  /** An entry that is not the root, on its own account, makes planning fail with `error`. */
  predicate FailsWith(policy: Policy, d: Destination, e: Entry, error: RestoreError)
    requires e.path != []
  {
    if Unreachable(d, e.path, true) then error == UnsafePath
    else if Unreachable(d, e.path, false) then error == Exists
    else if !InTheWay(d, e) then false
    else if Wants(policy, e, CancelAll) then error == Interrupted
    else Wants(policy, e, ReplaceIt) && (e.kind == Folder || d[e.path] == DirItem) && error == Exists
  }

  predicate Fails(policy: Policy, d: Destination, e: Entry) {
    && e.path != []
    && (Unreachable(d, e.path, true) || Unreachable(d, e.path, false)
        || (InTheWay(d, e) && (Wants(policy, e, CancelAll) || (Wants(policy, e, ReplaceIt) && (e.kind == Folder || d[e.path] == DirItem)))))
  }

  /** What is planned for an entry: a real directory is merged with, what is not there is created, what is
      in the way is replaced or skipped as the policy wants, and what is below a skipped directory is skipped. */
  predicate IsPlannedAs(policy: Policy, d: Destination, e: Entry, hidden: bool, action: Action) {
    match action
    case Create => e.path != [] && !hidden && e.path !in d
    case Merge => e.path == [] || (!hidden && e.kind == Folder && IsDir(d, e.path))
    case Replace => e.path != [] && !hidden && InTheWay(d, e) && Wants(policy, e, ReplaceIt) && e.kind != Folder && d[e.path] != DirItem
    case Skip => e.path != [] && (hidden || (InTheWay(d, e) && Wants(policy, e, SkipIt)))
  }

  lemma ReachabilityMeaning(d: Destination, path: Path)
    requires path != []
    ensures SafeAncestors(d, path) == Err(UnsafePath) <==> Unreachable(d, path, true)
    ensures SafeAncestors(d, path) == Err(Exists) <==> Unreachable(d, path, false)
    ensures SafeAncestors(d, path).Err? ==> SafeAncestors(d, path) == Err(UnsafePath) || SafeAncestors(d, path) == Err(Exists)
  {
    AncestorsMeaning(d, path, 1);
  }

  lemma ConflictMeaning(policy: Policy, d: Destination, e: Entry)
    requires e.path in d
    ensures var r := ConflictAction(policy, e, d[e.path]);
            match r
            case Ok(action) =>
              if action == Merge then !InTheWay(d, e)
              else
                && InTheWay(d, e) && (action == Replace || action == Skip)
                && (action == Replace <==> Wants(policy, e, ReplaceIt)) && (action == Skip <==> Wants(policy, e, SkipIt))
                && (action == Replace ==> e.kind != Folder && d[e.path] != DirItem)
            case Err(error) =>
              && InTheWay(d, e)
              && (error == Interrupted <==> Wants(policy, e, CancelAll))
              && (error == Exists <==> Wants(policy, e, ReplaceIt) && (e.kind == Folder || d[e.path] == DirItem))
              && (error == Interrupted || error == Exists)
  {
  }

  lemma DecisionMeaning(policy: Policy, d: Destination, e: Entry, skipped: seq<Path>)
    ensures var r, hidden := Decide(policy, d, e, skipped), BelowSkipped(skipped, e.path);
            && (r.Err? <==> !hidden && Fails(policy, d, e))
            && (r.Err? ==> FailsWith(policy, d, e, r.error))
            && (r.Ok? ==> r.value.entry == e && IsPlannedAs(policy, d, e, hidden, r.value.action))
  {
    if e.path != [] {
      ReachabilityMeaning(d, e.path);
      if e.path in d {
        ConflictMeaning(policy, d, e);
      }
    }
  }

  predicate HiddenFrom(policy: Policy, d: Destination, entries: seq<Entry>, skipped: seq<Path>, i: nat)
    requires i < |entries|
  {
    BelowSkipped(skipped, entries[i].path) || Hidden(policy, d, entries, i)
  }

  lemma HiddenNext(policy: Policy, d: Destination, entries: seq<Entry>, skipped: seq<Path>, i: nat)
    requires 0 < i < |entries| && Decide(policy, d, entries[0], skipped).Ok?
    ensures var rest := SkippedAfter(skipped, Decide(policy, d, entries[0], skipped).value);
            HiddenFrom(policy, d, entries, skipped, i) <==> HiddenFrom(policy, d, entries[1..], rest, i - 1)
  {
    var first := Decide(policy, d, entries[0], skipped).value;
    var rest := SkippedAfter(skipped, first);
    DecisionMeaning(policy, d, entries[0], skipped);
    if BelowSkipped(skipped, entries[i].path) {
      StillBelow(skipped, first, entries[i].path);
    } else if Hidden(policy, d, entries, i) {
      var k :| 0 <= k < i && LeftFolder(policy, d, entries[k]) && AtOrAbove(entries[k].path, entries[i].path);
      if k == 0 {
        FirstSkipCounts(skipped, first, entries[i].path);
      } else {
        assert entries[1..][k - 1] == entries[k];
      }
    }
    if BelowSkipped(rest, entries[i].path) && !BelowSkipped(skipped, entries[i].path) {
      assert rest == skipped + [entries[0].path];
      assert LeftFolder(policy, d, entries[0]) && AtOrAbove(entries[0].path, entries[i].path);
    } else if Hidden(policy, d, entries[1..], i - 1) {
      var k :| 0 <= k < i - 1 && LeftFolder(policy, d, entries[1..][k]) && AtOrAbove(entries[1..][k].path, entries[1..][i - 1].path);
      assert entries[k + 1] == entries[1..][k];
    }
  }

  predicate FailsAt(policy: Policy, d: Destination, entries: seq<Entry>, skipped: seq<Path>, i: nat)
    requires i < |entries|
  {
    !HiddenFrom(policy, d, entries, skipped, i) && Fails(policy, d, entries[i])
  }

  /** Entry `i` is the first that makes planning fail, and does so with `error`. */
  predicate FailsFirst(policy: Policy, d: Destination, entries: seq<Entry>, skipped: seq<Path>, i: nat, error: RestoreError)
    requires i < |entries|
  {
    && FailsAt(policy, d, entries, skipped, i) && FailsWith(policy, d, entries[i], error)
    && forall k :: 0 <= k < i ==> !FailsAt(policy, d, entries, skipped, k)
  }

  lemma {:induction false} RestMeaning(policy: Policy, d: Destination, entries: seq<Entry>, skipped: seq<Path>)
    ensures var r := PlanFrom(policy, d, entries, skipped);
            && (r.Ok? ==> |r.value| == |entries| && forall i :: 0 <= i < |entries| ==>
                  && !FailsAt(policy, d, entries, skipped, i) && r.value[i].entry == entries[i]
                  && IsPlannedAs(policy, d, entries[i], HiddenFrom(policy, d, entries, skipped, i), r.value[i].action))
            && (r.Err? ==> exists i :: 0 <= i < |entries| && FailsFirst(policy, d, entries, skipped, i, r.error))
    decreases |entries|
  {
    if entries != [] {
      var r, next := PlanFrom(policy, d, entries, skipped), Decide(policy, d, entries[0], skipped);
      DecisionMeaning(policy, d, entries[0], skipped);
      assert !Hidden(policy, d, entries, 0);
      if next.Err? {
        assert FailsFirst(policy, d, entries, skipped, 0, r.error);
      } else {
        var rest := SkippedAfter(skipped, next.value);
        RestMeaning(policy, d, entries[1..], rest);
        forall i | 0 < i < |entries|
          ensures entries[1..][i - 1] == entries[i]
          ensures HiddenFrom(policy, d, entries, skipped, i) <==> HiddenFrom(policy, d, entries[1..], rest, i - 1)
          ensures FailsAt(policy, d, entries, skipped, i) <==> FailsAt(policy, d, entries[1..], rest, i - 1)
        {
          HiddenNext(policy, d, entries, skipped, i);
        }
        if r.Err? {
          FirstFailsLater(policy, d, entries, skipped, r.error);
        }
      }
    }
  }

  lemma FirstFailsLater(policy: Policy, d: Destination, entries: seq<Entry>, skipped: seq<Path>, error: RestoreError)
    requires entries != [] && Decide(policy, d, entries[0], skipped).Ok?
    requires var rest := SkippedAfter(skipped, Decide(policy, d, entries[0], skipped).value);
             exists j :: 0 <= j < |entries[1..]| && FailsFirst(policy, d, entries[1..], rest, j, error)
    ensures exists i :: 0 <= i < |entries| && FailsFirst(policy, d, entries, skipped, i, error)
  {
    var rest := SkippedAfter(skipped, Decide(policy, d, entries[0], skipped).value);
    var j :| 0 <= j < |entries[1..]| && FailsFirst(policy, d, entries[1..], rest, j, error);
    DecisionMeaning(policy, d, entries[0], skipped);
    assert !Hidden(policy, d, entries, 0);
    HiddenNext(policy, d, entries, skipped, j + 1);
    assert FailsAt(policy, d, entries, skipped, j + 1);
    forall k | 0 <= k < j + 1
      ensures !FailsAt(policy, d, entries, skipped, k)
    {
      if k > 0 {
        HiddenNext(policy, d, entries, skipped, k);
        assert !FailsAt(policy, d, entries[1..], rest, k - 1);
      }
    }
    assert FailsFirst(policy, d, entries, skipped, j + 1, error);
  }

  /** Exactly when planning succeeds, and with which actions: it fails if and only if some entry that does
      not lie below a skipped directory cannot be reached through real directories, or meets something in
      the way where the resolver cancels, or where a replacement is wanted that involves a directory. The
      error is that of the first such entry. If there is none, every entry is planned as the destination
      and the policy say. */
  predicate PlansExactly(policy: Policy, d: Destination, entries: seq<Entry>, r: Result<seq<Planned>, RestoreError>) {
    && (r.Ok? <==> forall i :: 0 <= i < |entries| && !Hidden(policy, d, entries, i) ==> !Fails(policy, d, entries[i]))
    && (r.Err? ==> exists i :: 0 <= i < |entries| && FailsFirst(policy, d, entries, [], i, r.error))
    && (r.Ok? ==> |r.value| == |entries| && forall i :: 0 <= i < |entries| ==>
          r.value[i].entry == entries[i] && IsPlannedAs(policy, d, entries[i], Hidden(policy, d, entries, i), r.value[i].action))
  }

  lemma PlanMeaning(policy: Policy, d: Destination, entries: seq<Entry>)
    ensures PlansExactly(policy, d, entries, PlanFrom(policy, d, entries, []))
  {
    var r := PlanFrom(policy, d, entries, []);
    RestMeaning(policy, d, entries, []);
    assert forall i :: 0 <= i < |entries| ==> (HiddenFrom(policy, d, entries, [], i) <==> Hidden(policy, d, entries, i));
    assert forall i :: 0 <= i < |entries| ==> (FailsAt(policy, d, entries, [], i) <==> !Hidden(policy, d, entries, i) && Fails(policy, d, entries[i]));
  }

  /** Whatever is at the destination lies in a directory there. */
  predicate IsTree(d: Destination) {
    IsDir(d, []) && forall p :: p in d && p != [] ==> IsDir(d, p[..|p| - 1])
  }

  lemma {:induction false} TreesHaveDirs(d: Destination, path: Path, n: nat, m: nat)
    requires IsTree(d) && m < n <= |path| && path[..n] in d
    ensures IsDir(d, path[..m])
    decreases n - m
  {
    assert path[..n][..n - 1] == path[..n - 1];
    if m < n - 1 {
      TreesHaveDirs(d, path, n - 1, m);
    }
  }

  /** In a real destination, an entry cannot be reached exactly if a link or a file is among its ancestors. */
  lemma ReachableIff(d: Destination, path: Path)
    requires IsTree(d) && path != []
    ensures Unreachable(d, path, true) || Unreachable(d, path, false) <==>
            exists n :: 0 < n < |path| && path[..n] in d && d[path[..n]] != DirItem
  {
    forall n | 0 < n < |path| && path[..n] in d && d[path[..n]] != DirItem
      ensures Barred(d, path, 1, d[path[..n]].LinkItem?)
    {
      forall m | 1 <= m < n
        ensures IsDir(d, path[..m])
      {
        TreesHaveDirs(d, path, n, m);
      }
      assert BarredAt(d, path, 1, n);
    }
  }

  /** In particular overwriting works: where only files and links are in the way of files and links, below
      real directories, and the policy wants them replaced, planning succeeds and replaces every one. */
  lemma OverwritingIsPlanned(policy: Policy, d: Destination, entries: seq<Entry>)
    requires IsTree(d)
    requires forall i, n :: 0 <= i < |entries| && 0 < n < |entries[i].path| && entries[i].path[..n] in d ==> IsDir(d, entries[i].path[..n])
    requires forall i :: 0 <= i < |entries| && InTheWay(d, entries[i]) ==>
               entries[i].kind != Folder && d[entries[i].path] != DirItem && Wants(policy, entries[i], ReplaceIt)
    ensures var r := PlanFrom(policy, d, entries, []);
            && r.Ok? && |r.value| == |entries|
            && forall i :: 0 <= i < |entries| ==>
                 && r.value[i].entry == entries[i]
                 && r.value[i].action == if entries[i].path == [] then Merge else if entries[i].path !in d then Create
                                         else if entries[i].kind == Folder then Merge else Replace
  {
    PlanMeaning(policy, d, entries);
    forall i | 0 <= i < |entries|
      ensures !Hidden(policy, d, entries, i) && !Fails(policy, d, entries[i])
    {
      if entries[i].path != [] {
        ReachableIff(d, entries[i].path);
      }
    }
  }

  lemma PrefixThrough(a: Path, b: Path, c: Path)
    requires AtOrAbove(a, b) && AtOrAbove(b, c)
    ensures AtOrAbove(a, c)
  {
    assert c[..|a|] == c[..|b|][..|a|];
  }

  lemma StillBelow(skipped: seq<Path>, first: Planned, p: Path)
    requires BelowSkipped(skipped, p)
    ensures BelowSkipped(SkippedAfter(skipped, first), p)
  {
    var k :| 0 <= k < |skipped| && AtOrAbove(skipped[k], p);
    assert SkippedAfter(skipped, first)[k] == skipped[k];
  }

  /** What is below a directory skipped earlier is skipped. */
  lemma {:induction false} BelowIsSkipped(policy: Policy, d: Destination, entries: seq<Entry>, skipped: seq<Path>, i: nat)
    requires PlanFrom(policy, d, entries, skipped).Ok? && i < |entries|
    requires entries[i].path != [] && BelowSkipped(skipped, entries[i].path)
    ensures |PlanFrom(policy, d, entries, skipped).value| == |entries|
    ensures PlanFrom(policy, d, entries, skipped).value[i].action == Skip
    decreases |entries|
  {
    PlanKeepsEntries(policy, d, entries, skipped);
    if i > 0 {
      var first := Decide(policy, d, entries[0], skipped).value;
      StillBelow(skipped, first, entries[i].path);
      BelowIsSkipped(policy, d, entries[1..], SkippedAfter(skipped, first), i - 1);
    }
  }

  lemma FirstSkipCounts(skipped: seq<Path>, first: Planned, p: Path)
    requires first.action == Skip && first.entry.kind == Folder && AtOrAbove(first.entry.path, p)
    ensures BelowSkipped(SkippedAfter(skipped, first), p)
  {
    if BelowSkipped(skipped, first.entry.path) {
      var k :| 0 <= k < |skipped| && AtOrAbove(skipped[k], first.entry.path);
      PrefixThrough(skipped[k], first.entry.path, p);
      assert SkippedAfter(skipped, first)[k] == skipped[k];
    } else {
      assert SkippedAfter(skipped, first)[|skipped|] == first.entry.path;
    }
  }

  /** The subtree of a skipped directory is skipped as a whole. */
  lemma {:induction false} SubtreeIsSkipped(policy: Policy, d: Destination, entries: seq<Entry>, skipped: seq<Path>, k: nat, i: nat)
    requires PlanFrom(policy, d, entries, skipped).Ok? && k < i < |entries|
    requires entries[k].kind == Folder && Above(entries[k].path, entries[i].path)
    ensures var plan := PlanFrom(policy, d, entries, skipped).value;
            |plan| == |entries| && (plan[k].action == Skip ==> plan[i].action == Skip)
    decreases |entries|
  {
    PlanKeepsEntries(policy, d, entries, skipped);
    var first := Decide(policy, d, entries[0], skipped).value;
    var rest := SkippedAfter(skipped, first);
    PlanKeepsEntries(policy, d, entries[1..], rest);
    if k > 0 {
      SubtreeIsSkipped(policy, d, entries[1..], rest, k - 1, i - 1);
    } else if first.action == Skip {
      FirstSkipCounts(skipped, first, entries[i].path);
      BelowIsSkipped(policy, d, entries[1..], rest, i - 1);
    }
  }

  /** Every selected proper ancestor of a selected entry is a directory. */
  predicate AncestorsAreFolders(entries: seq<Entry>) {
    forall i, k :: 0 <= i < |entries| && 0 <= k < |entries| && Above(entries[k].path, entries[i].path) ==> entries[k].kind == Folder
  }

  /** The parent of every entry but the root is listed. */
  predicate ParentsListed(entries: seq<Entry>) {
    forall i :: 0 <= i < |entries| && entries[i].path != [] ==> Listed(entries, entries[i].path[..|entries[i].path| - 1])
  }

  predicate Listed(entries: seq<Entry>, path: Path) {
    exists k :: 0 <= k < |entries| && entries[k].path == path
  }

  /** Each planned entry that is not skipped comes after all its planned ancestors, and none of these is
      skipped. */
  predicate SkipClosed(plan: seq<Planned>) {
    forall i, k :: 0 <= i < |plan| && 0 <= k < |plan| && plan[i].action != Skip && Above(plan[k].entry.path, plan[i].entry.path) ==>
      k < i && plan[k].action != Skip
  }

  /** The order and the skip closure, whatever the destination and the policy. */
  lemma PlanIsSkipClosed(policy: Policy, d: Destination, selected: seq<Entry>)
    requires AncestorsAreFolders(selected) && PlanFrom(policy, d, ByDepth(selected), []).Ok?
    ensures SkipClosed(PlanFrom(policy, d, ByDepth(selected), []).value)
  {
    var entries := ByDepth(selected);
    var plan := PlanFrom(policy, d, entries, []).value;
    PlanKeepsEntries(policy, d, entries, []);
    forall i, k | 0 <= i < |plan| && 0 <= k < |plan| && plan[i].action != Skip && Above(plan[k].entry.path, plan[i].entry.path)
      ensures k < i && plan[k].action != Skip
    {
      AncestorInSorted(selected, i, k);
      SubtreeIsSkipped(policy, d, entries, [], k, i);
    }
  }

  lemma AncestorInSorted(selected: seq<Entry>, i: nat, k: nat)
    requires AncestorsAreFolders(selected) && i < |ByDepth(selected)| && k < |ByDepth(selected)|
    requires Above(ByDepth(selected)[k].path, ByDepth(selected)[i].path)
    ensures k < i && ByDepth(selected)[k].kind == Folder
  {
    var entries := ByDepth(selected);
    ByDepthIsOrdered(selected);
    SortedHas(selected, entries[i]);
    SortedHas(selected, entries[k]);
    var x :| 0 <= x < |selected| && selected[x] == entries[i];
    var y :| 0 <= y < |selected| && selected[y] == entries[k];
    assert Above(selected[y].path, selected[x].path);
  }

  lemma SortedHas(selected: seq<Entry>, e: Entry)
    ensures e in ByDepth(selected) <==> e in selected
  {
    assert e in multiset(ByDepth(selected)) <==> e in multiset(selected);
  }

  // ----- where the closure fails ---------------------------------------------------------------

  predicate OnlyDirs(d: Destination) {
    [] in d && forall p :: p in d ==> d[p] == DirItem
  }

  lemma {:induction false} DirsAreSafe(d: Destination, path: Path, n: nat)
    requires OnlyDirs(d) && n <= |path|
    ensures AncestorsFrom(d, path, n).Ok?
    decreases |path| - n
  {
    if n < |path| && path[..n] in d {
      DirsAreSafe(d, path, n + 1);
    }
  }

  /** Into a destination of directories only, without overwriting: directories are merged, files and links
      that meet a directory are skipped, everything else is created. */
  function DirAction(d: Destination, e: Entry): Action {
    if e.path == [] then Merge else if e.path !in d then Create else if e.kind == Folder then Merge else Skip
  }

  lemma {:induction false} PlanIntoDirs(d: Destination, entries: seq<Entry>)
    requires OnlyDirs(d)
    ensures var r := PlanFrom(Never, d, entries, []);
            r.Ok? && |r.value| == |entries| && forall i :: 0 <= i < |entries| ==> r.value[i].entry == entries[i] && r.value[i].action == DirAction(d, entries[i])
    decreases |entries|
  {
    if entries != [] {
      if entries[0].path != [] {
        DirsAreSafe(d, entries[0].path, 1);
      }
      PlanIntoDirs(d, entries[1..]);
    }
  }

  function Prefixes(p: Path): set<Path> {
    set n | 0 <= n < |p| :: p[..n]
  }

  /** A directory at every proper ancestor of `p`. */
  function DirsAbove(p: Path): Destination {
    map a | a in Prefixes(p) :: DirItem
  }

  ghost predicate AlwaysSkipClosed(selected: seq<Entry>) {
    forall policy: Policy, d: Destination :: PlanFrom(policy, d, ByDepth(selected), []).Ok? ==>
      SkipClosed(PlanFrom(policy, d, ByDepth(selected), []).value)
  }

  lemma PlaceOf(selected: seq<Entry>, i: nat) returns (x: nat)
    requires i < |selected|
    ensures x < |ByDepth(selected)| && ByDepth(selected)[x] == selected[i]
  {
    SortedHas(selected, selected[i]);
    x :| 0 <= x < |ByDepth(selected)| && ByDepth(selected)[x] == selected[i];
  }

  lemma PrefixesAreDirs(p: Path, q: Path)
    requires Above(q, p)
    ensures OnlyDirs(DirsAbove(p)) && q in DirsAbove(p) && p !in DirsAbove(p)
  {
    assert p[..0] in Prefixes(p);
    assert p[..|q|] in Prefixes(p);
  }

  /** If some selected file or link has a selected entry below it, there is a destination in which the
      ancestor is skipped and the entry below it restored nevertheless. */
  lemma NotAlwaysClosed(selected: seq<Entry>, i: nat, k: nat)
    requires i < |selected| && k < |selected| && selected[k].kind != Folder && selected[k].path != []
    requires Above(selected[k].path, selected[i].path)
    ensures var d, entries := DirsAbove(selected[i].path), ByDepth(selected);
            PlanFrom(Never, d, entries, []).Ok? && !SkipClosed(PlanFrom(Never, d, entries, []).value)
  {
    var d, entries := DirsAbove(selected[i].path), ByDepth(selected);
    PrefixesAreDirs(selected[i].path, selected[k].path);
    PlanIntoDirs(d, entries);
    var x := PlaceOf(selected, i);
    var y := PlaceOf(selected, k);
    assert PlanFrom(Never, d, entries, []).value[x].action == Create && PlanFrom(Never, d, entries, []).value[y].action == Skip;
  }

  /** The exact condition: a selection is planned closed under skipping, into every destination and under
      every policy, if and only if every selected ancestor of a selected entry is a directory. */
  lemma SkipClosedIff(selected: seq<Entry>)
    requires forall i :: 0 <= i < |selected| && selected[i].path == [] ==> selected[i].kind == Folder
    ensures AlwaysSkipClosed(selected) <==> AncestorsAreFolders(selected)
  {
    if AncestorsAreFolders(selected) {
      forall policy: Policy, d: Destination | PlanFrom(policy, d, ByDepth(selected), []).Ok?
        ensures SkipClosed(PlanFrom(policy, d, ByDepth(selected), []).value)
      {
        PlanIsSkipClosed(policy, d, selected);
      }
    } else {
      var i, k :| 0 <= i < |selected| && 0 <= k < |selected| && Above(selected[k].path, selected[i].path) && selected[k].kind != Folder;
      NotAlwaysClosed(selected, i, k);
    }
  }

  const NAME_A: Bytes := [97]
  const NAME_B: Bytes := [98]

  /** An instance: a snapshot with files `a` and `a/b`, restored as a whole, without overwriting, where
      there is a directory `a`. The plan skips `a` and restores `a/b`. */
  lemma SkippedAncestorExample()
    ensures var root := Entry([], Folder, 0, None, None);
            var a := Entry([NAME_A], Regular, 0, None, None);
            var b := Entry([NAME_A, NAME_B], Regular, 0, None, None);
            var d := map[[] := DirItem, [NAME_A] := DirItem];
            && ValidEntries([root, a, b])
            && PlanFrom(Never, d, [root, a, b], []) == Ok([Planned(root, Merge, true), Planned(a, Skip, false), Planned(b, Create, true)])
  {
    var root := Entry([], Folder, 0, None, None);
    var a := Entry([NAME_A], Regular, 0, None, None);
    var b := Entry([NAME_A, NAME_B], Regular, 0, None, None);
    var d := map[[] := DirItem, [NAME_A] := DirItem];
    var entries := [root, a, b];
    assert entries[0].path == [];
    PlanIntoDirs(d, entries);
    PlanKeepsEntries(Never, d, entries, []);
    var plan := PlanFrom(Never, d, entries, []).value;
    assert plan == [Planned(root, Merge, true), Planned(a, Skip, false), Planned(b, Create, true)];
  }

  /** A request that names paths is always answered by a selection of the good kind. */
  lemma RequestedSelectionsAreClosed(entries: seq<Entry>, index: Index, requested: seq<Path>, selected: seq<Entry>)
    requires Indexes(index, entries) && Answerable(index, requested) && IsSelection(entries, index, requested, selected)
    requires selected[0].kind == Folder
    ensures AncestorsAreFolders(selected)
  {
    forall i, k | 0 <= i < |selected| && 0 <= k < |selected| && Above(selected[k].path, selected[i].path)
      ensures selected[k].kind == Folder
    {
      if k > 0 {
        var p := selected[i].path;
        assert i > 0 && HasPath(selected, p);
        SelectedAreAnchored(index, requested, p, |selected[k].path|);
      }
    }
  }

  // ----- into an empty destination -------------------------------------------------------------

  const EMPTY: Destination := map[[] := DirItem]
}
