/** The object closure of a snapshot. */
module Reachability {
  import opened Base
  import opened SnapshotGraph
  import opened Trees
  import opened TreeReader

  const MANIFEST_MAX_ENTRIES: nat := 250_000

  datatype Objects = Objects(snapshots: Graph, trees: Store)

  /** Chunk objects of one file version at one path. */
  type ChunkIndex = (seq<string>, Id, Option<nat>) -> set<Id>

  datatype ReachError =
    | MissingSnapshot(id: Id) | MissingTree(id: Id) | CycleOrDepth | ManifestFull
    | WorkLimit | PathByteLimit | ObjectLimit | Unsafe

  // ----- the closure, independently of any traversal

  function AddLeg(legs: seq<Id>, leg: Option<Id>): seq<Id> {
    if leg.Some? && leg.value !in legs then legs + [leg.value] else legs
  }

  /** The file versions an entry refers to, without repetition. */
  function Legs(e: Entry): seq<Id> {
    match e.kind
    case File => [e.hash]
    case Dir => []
    case Conflict(base, ours, theirs, _) => AddLeg(AddLeg(AddLeg([e.hash], base), ours), theirs)
  }

  function LegChunks(e: Entry, path: seq<string>, leg: Id, expand: bool, chunks: ChunkIndex): set<Id> {
    if expand then chunks(path, leg, if leg == e.hash then Some(e.size) else None) else {}
  }

  /** The objects one entry contributes besides its subdirectory. */
  function LegsHashes(legs: seq<Id>, e: Entry, path: seq<string>, expand: bool, chunks: ChunkIndex): set<Id> {
    if legs == [] then {}
    else {legs[0]} + LegChunks(e, path, legs[0], expand, chunks) + LegsHashes(legs[1..], e, path, expand, chunks)
  }

  /** `v` is a file version the entry refers to: a file's content, or the
      visible content, the base, our or their version of a conflict. */
  ghost predicate VersionOf(e: Entry, v: Id) {
    match e.kind
    case File => v == e.hash
    case Dir => false
    case Conflict(base, ours, theirs, _) => v == e.hash || base == Some(v) || ours == Some(v) || theirs == Some(v)
  }

  /** The entry at `path` needs `h`: one of its versions, or a chunk of one.
      The size is known of the visible version only. */
  ghost predicate EntryHolds(e: Entry, path: seq<string>, expand: bool, chunks: ChunkIndex, h: Id) {
    exists v :: VersionOf(e, v) &&
      (h == v || (expand && h in chunks(path, v, if v == e.hash then Some(e.size) else None)))
  }

  /** Everything the entry needs is in `hashes`. */
  ghost predicate EntryHeld(e: Entry, path: seq<string>, expand: bool, chunks: ChunkIndex, hashes: set<Id>) {
    forall h :: EntryHolds(e, path, expand, chunks, h) ==> h in hashes
  }

  function EntryHashes(e: Entry, path: seq<string>, expand: bool, chunks: ChunkIndex): (r: set<Id>)
    ensures forall h :: h in r <==> EntryHolds(e, path, expand, chunks, h)
  {
    HashesAreHeld(e, path, expand, chunks);
    LegsHashes(Legs(e), e, path, expand, chunks)
  }

  lemma HashesAreHeld(e: Entry, path: seq<string>, expand: bool, chunks: ChunkIndex)
    ensures forall h :: h in LegsHashes(Legs(e), e, path, expand, chunks) <==> EntryHolds(e, path, expand, chunks, h)
  {
    forall h
      ensures h in LegsHashes(Legs(e), e, path, expand, chunks) <==> EntryHolds(e, path, expand, chunks, h)
    {
      LegsHash(Legs(e), e, path, expand, chunks, h);
      assert forall v :: v in Legs(e) <==> VersionOf(e, v);
    }
  }

  lemma {:induction false} LegsHash(legs: seq<Id>, e: Entry, path: seq<string>, expand: bool, chunks: ChunkIndex, h: Id)
    ensures h in LegsHashes(legs, e, path, expand, chunks) <==>
              exists v :: v in legs && (h == v || h in LegChunks(e, path, v, expand, chunks))
  {
    if legs != [] {
      LegsHash(legs[1..], e, path, expand, chunks, h);
      assert forall v :: v in legs <==> v == legs[0] || v in legs[1..];
    }
  }

  /** Directory `id` is found at `path` below `root`. */
  ghost predicate DirAt(trees: Store, root: Id, path: seq<string>, id: Id)
    decreases |path|
  {
    if path == [] then id == root
    else
      var up, name := path[..|path| - 1], path[|path| - 1];
      exists parent :: DirAt(trees, root, up, parent) && Contains(trees, parent, name, id)
  }

  ghost predicate Contains(trees: Store, parent: Id, name: string, id: Id) {
    parent in trees && exists d :: LeadsDown(trees[parent], d, name) && d.hash == id
  }

  /** `h` is an object of the directory `id` found at `path`. */
  ghost predicate OfDirectory(trees: Store, path: seq<string>, id: Id, expand: bool, chunks: ChunkIndex, h: Id) {
    h == id ||
    (id in trees && exists e :: e in trees[id].entries && EntryHolds(e, path + [e.name], expand, chunks, h))
  }

  ghost predicate InTree(trees: Store, root: Id, expand: bool, chunks: ChunkIndex, h: Id) {
    exists path, id :: DirAt(trees, root, path, id) && OfDirectory(trees, path, id, expand, chunks, h)
  }

  /** Snapshots, their ancestors, their tree roots, directories, files, all
      conflict legs, and the chunks of every version. */
  ghost predicate InClosure(o: Objects, start: Id, expand: bool, chunks: ChunkIndex, h: Id) {
    exists s :: Reaches(o.snapshots, start, s) &&
      (h == s || (s in o.snapshots && InTree(o.trees, o.snapshots[s].root, expand, chunks, h)))
  }

  ghost predicate NeedsDir(o: Objects, start: Id, s: Id, path: seq<string>, id: Id) {
    Reaches(o.snapshots, start, s) && s in o.snapshots && DirAt(o.trees, o.snapshots[s].root, path, id)
  }

  /** Nothing the closure needs is missing. */
  ghost predicate ClosedAt(o: Objects, start: Id) {
    && (forall s :: Reaches(o.snapshots, start, s) ==> s in o.snapshots)
    && (forall s, path, id :: NeedsDir(o, start, s, path, id) ==> id in o.trees)
  }

  // ----- inserting

  method InsertAll(hashes0: set<Id>, added: set<Id>) returns (ok: bool, hashes: set<Id>)
    ensures ok ==> hashes == hashes0 + added
    ensures hashes0 <= hashes <= hashes0 + added
    ensures !ok ==> |hashes| >= MANIFEST_MAX_ENTRIES && exists h :: h in added && h !in hashes
  {
    hashes := hashes0;
    var todo := added;
    while todo != {}
      invariant todo <= added && hashes == hashes0 + (added - todo)
      decreases todo
    {
      var h := TakeAny(todo);
      if h !in hashes && |hashes| >= MANIFEST_MAX_ENTRIES {
        return false, hashes;
      }
      hashes := hashes + {h};
      todo := todo - {h};
    }
    ok := true;
  }

  function ChunkWork(legs: seq<Id>, e: Entry, path: seq<string>, expand: bool, chunks: ChunkIndex): nat {
    if legs == [] then 0
    else |LegChunks(e, path, legs[0], expand, chunks)| + ChunkWork(legs[1..], e, path, expand, chunks)
  }

  // ----- first walk: snapshots

  ghost predicate SnapshotFrontier(g: Graph, seen: set<Id>, pending: seq<Id>) {
    forall a, p :: a in seen && a in g && p in g[a].parents ==> p in seen || p in pending
  }

  ghost predicate SnapshotWalk(g: Graph, start: Id, seen: set<Id>, pending: seq<Id>) {
    && (forall p :: p in pending ==> Reaches(g, start, p))
    && (forall s :: s in seen ==> Reaches(g, start, s))
    && (start in seen || start in pending)
    && SnapshotFrontier(g, seen, pending)
  }

  lemma SnapshotExpand(g: Graph, start: Id, seen: set<Id>, rest: seq<Id>, id: Id)
    requires SnapshotWalk(g, start, seen, rest + [id]) && id in g
    ensures SnapshotWalk(g, start, seen + {id}, rest + g[id].parents)
  {
    assert id in rest + [id];
    forall p | p in g[id].parents
      ensures Reaches(g, start, p)
    {
      ReachesStep(g, start, id, p);
    }
  }

  lemma SnapshotSkip(g: Graph, start: Id, seen: set<Id>, rest: seq<Id>, id: Id)
    requires SnapshotWalk(g, start, seen, rest + [id])
    ensures Reaches(g, start, id)
    ensures id in seen ==> SnapshotWalk(g, start, seen, rest)
  {
    assert id in rest + [id];
  }

  lemma SnapshotsAll(g: Graph, start: Id, seen: set<Id>)
    requires SnapshotWalk(g, start, seen, [])
    ensures forall s :: s in seen <==> Reaches(g, start, s)
  {
    forall s | Reaches(g, start, s)
      ensures s in seen
    {
      var n: nat :| Steps(g, start, s, n);
      SnapshotsClosed(g, seen, start, s, n);
    }
  }

  lemma {:induction false} SnapshotsClosed(g: Graph, seen: set<Id>, a: Id, y: Id, n: nat)
    requires SnapshotFrontier(g, seen, []) && a in seen && Steps(g, a, y, n)
    ensures y in seen
    decreases n
  {
    if n > 0 {
      var p :| p in g[a].parents && Steps(g, p, y, n - 1);
      SnapshotsClosed(g, seen, p, y, n - 1);
    }
  }

  ghost predicate RootsOf(g: Graph, seen: set<Id>, roots: seq<Id>) {
    && (forall s :: s in seen ==> s in g && g[s].root in roots)
    && (forall r :: r in roots ==> exists s :: s in seen && s in g && g[s].root == r)
  }

  /** What visiting a snapshot costs. */
  ghost function SnapshotWeight(g: Graph): Id -> nat {
    s => if s in g then |g[s].parents| + 1 else 0
  }

  ghost predicate AllReached(g: Graph, start: Id, some: set<Id>) {
    forall x :: x in some ==> Reaches(g, start, x)
  }

  /** What an error of the first walk proves about the snapshots. */
  ghost predicate SnapshotErrorIsReal(g: Graph, start: Id, error: ReachError) {
    match error
    case MissingSnapshot(id) => Reaches(g, start, id) && id !in g
    case ManifestFull => exists some :: AllReached(g, start, some) && |some| > MANIFEST_MAX_ENTRIES
    case WorkLimit =>
      exists some :: AllReached(g, start, some) && SumOver(some, SnapshotWeight(g)) > MAX_TREE_WORK_ITEMS
    case _ => false
  }

  lemma OneMoreReached(g: Graph, start: Id, seen: set<Id>, id: Id)
    requires AllReached(g, start, seen) && Reaches(g, start, id) && id !in seen
    ensures |seen| >= MANIFEST_MAX_ENTRIES ==> SnapshotErrorIsReal(g, start, ManifestFull)
    ensures id in g ==>
              SumOver(seen + {id}, SnapshotWeight(g)) == SumOver(seen, SnapshotWeight(g)) + |g[id].parents| + 1
    ensures SumOver(seen + {id}, SnapshotWeight(g)) > MAX_TREE_WORK_ITEMS ==> SnapshotErrorIsReal(g, start, WorkLimit)
  {
    var more := seen + {id};
    assert |more| == |seen| + 1;
    SumInsert(seen, SnapshotWeight(g), id);
    SetProvesError(g, start, more);
  }

  lemma SetProvesError(g: Graph, start: Id, some: set<Id>)
    requires AllReached(g, start, some)
    ensures |some| > MANIFEST_MAX_ENTRIES ==> SnapshotErrorIsReal(g, start, ManifestFull)
    ensures SumOver(some, SnapshotWeight(g)) > MAX_TREE_WORK_ITEMS ==> SnapshotErrorIsReal(g, start, WorkLimit)
  {
  }

  method WalkSnapshots(g: Graph, start: Id)
    returns (error: Option<ReachError>, seen: set<Id>, roots: seq<Id>, work: nat)
    ensures error.None? ==> work <= MAX_TREE_WORK_ITEMS && RootsOf(g, seen, roots)
    ensures error.None? ==> work == SumOver(seen, SnapshotWeight(g))
    ensures error.None? ==> forall s :: s in seen <==> Reaches(g, start, s)
    ensures error.Some? ==> SnapshotErrorIsReal(g, start, error.value)
  {
    ReachesSelf(g, start);
    seen, roots, work := {}, [], 0;
    var pending := [start];
    while pending != []
      invariant SnapshotWalk(g, start, seen, pending) && RootsOf(g, seen, roots)
      invariant work <= MAX_TREE_WORK_ITEMS && work == SumOver(seen, SnapshotWeight(g))
      decreases MAX_TREE_WORK_ITEMS - work, |pending|
    {
      var n := |pending|;
      var id := pending[n - 1];
      assert pending == pending[..n - 1] + [id];
      pending := pending[..n - 1];
      SnapshotSkip(g, start, seen, pending, id);
      if id in seen {
        continue;
      }
      OneMoreReached(g, start, seen, id);
      if |seen| >= MANIFEST_MAX_ENTRIES {
        return Some(ManifestFull), seen, roots, work;
      }
      if id !in g {
        return Some(MissingSnapshot(id)), seen, roots, work;
      }
      work := work + |g[id].parents| + 1;
      if work > MAX_TREE_WORK_ITEMS {
        return Some(WorkLimit), seen, roots, work;
      }
      SnapshotExpand(g, start, seen, pending, id);
      RootsGrow(g, seen, roots, id);
      seen, roots := seen + {id}, roots + [g[id].root];
      pending := pending + g[id].parents;
    }
    SnapshotsAll(g, start, seen);
    error := None;
  }

  lemma RootsGrow(g: Graph, seen: set<Id>, roots: seq<Id>, id: Id)
    requires RootsOf(g, seen, roots) && id in g
    ensures RootsOf(g, seen + {id}, roots + [g[id].root])
  {
    forall r | r in roots + [g[id].root]
      ensures exists s :: s in seen + {id} && s in g && g[s].root == r
    {
      if r in roots {
        var s :| s in seen && s in g && g[s].root == r;
        assert s in seen + {id};
      } else {
        assert id in seen + {id};
      }
    }
  }

  // ----- second walk: directories, memoised on (directory, path)

  /** A directory at a path below one of the roots. */
  ghost predicate Found(trees: Store, roots: seq<Id>, id: Id, path: seq<string>) {
    exists r :: r in roots && DirAt(trees, r, path, id)
  }

  ghost predicate Waits(stack: Stack, id: Id, path: seq<string>) {
    exists w :: w in stack && w.Enter? && w.id == id && w.prefix == path
  }

  ghost predicate InRoots(trees: Store, roots: seq<Id>, expand: bool, chunks: ChunkIndex, h: Id) {
    exists path, id :: Found(trees, roots, id, path) && OfDirectory(trees, path, id, expand, chunks, h)
  }

  /** Everything gathered or waiting is really below a root. */
  ghost predicate Sound(
    trees: Store, roots: seq<Id>, expand: bool, chunks: ChunkIndex, base: set<Id>,
    stack: Stack, expanded: set<(Id, seq<string>)>, hashes: set<Id>)
  {
    && (forall w :: w in stack && w.Enter? ==> Found(trees, roots, w.id, w.prefix))
    && (forall x :: x in expanded ==> x.0 in trees && Found(trees, roots, x.0, x.1))
    && (forall h :: h in hashes ==> h in base || InRoots(trees, roots, expand, chunks, h))
  }

  /** An expanded directory has given all it has. */
  ghost predicate Gathered(
    trees: Store, expand: bool, chunks: ChunkIndex, x: (Id, seq<string>), e: Entry,
    stack: Stack, expanded: set<(Id, seq<string>)>, hashes: set<Id>)
  {
    && EntryHeld(e, x.1 + [e.name], expand, chunks, hashes)
    && (e.kind.Dir? ==> (e.hash, x.1 + [e.name]) in expanded || Waits(stack, e.hash, x.1 + [e.name]))
  }

  ghost predicate Complete(
    trees: Store, roots: seq<Id>, expand: bool, chunks: ChunkIndex, base: set<Id>,
    stack: Stack, expanded: set<(Id, seq<string>)>, hashes: set<Id>)
  {
    && base <= hashes
    && (forall r :: r in roots ==> (r, []) in expanded || Waits(stack, r, []))
    && (forall x :: x in expanded ==> x.0 in hashes)
    && (forall x, e :: x in expanded && x.0 in trees && e in trees[x.0].entries ==>
          Gathered(trees, expand, chunks, x, e, stack, expanded, hashes))
  }

  lemma {:induction false} AllFoundExpanded(
    trees: Store, roots: seq<Id>, expand: bool, chunks: ChunkIndex, base: set<Id>,
    expanded: set<(Id, seq<string>)>, hashes: set<Id>, r: Id, id: Id, path: seq<string>)
    requires Complete(trees, roots, expand, chunks, base, [], expanded, hashes)
    requires Sound(trees, roots, expand, chunks, base, [], expanded, hashes)
    requires r in roots && DirAt(trees, r, path, id)
    ensures (id, path) in expanded
    decreases |path|
  {
    if path != [] {
      var up, name := path[..|path| - 1], path[|path| - 1];
      var parent :| DirAt(trees, r, up, parent) && Contains(trees, parent, name, id);
      AllFoundExpanded(trees, roots, expand, chunks, base, expanded, hashes, r, parent, up);
      var d :| LeadsDown(trees[parent], d, name) && d.hash == id;
      assert Gathered(trees, expand, chunks, (parent, up), d, [], expanded, hashes);
      assert up + [name] == path;
    }
  }

  /** When nothing waits, exactly the objects of the roots were gathered. */
  lemma GatheredExactly(
    trees: Store, roots: seq<Id>, expand: bool, chunks: ChunkIndex, base: set<Id>,
    expanded: set<(Id, seq<string>)>, hashes: set<Id>, h: Id)
    requires Complete(trees, roots, expand, chunks, base, [], expanded, hashes)
    requires Sound(trees, roots, expand, chunks, base, [], expanded, hashes)
    ensures h in hashes <==> h in base || InRoots(trees, roots, expand, chunks, h)
  {
    if InRoots(trees, roots, expand, chunks, h) {
      var path, id :| Found(trees, roots, id, path) && OfDirectory(trees, path, id, expand, chunks, h);
      var r :| r in roots && DirAt(trees, r, path, id);
      AllFoundExpanded(trees, roots, expand, chunks, base, expanded, hashes, r, id, path);
      if h != id {
        var e :| e in trees[id].entries && EntryHolds(e, path + [e.name], expand, chunks, h);
        assert Gathered(trees, expand, chunks, (id, path), e, [], expanded, hashes);
      }
    }
  }

  lemma FoundBelow(trees: Store, roots: seq<Id>, id: Id, path: seq<string>, d: Entry)
    requires Found(trees, roots, id, path) && id in trees && d in trees[id].entries && d.kind.Dir?
    ensures Found(trees, roots, d.hash, path + [d.name])
  {
    var r :| r in roots && DirAt(trees, r, path, id);
    var longer := path + [d.name];
    assert longer[..|longer| - 1] == path && longer[|longer| - 1] == d.name;
    assert LeadsDown(trees[id], d, d.name);
    assert Contains(trees, id, d.name, d.hash);
    assert DirAt(trees, r, longer, d.hash);
  }

  /** Chunks looked up for the files and conflicts of a directory. */
  ghost function ChunkTotal(entries: seq<Entry>, path: seq<string>, expand: bool, chunks: ChunkIndex): nat {
    if entries == [] then 0
    else
      (if entries[0].kind.Dir? then 0
       else ChunkWork(Legs(entries[0]), entries[0], path + [entries[0].name], expand, chunks))
      + ChunkTotal(entries[1..], path, expand, chunks)
  }

  ghost function ByteTotal(entries: seq<Entry>, path: seq<string>): nat {
    if entries == [] then 0 else PathBytes(path + [entries[0].name]) + ByteTotal(entries[1..], path)
  }

  lemma {:induction false} TotalsOfSuffix(entries: seq<Entry>, path: seq<string>, expand: bool, chunks: ChunkIndex, i: nat)
    requires i <= |entries|
    ensures ChunkTotal(entries[i..], path, expand, chunks) <= ChunkTotal(entries, path, expand, chunks)
    ensures ByteTotal(entries[i..], path) <= ByteTotal(entries, path)
  {
    if i == 0 {
      assert entries[0..] == entries;
    } else {
      assert entries[1..][i - 1..] == entries[i..];
      TotalsOfSuffix(entries[1..], path, expand, chunks, i - 1);
    }
  }

  predicate BadPath(path: seq<string>, safe: seq<string> -> bool) {
    !safe(path) || |path| > MAX_TREE_DEPTH
  }

  /** One directory's entries: its objects into the set, its subdirectories
      onto the stack, first one on top. */
  method GatherEntries(
    entries: seq<Entry>, path: seq<string>, depth: nat, safe: seq<string> -> bool, expand: bool, chunks: ChunkIndex,
    hashes0: set<Id>, work0: nat, bytes0: nat)
    returns (error: Option<ReachError>, hashes: set<Id>, enters: Stack, work: nat, bytes: nat)
    requires work0 <= MAX_TREE_WORK_ITEMS && bytes0 <= MAX_TREE_PATH_BYTES_TOTAL
    ensures error.None? ==> work == work0 + ChunkTotal(entries, path, expand, chunks) <= MAX_TREE_WORK_ITEMS
    ensures error.None? ==> bytes == bytes0 + ByteTotal(entries, path) <= MAX_TREE_PATH_BYTES_TOTAL
    ensures error.Some? ==>
              match error.value
              case Unsafe => exists e :: e in entries && BadPath(path + [e.name], safe)
              case WorkLimit => work0 + ChunkTotal(entries, path, expand, chunks) > MAX_TREE_WORK_ITEMS
              case PathByteLimit => bytes0 + ByteTotal(entries, path) > MAX_TREE_PATH_BYTES_TOTAL
              case ManifestFull => true
              case _ => false
    ensures hashes0 <= hashes && OnlyFrom(entries, path, expand, chunks, hashes0, hashes)
    ensures error.None? ==> forall e :: e in entries ==> EntryHeld(e, path + [e.name], expand, chunks, hashes)
    ensures error.None? ==> enters == Enters(entries, path, depth)
    ensures error == Some(ManifestFull) ==>
              && |hashes| >= MANIFEST_MAX_ENTRIES
              && exists e, h :: e in entries && EntryHolds(e, path + [e.name], expand, chunks, h) && h !in hashes
  {
    hashes, enters, work, bytes := hashes0, [], work0, bytes0;
    for i := |entries| downto 0
      invariant work == work0 + ChunkTotal(entries[i..], path, expand, chunks) <= MAX_TREE_WORK_ITEMS
      invariant bytes == bytes0 + ByteTotal(entries[i..], path) <= MAX_TREE_PATH_BYTES_TOTAL
      invariant hashes0 <= hashes && OnlyFrom(entries, path, expand, chunks, hashes0, hashes)
      invariant forall k :: i <= k < |entries| ==>
                  EntryHeld(entries[k], path + [entries[k].name], expand, chunks, hashes)
      invariant enters == Enters(entries[i..], path, depth)
    {
      var e := entries[i];
      var at := path + [e.name];
      assert entries[i..][0] == e && entries[i..][1..] == entries[i + 1..];
      TotalsOfSuffix(entries, path, expand, chunks, i);
      if BadPath(at, safe) {
        return Some(Unsafe), hashes, enters, work, bytes;
      }
      bytes := bytes + PathBytes(at);
      if bytes > MAX_TREE_PATH_BYTES_TOTAL {
        return Some(PathByteLimit), hashes, enters, work, bytes;
      }
      if e.kind.Dir? {
        enters := [Enter(e.hash, at, depth + 1)] + enters;
      } else {
        work := work + ChunkWork(Legs(e), e, at, expand, chunks);
        if work > MAX_TREE_WORK_ITEMS {
          return Some(WorkLimit), hashes, enters, work, bytes;
        }
        var ok, next := InsertAll(hashes, EntryHashes(e, at, expand, chunks));
        hashes := next;
        if !ok {
          return Some(ManifestFull), hashes, enters, work, bytes;
        }
      }
    }
    assert entries[0..] == entries;
    error := None;
  }

  lemma {:induction false} EntersMember(entries: seq<Entry>, path: seq<string>, depth: nat, w: Work)
    ensures w in Enters(entries, path, depth) <==>
              exists e :: e in entries && e.kind.Dir? && w == Enter(e.hash, path + [e.name], depth + 1)
  {
    if entries != [] {
      EntersMember(entries[1..], path, depth, w);
      assert forall e :: e in entries <==> e == entries[0] || e in entries[1..];
    }
  }

  /** Popping an exit, or a directory already expanded at that path. */
  lemma PopKeeps(
    trees: Store, roots: seq<Id>, expand: bool, chunks: ChunkIndex, base: set<Id>,
    top: Work, rest: Stack, expanded: set<(Id, seq<string>)>, hashes: set<Id>)
    requires Sound(trees, roots, expand, chunks, base, [top] + rest, expanded, hashes)
    requires Complete(trees, roots, expand, chunks, base, [top] + rest, expanded, hashes)
    requires top.Enter? ==> (top.id, top.prefix) in expanded
    ensures Sound(trees, roots, expand, chunks, base, rest, expanded, hashes)
    ensures Complete(trees, roots, expand, chunks, base, rest, expanded, hashes)
  {
    forall id, path | Waits([top] + rest, id, path)
      ensures (id, path) in expanded || Waits(rest, id, path)
    {
    }
    forall x, e | x in expanded && x.0 in trees && e in trees[x.0].entries
      ensures Gathered(trees, expand, chunks, x, e, rest, expanded, hashes)
    {
      assert Gathered(trees, expand, chunks, x, e, [top] + rest, expanded, hashes);
    }
  }

  /** Expanding the top directory keeps both sides. */
  lemma ExpandKeepsSound(
    trees: Store, roots: seq<Id>, expand: bool, chunks: ChunkIndex, base: set<Id>,
    top: Work, rest: Stack, expanded: set<(Id, seq<string>)>, hashes: set<Id>, hashes': set<Id>)
    requires top.Enter? && top.id in trees
    requires Sound(trees, roots, expand, chunks, base, [top] + rest, expanded, hashes)
    requires OnlyFrom(trees[top.id].entries, top.prefix, expand, chunks, hashes + {top.id}, hashes')
    ensures Sound(trees, roots, expand, chunks, base,
                  Enters(trees[top.id].entries, top.prefix, top.depth) + ([Exit(top.id)] + rest),
                  expanded + {(top.id, top.prefix)}, hashes')
  {
    var entries := trees[top.id].entries;
    var stack' := Enters(entries, top.prefix, top.depth) + ([Exit(top.id)] + rest);
    assert top in [top] + rest;
    assert Found(trees, roots, top.id, top.prefix);
    forall w | w in stack' && w.Enter?
      ensures Found(trees, roots, w.id, w.prefix)
    {
      EntersMember(entries, top.prefix, top.depth, w);
      if w in Enters(entries, top.prefix, top.depth) {
        var e :| e in entries && e.kind.Dir? && w == Enter(e.hash, top.prefix + [e.name], top.depth + 1);
        FoundBelow(trees, roots, top.id, top.prefix, e);
      } else {
        assert w in [top] + rest;
      }
    }
    forall h | h in hashes' && h !in hashes
      ensures InRoots(trees, roots, expand, chunks, h)
    {
      assert OfDirectory(trees, top.prefix, top.id, expand, chunks, h);
    }
  }

  lemma ExpandKeepsComplete(
    trees: Store, roots: seq<Id>, expand: bool, chunks: ChunkIndex, base: set<Id>,
    top: Work, rest: Stack, expanded: set<(Id, seq<string>)>, hashes: set<Id>, hashes': set<Id>)
    requires top.Enter? && top.id in trees
    requires Complete(trees, roots, expand, chunks, base, [top] + rest, expanded, hashes)
    requires hashes <= hashes' && top.id in hashes'
    requires forall e :: e in trees[top.id].entries ==>
               EntryHeld(e, top.prefix + [e.name], expand, chunks, hashes')
    ensures Complete(trees, roots, expand, chunks, base,
                     Enters(trees[top.id].entries, top.prefix, top.depth) + ([Exit(top.id)] + rest),
                     expanded + {(top.id, top.prefix)}, hashes')
  {
    var entries := trees[top.id].entries;
    var stack' := Enters(entries, top.prefix, top.depth) + ([Exit(top.id)] + rest);
    var expanded' := expanded + {(top.id, top.prefix)};
    WaitsOn(top, rest, entries, expanded);
    forall x, e | x in expanded' && x.0 in trees && e in trees[x.0].entries
      ensures Gathered(trees, expand, chunks, x, e, stack', expanded', hashes')
    {
      if x in expanded {
        assert Gathered(trees, expand, chunks, x, e, [top] + rest, expanded, hashes);
      }
    }
  }

  /** Whatever waited still waits or was just expanded; the subdirectories
      wait now. */
  lemma WaitsOn(top: Work, rest: Stack, entries: seq<Entry>, expanded: set<(Id, seq<string>)>)
    requires top.Enter?
    ensures var stack' := Enters(entries, top.prefix, top.depth) + ([Exit(top.id)] + rest);
            && (forall id, path :: Waits([top] + rest, id, path) ==>
                  (id, path) in expanded + {(top.id, top.prefix)} || Waits(stack', id, path))
            && (forall e :: e in entries && e.kind.Dir? ==> Waits(stack', e.hash, top.prefix + [e.name]))
  {
    var stack' := Enters(entries, top.prefix, top.depth) + ([Exit(top.id)] + rest);
    forall id, path | Waits([top] + rest, id, path)
      ensures (id, path) in expanded + {(top.id, top.prefix)} || Waits(stack', id, path)
    {
      var w :| w in [top] + rest && w.Enter? && w.id == id && w.prefix == path;
      assert w == top || w in stack';
    }
    forall e | e in entries && e.kind.Dir?
      ensures Waits(stack', e.hash, top.prefix + [e.name])
    {
      var w := Enter(e.hash, top.prefix + [e.name], top.depth + 1);
      EntersMember(entries, top.prefix, top.depth, w);
      assert w in stack';
    }
  }

  function RootWork(roots: seq<Id>): Stack {
    if roots == [] then [] else [Enter(roots[0], [], 0)] + RootWork(roots[1..])
  }

  lemma {:induction false} RootWorkMember(roots: seq<Id>, w: Work)
    ensures w in RootWork(roots) <==> w.Enter? && w.id in roots && w.prefix == [] && w.depth == 0
  {
    if roots != [] {
      RootWorkMember(roots[1..], w);
    }
  }

  lemma StartsWithRoots(trees: Store, roots: seq<Id>, expand: bool, chunks: ChunkIndex, base: set<Id>)
    ensures Sound(trees, roots, expand, chunks, base, RootWork(roots), {}, base)
    ensures Complete(trees, roots, expand, chunks, base, RootWork(roots), {}, base)
  {
    forall w
      ensures w in RootWork(roots) <==> w.Enter? && w.id in roots && w.prefix == [] && w.depth == 0
    {
      RootWorkMember(roots, w);
    }
    forall r | r in roots
      ensures Waits(RootWork(roots), r, [])
    {
      assert Enter(r, [], 0) in RootWork(roots);
    }
    forall w | w in RootWork(roots)
      ensures Found(trees, roots, w.id, w.prefix)
    {
      assert DirAt(trees, w.id, [], w.id);
    }
  }

  // ----- the open directories lie on one path

  ghost predicate ClimbsTo(trees: Store, up: seq<Id>, roots: seq<Id>) {
    exists r :: r in roots && Climbs(trees, up, r)
  }

  ghost predicate StackIn(trees: Store, roots: seq<Id>, stack: Stack) {
    stack == [] ||
    (&& StackIn(trees, roots, stack[1..])
     && ClimbsTo(trees, [stack[0].id] + Open(stack[1..]), roots)
     && (stack[0].Enter? ==> stack[0].depth == |stack[0].prefix|)
     && (stack[0].Exit? ==> stack[0].id !in Open(stack[1..])))
  }

  lemma {:induction false} RootsStackIn(trees: Store, all: seq<Id>, roots: seq<Id>)
    requires forall r :: r in roots ==> r in all
    ensures StackIn(trees, all, RootWork(roots)) && Open(RootWork(roots)) == []
  {
    if roots != [] {
      RootsStackIn(trees, all, roots[1..]);
      var stack := RootWork(roots);
      assert stack[1..] == RootWork(roots[1..]);
      assert [roots[0]] + [] == [roots[0]];
      assert roots[0] in roots && Climbs(trees, [roots[0]], roots[0]);
    }
  }

  lemma {:induction false} EntersStackIn(
    trees: Store, roots: seq<Id>, entries: seq<Entry>, prefix: seq<string>, depth: nat, rest: Stack)
    requires StackIn(trees, roots, rest) && rest != [] && rest[0].Exit? && rest[0].id in trees && depth == |prefix|
    requires forall e :: e in entries && e.kind.Dir? ==> e.hash in Children(trees[rest[0].id])
    ensures StackIn(trees, roots, Enters(entries, prefix, depth) + rest)
  {
    var stack := Enters(entries, prefix, depth) + rest;
    if entries == [] {
      assert stack == rest;
    } else {
      EntersStackIn(trees, roots, entries[1..], prefix, depth, rest);
      if entries[0].kind.Dir? {
        assert stack[1..] == Enters(entries[1..], prefix, depth) + rest;
        OpenOfEnters(entries[1..], prefix, depth, rest);
        assert Open(rest) == [rest[0].id] + Open(rest[1..]);
        assert entries[0] in entries;
        var r :| r in roots && Climbs(trees, [rest[0].id] + Open(rest[1..]), r);
        ClimbsDown(trees, Open(rest), r, entries[0].hash);
      } else {
        assert stack == Enters(entries[1..], prefix, depth) + rest;
      }
    }
  }

  /** The stack is in order and `active` are the open directories. */
  ghost predicate OnPath(trees: Store, roots: seq<Id>, stack: Stack, active: set<Id>) {
    StackIn(trees, roots, stack) && forall x :: x in active <==> x in Open(stack)
  }

  /** Opening the top directory. */
  lemma OpenTop(trees: Store, roots: seq<Id>, top: Work, rest: Stack, active: set<Id>)
    requires OnPath(trees, roots, [top] + rest, active) && top.Enter? && top.id in trees && top.id !in active
    ensures OnPath(trees, roots, Enters(trees[top.id].entries, top.prefix, top.depth) + ([Exit(top.id)] + rest),
                   active + {top.id})
  {
    var below, entries := [Exit(top.id)] + rest, trees[top.id].entries;
    assert ([top] + rest)[1..] == rest && below[1..] == rest;
    forall e | e in entries && e.kind.Dir?
      ensures e.hash in Children(trees[top.id])
    {
      DirTargetOf(entries, e);
    }
    EntersStackIn(trees, roots, entries, top.prefix, top.depth, below);
    OpenOfEnters(entries, top.prefix, top.depth, below);
  }

  /** Popping the top. */
  lemma PopTop(trees: Store, roots: seq<Id>, top: Work, rest: Stack, active: set<Id>)
    requires OnPath(trees, roots, [top] + rest, active)
    ensures OnPath(trees, roots, rest, if top.Exit? then active - {top.id} else active)
    ensures top.Enter? ==> top.depth == |top.prefix|
    ensures top.Enter? && top.id in active ==> exists r :: r in roots && Repeats(trees, r, top.id)
  {
    assert ([top] + rest)[1..] == rest;
    if top.Enter? && top.id in Open(rest) {
      var up := [top.id] + Open(rest);
      var r :| r in roots && Climbs(trees, up, r);
      var k :| 0 <= k < |Open(rest)| && Open(rest)[k] == top.id;
      assert up[0] == top.id && up[k + 1] == top.id;
      assert Repeats(trees, r, top.id);
    }
  }

  // ----- what an error proves

  ghost function DirWeight(trees: Store, expand: bool, chunks: ChunkIndex): ((Id, seq<string>)) -> nat {
    (x: (Id, seq<string>)) =>
      if x.0 in trees
      then |trees[x.0].entries| + 1 + ChunkTotal(trees[x.0].entries, x.1, expand, chunks) else 0
  }

  ghost function DirBytes(trees: Store): ((Id, seq<string>)) -> nat {
    (x: (Id, seq<string>)) => if x.0 in trees then ByteTotal(trees[x.0].entries, x.1) else 0
  }

  ghost predicate AllFound(trees: Store, roots: seq<Id>, dirs: set<(Id, seq<string>)>) {
    forall x :: x in dirs ==> Found(trees, roots, x.0, x.1)
  }

  ghost predicate AllDirs(trees: Store, roots: seq<Id>, some: set<Id>) {
    forall id :: id in some ==> exists path :: Found(trees, roots, id, path)
  }

  ghost predicate AllGathered(
    trees: Store, roots: seq<Id>, expand: bool, chunks: ChunkIndex, base: set<Id>, some: set<Id>)
  {
    forall h :: h in some ==> h in base || InRoots(trees, roots, expand, chunks, h)
  }

  ghost predicate HasBadPath(trees: Store, roots: seq<Id>, safe: seq<string> -> bool) {
    exists id, path, e :: Found(trees, roots, id, path) && id in trees && e in trees[id].entries
                          && BadPath(path + [e.name], safe)
  }

  /** Every error of the second walk names something really wrong. */
  ghost predicate TreeErrorIsReal(
    trees: Store, roots: seq<Id>, safe: seq<string> -> bool, expand: bool, chunks: ChunkIndex, base: set<Id>,
    work0: nat, error: ReachError)
  {
    match error
    case MissingSnapshot(_) => false
    case MissingTree(id) => id !in trees && exists path :: Found(trees, roots, id, path)
    case CycleOrDepth =>
      || (exists r, id :: r in roots && Repeats(trees, r, id))
      || (exists id, path :: Found(trees, roots, id, path) && |path| > MAX_TREE_DEPTH)
    case ManifestFull =>
      exists some :: AllGathered(trees, roots, expand, chunks, base, some) && |some| > MANIFEST_MAX_ENTRIES
    case WorkLimit =>
      exists dirs :: AllFound(trees, roots, dirs)
                     && work0 + SumOver(dirs, DirWeight(trees, expand, chunks)) > MAX_TREE_WORK_ITEMS
    case PathByteLimit =>
      exists dirs :: AllFound(trees, roots, dirs) && SumOver(dirs, DirBytes(trees)) > MAX_TREE_PATH_BYTES_TOTAL
    case ObjectLimit => exists some :: AllDirs(trees, roots, some) && |some| > MAX_TREE_OBJECTS
    case Unsafe => HasBadPath(trees, roots, safe)
  }

  lemma FullIsReal(
    trees: Store, roots: seq<Id>, expand: bool, chunks: ChunkIndex, base: set<Id>, hashes: set<Id>, h: Id)
    requires AllGathered(trees, roots, expand, chunks, base, hashes) && InRoots(trees, roots, expand, chunks, h)
    requires h !in hashes && |hashes| >= MANIFEST_MAX_ENTRIES
    ensures exists some :: AllGathered(trees, roots, expand, chunks, base, some) && |some| > MANIFEST_MAX_ENTRIES
  {
    assert AllGathered(trees, roots, expand, chunks, base, hashes + {h});
    assert |hashes + {h}| == |hashes| + 1;
  }

  /** The counters of the second walk. */
  datatype Counters = Counters(work: nat, bytes: nat, objects: set<Id>)

  ghost predicate Counted(
    trees: Store, roots: seq<Id>, expand: bool, chunks: ChunkIndex, work0: nat,
    expanded: set<(Id, seq<string>)>, c: Counters)
  {
    && c.work == work0 + SumOver(expanded, DirWeight(trees, expand, chunks)) <= MAX_TREE_WORK_ITEMS
    && c.bytes == SumOver(expanded, DirBytes(trees)) <= MAX_TREE_PATH_BYTES_TOTAL
    && AllDirs(trees, roots, c.objects)
  }

  /** Records one directory: it counts as an object, enters the manifest and
      must be there. */
  method RecordDirectory(
    trees: Store, roots: seq<Id>, safe: seq<string> -> bool, expand: bool, chunks: ChunkIndex, base: set<Id>,
    ghost work0: nat, id: Id, ghost path: seq<string>, hashes: set<Id>, objects0: set<Id>)
    returns (error: Option<ReachError>, withId: set<Id>, objects: set<Id>)
    requires Found(trees, roots, id, path) && AllGathered(trees, roots, expand, chunks, base, hashes)
    requires AllDirs(trees, roots, objects0)
    ensures error.Some? ==> TreeErrorIsReal(trees, roots, safe, expand, chunks, base, work0, error.value)
    ensures error.None? ==> id in trees && withId == hashes + {id} && AllDirs(trees, roots, objects)
  {
    withId := hashes;
    objects := objects0 + {id};
    assert AllDirs(trees, roots, objects);
    if |objects| > MAX_TREE_OBJECTS {
      return Some(ObjectLimit), withId, objects;
    }
    var ok;
    ok, withId := InsertAll(hashes, {id});
    if !ok {
      IdIsInRoots(trees, roots, expand, chunks, id, path);
      FullIsReal(trees, roots, expand, chunks, base, withId, id);
      return Some(ManifestFull), withId, objects;
    }
    if id !in trees {
      return Some(MissingTree(id)), withId, objects;
    }
    error := None;
  }

  /** Goes through the entries of a directory that is there. */
  method GatherDirectory(
    trees: Store, roots: seq<Id>, safe: seq<string> -> bool, expand: bool, chunks: ChunkIndex, ghost base: set<Id>,
    ghost work0: nat, top: Work, expanded: set<(Id, seq<string>)>, ghost hashes: set<Id>, withId: set<Id>, c: Counters)
    returns (error: Option<ReachError>, enters: Stack, hashes': set<Id>, c': Counters)
    requires top.Enter? && (top.id, top.prefix) !in expanded && top.id in trees && withId == hashes + {top.id}
    requires Found(trees, roots, top.id, top.prefix) && AllFound(trees, roots, expanded)
    requires AllGathered(trees, roots, expand, chunks, base, hashes)
    requires Counted(trees, roots, expand, chunks, work0, expanded, c)
    ensures error.Some? ==> TreeErrorIsReal(trees, roots, safe, expand, chunks, base, work0, error.value)
    ensures error.None? ==>
              && enters == Enters(trees[top.id].entries, top.prefix, top.depth)
              && Counted(trees, roots, expand, chunks, work0, expanded + {(top.id, top.prefix)}, c')
              && c'.work > c.work && withId <= hashes'
              && OnlyFrom(trees[top.id].entries, top.prefix, expand, chunks, withId, hashes')
              && (forall e :: e in trees[top.id].entries ==>
                    EntryHeld(e, top.prefix + [e.name], expand, chunks, hashes'))
  {
    enters, hashes', c' := [], withId, c;
    var entries := trees[top.id].entries;
    AllFoundWith(trees, roots, expand, chunks, expanded, top.id, top.prefix);
    if c.work + |entries| + 1 > MAX_TREE_WORK_ITEMS {
      return Some(WorkLimit), enters, hashes', c';
    }
    var work, bytes;
    error, hashes', enters, work, bytes :=
      GatherEntries(entries, top.prefix, top.depth, safe, expand, chunks, withId, c.work + |entries| + 1, c.bytes);
    if error.Some? {
      if error.value.ManifestFull? {
        GatheredFull(trees, roots, expand, chunks, base, top.id, top.prefix, hashes, hashes');
      }
      return;
    }
    c' := Counters(work, bytes, c.objects);
  }

  /** Whatever is new comes from one of the entries. */
  ghost predicate OnlyFrom(
    entries: seq<Entry>, path: seq<string>, expand: bool, chunks: ChunkIndex, before: set<Id>, after: set<Id>)
  {
    forall h :: h in after ==>
      h in before || exists e :: e in entries && EntryHolds(e, path + [e.name], expand, chunks, h)
  }

  /** Opens one directory: the checks in the program's order, then its
      entries. */
  method OpenDirectory(
    trees: Store, roots: seq<Id>, safe: seq<string> -> bool, expand: bool, chunks: ChunkIndex, base: set<Id>,
    ghost work0: nat, top: Work, rest: Stack, expanded: set<(Id, seq<string>)>, hashes: set<Id>, c: Counters)
    returns (error: Option<ReachError>, stack: Stack, hashes': set<Id>, c': Counters)
    requires top.Enter? && (top.id, top.prefix) !in expanded
    requires Sound(trees, roots, expand, chunks, base, [top] + rest, expanded, hashes)
    requires Complete(trees, roots, expand, chunks, base, [top] + rest, expanded, hashes)
    requires Counted(trees, roots, expand, chunks, work0, expanded, c)
    ensures error.Some? ==> TreeErrorIsReal(trees, roots, safe, expand, chunks, base, work0, error.value)
    ensures error.None? ==>
              && top.id in trees
              && stack == Enters(trees[top.id].entries, top.prefix, top.depth) + ([Exit(top.id)] + rest)
              && Sound(trees, roots, expand, chunks, base, stack, expanded + {(top.id, top.prefix)}, hashes')
              && Complete(trees, roots, expand, chunks, base, stack, expanded + {(top.id, top.prefix)}, hashes')
              && Counted(trees, roots, expand, chunks, work0, expanded + {(top.id, top.prefix)}, c')
              && c'.work > c.work
  {
    stack, hashes', c' := [], hashes, c;
    SoundTop(trees, roots, expand, chunks, base, top, rest, expanded, hashes);
    var withId, objects;
    error, withId, objects :=
      RecordDirectory(trees, roots, safe, expand, chunks, base, work0, top.id, top.prefix, hashes, c.objects);
    if error.Some? {
      return;
    }
    var enters;
    error, enters, hashes', c' := GatherDirectory(
      trees, roots, safe, expand, chunks, base, work0, top, expanded, hashes, withId, c.(objects := objects));
    if error.Some? {
      return;
    }
    ExpandKeepsSound(trees, roots, expand, chunks, base, top, rest, expanded, hashes, hashes');
    ExpandKeepsComplete(trees, roots, expand, chunks, base, top, rest, expanded, hashes, hashes');
    stack := enters + ([Exit(top.id)] + rest);
  }

  lemma SoundTop(
    trees: Store, roots: seq<Id>, expand: bool, chunks: ChunkIndex, base: set<Id>,
    top: Work, rest: Stack, expanded: set<(Id, seq<string>)>, hashes: set<Id>)
    requires Sound(trees, roots, expand, chunks, base, [top] + rest, expanded, hashes) && top.Enter?
    ensures Found(trees, roots, top.id, top.prefix) && AllFound(trees, roots, expanded)
    ensures AllGathered(trees, roots, expand, chunks, base, hashes)
  {
    assert top in [top] + rest;
  }

  lemma IdIsInRoots(trees: Store, roots: seq<Id>, expand: bool, chunks: ChunkIndex, id: Id, path: seq<string>)
    requires Found(trees, roots, id, path)
    ensures InRoots(trees, roots, expand, chunks, id)
  {
    assert OfDirectory(trees, path, id, expand, chunks, id);
  }

  lemma AllFoundWith(
    trees: Store, roots: seq<Id>, expand: bool, chunks: ChunkIndex, expanded: set<(Id, seq<string>)>, id: Id, path: seq<string>)
    requires (forall x :: x in expanded ==> Found(trees, roots, x.0, x.1)) && Found(trees, roots, id, path)
    requires (id, path) !in expanded && id in trees
    ensures AllFound(trees, roots, expanded + {(id, path)})
    ensures SumOver(expanded + {(id, path)}, DirWeight(trees, expand, chunks)) ==
            SumOver(expanded, DirWeight(trees, expand, chunks))
            + |trees[id].entries| + 1 + ChunkTotal(trees[id].entries, path, expand, chunks)
    ensures SumOver(expanded + {(id, path)}, DirBytes(trees)) ==
            SumOver(expanded, DirBytes(trees)) + ByteTotal(trees[id].entries, path)
  {
    SumInsert(expanded, DirWeight(trees, expand, chunks), (id, path));
    SumInsert(expanded, DirBytes(trees), (id, path));
  }

  lemma GatheredFull(
    trees: Store, roots: seq<Id>, expand: bool, chunks: ChunkIndex, base: set<Id>, id: Id, path: seq<string>,
    hashes: set<Id>, hashes': set<Id>)
    requires AllGathered(trees, roots, expand, chunks, base, hashes) && Found(trees, roots, id, path) && id in trees
    requires OnlyFrom(trees[id].entries, path, expand, chunks, hashes + {id}, hashes')
    requires |hashes'| >= MANIFEST_MAX_ENTRIES
    requires exists e, h :: e in trees[id].entries && EntryHolds(e, path + [e.name], expand, chunks, h) && h !in hashes'
    ensures exists some :: AllGathered(trees, roots, expand, chunks, base, some) && |some| > MANIFEST_MAX_ENTRIES
  {
    var e, h :| e in trees[id].entries && EntryHolds(e, path + [e.name], expand, chunks, h) && h !in hashes';
    forall x | x in hashes' + {h} && x !in hashes
      ensures InRoots(trees, roots, expand, chunks, x)
    {
      assert OfDirectory(trees, path, id, expand, chunks, x);
    }
    FullIsReal(trees, roots, expand, chunks, base, hashes', h);
  }

  method WalkTrees(
    trees: Store, roots: seq<Id>, safe: seq<string> -> bool, expand: bool, chunks: ChunkIndex,
    base: set<Id>, work0: nat)
    returns (error: Option<ReachError>, hashes: set<Id>)
    requires work0 <= MAX_TREE_WORK_ITEMS
    ensures error.None? ==> forall h :: h in hashes <==> h in base || InRoots(trees, roots, expand, chunks, h)
    ensures error.None? ==> forall path, id :: Found(trees, roots, id, path) ==> id in trees
    ensures error.Some? ==> TreeErrorIsReal(trees, roots, safe, expand, chunks, base, work0, error.value)
  {
    var stack := RootWork(roots);
    var active: set<Id> := {};
    var expanded: set<(Id, seq<string>)> := {};
    var c := Counters(work0, 0, {});
    hashes := base;
    StartsWithRoots(trees, roots, expand, chunks, base);
    RootsStackIn(trees, roots, roots);
    while stack != []
      invariant Sound(trees, roots, expand, chunks, base, stack, expanded, hashes)
      invariant Complete(trees, roots, expand, chunks, base, stack, expanded, hashes)
      invariant Counted(trees, roots, expand, chunks, work0, expanded, c)
      invariant OnPath(trees, roots, stack, active)
      decreases MAX_TREE_WORK_ITEMS - c.work, |stack|
    {
      var top, rest := stack[0], stack[1..];
      assert stack == [top] + rest;
      PopTop(trees, roots, top, rest, active);
      if top.Exit? {
        PopKeeps(trees, roots, expand, chunks, base, top, rest, expanded, hashes);
        active, stack := active - {top.id}, rest;
        continue;
      }
      if top.depth > MAX_TREE_DEPTH || top.id in active {
        SoundTop(trees, roots, expand, chunks, base, top, rest, expanded, hashes);
        return Some(CycleOrDepth), hashes;
      }
      if (top.id, top.prefix) in expanded {
        PopKeeps(trees, roots, expand, chunks, base, top, rest, expanded, hashes);
        stack := rest;
        continue;
      }
      error, stack, hashes, c :=
        OpenDirectory(trees, roots, safe, expand, chunks, base, work0, top, rest, expanded, hashes, c);
      if error.Some? {
        return;
      }
      OpenTop(trees, roots, top, rest, active);
      active, expanded := active + {top.id}, expanded + {(top.id, top.prefix)};
    }
    WalkedAll(trees, roots, expand, chunks, base, expanded, hashes);
    error := None;
  }

  lemma WalkedAll(
    trees: Store, roots: seq<Id>, expand: bool, chunks: ChunkIndex, base: set<Id>,
    expanded: set<(Id, seq<string>)>, hashes: set<Id>)
    requires Complete(trees, roots, expand, chunks, base, [], expanded, hashes)
    requires Sound(trees, roots, expand, chunks, base, [], expanded, hashes)
    ensures forall h :: h in hashes <==> h in base || InRoots(trees, roots, expand, chunks, h)
    ensures forall path, id :: Found(trees, roots, id, path) ==> id in trees
  {
    forall h
      ensures h in hashes <==> h in base || InRoots(trees, roots, expand, chunks, h)
    {
      GatheredExactly(trees, roots, expand, chunks, base, expanded, hashes, h);
    }
    forall path, id | Found(trees, roots, id, path)
      ensures id in trees
    {
      var r :| r in roots && DirAt(trees, r, path, id);
      AllFoundExpanded(trees, roots, expand, chunks, base, expanded, hashes, r, id, path);
    }
  }

  lemma ClosureIsRoots(o: Objects, start: Id, expand: bool, chunks: ChunkIndex, seen: set<Id>, roots: seq<Id>, h: Id)
    requires forall s :: s in seen <==> Reaches(o.snapshots, start, s)
    requires RootsOf(o.snapshots, seen, roots)
    ensures InClosure(o, start, expand, chunks, h) <==> h in seen || InRoots(o.trees, roots, expand, chunks, h)
  {
    if InRoots(o.trees, roots, expand, chunks, h) {
      var path, id :| Found(o.trees, roots, id, path) && OfDirectory(o.trees, path, id, expand, chunks, h);
      var r :| r in roots && DirAt(o.trees, r, path, id);
      var s :| s in seen && s in o.snapshots && o.snapshots[s].root == r;
      assert InTree(o.trees, r, expand, chunks, h);
    }
    if InClosure(o, start, expand, chunks, h) && h !in seen {
      var s :| Reaches(o.snapshots, start, s) && s in o.snapshots && InTree(o.trees, o.snapshots[s].root, expand, chunks, h);
      var path, id :| DirAt(o.trees, o.snapshots[s].root, path, id) && OfDirectory(o.trees, path, id, expand, chunks, h);
      assert Found(o.trees, roots, id, path);
    }
  }

  ghost predicate Needed(o: Objects, start: Id, id: Id, path: seq<string>) {
    exists s :: NeedsDir(o, start, s, path, id)
  }

  ghost predicate AllNeeded(o: Objects, start: Id, dirs: set<(Id, seq<string>)>) {
    forall x :: x in dirs ==> Needed(o, start, x.0, x.1)
  }

  ghost predicate AllNeededDirs(o: Objects, start: Id, some: set<Id>) {
    forall id :: id in some ==> exists path :: Needed(o, start, id, path)
  }

  ghost predicate AllInClosure(o: Objects, start: Id, expand: bool, chunks: ChunkIndex, some: set<Id>) {
    forall h :: h in some ==> InClosure(o, start, expand, chunks, h)
  }

  /** Every error says something true about the closure: something it needs
      is missing, cyclic, too deep or unsafely named, or it is too large. */
  ghost predicate ReachErrorIsReal(
    o: Objects, start: Id, safe: seq<string> -> bool, expand: bool, chunks: ChunkIndex, error: ReachError)
  {
    match error
    case MissingSnapshot(id) => id !in o.snapshots && Reaches(o.snapshots, start, id)
    case MissingTree(id) => id !in o.trees && InClosure(o, start, expand, chunks, id)
    case CycleOrDepth =>
      || (exists s, id :: Reaches(o.snapshots, start, s) && s in o.snapshots && Repeats(o.trees, o.snapshots[s].root, id))
      || (exists id, path :: Needed(o, start, id, path) && |path| > MAX_TREE_DEPTH)
    case ManifestFull =>
      exists some :: AllInClosure(o, start, expand, chunks, some) && |some| > MANIFEST_MAX_ENTRIES
    case WorkLimit =>
      exists some, dirs :: AllReached(o.snapshots, start, some) && AllNeeded(o, start, dirs)
        && SumOver(some, SnapshotWeight(o.snapshots)) + SumOver(dirs, DirWeight(o.trees, expand, chunks))
           > MAX_TREE_WORK_ITEMS
    case PathByteLimit =>
      exists dirs :: AllNeeded(o, start, dirs) && SumOver(dirs, DirBytes(o.trees)) > MAX_TREE_PATH_BYTES_TOTAL
    case ObjectLimit => exists some :: AllNeededDirs(o, start, some) && |some| > MAX_TREE_OBJECTS
    case Unsafe =>
      exists id, path, e :: Needed(o, start, id, path) && id in o.trees && e in o.trees[id].entries
                            && BadPath(path + [e.name], safe)
  }

  lemma FoundIsNeeded(o: Objects, start: Id, seen: set<Id>, roots: seq<Id>, id: Id, path: seq<string>)
    requires forall s :: s in seen <==> Reaches(o.snapshots, start, s)
    requires RootsOf(o.snapshots, seen, roots) && Found(o.trees, roots, id, path)
    ensures Needed(o, start, id, path)
  {
    var r :| r in roots && DirAt(o.trees, r, path, id);
    var s :| s in seen && s in o.snapshots && o.snapshots[s].root == r;
    assert NeedsDir(o, start, s, path, id);
  }

  lemma SnapshotErrorCarries(o: Objects, start: Id, safe: seq<string> -> bool, expand: bool, chunks: ChunkIndex, error: ReachError)
    requires SnapshotErrorIsReal(o.snapshots, start, error)
    ensures ReachErrorIsReal(o, start, safe, expand, chunks, error)
  {
    match error
    case ManifestFull =>
      var some :| AllReached(o.snapshots, start, some) && |some| > MANIFEST_MAX_ENTRIES;
      assert AllInClosure(o, start, expand, chunks, some);
    case WorkLimit =>
      var some :| AllReached(o.snapshots, start, some)
                  && SumOver(some, SnapshotWeight(o.snapshots)) > MAX_TREE_WORK_ITEMS;
      assert AllNeeded(o, start, {}) && SumOver({}, DirWeight(o.trees, expand, chunks)) == 0;
    case _ =>
  }

  lemma TreeErrorCarries(
    o: Objects, start: Id, safe: seq<string> -> bool, expand: bool, chunks: ChunkIndex,
    seen: set<Id>, roots: seq<Id>, error: ReachError)
    requires forall s :: s in seen <==> Reaches(o.snapshots, start, s)
    requires RootsOf(o.snapshots, seen, roots)
    requires TreeErrorIsReal(o.trees, roots, safe, expand, chunks, seen, SumOver(seen, SnapshotWeight(o.snapshots)), error)
    ensures ReachErrorIsReal(o, start, safe, expand, chunks, error)
  {
    forall id, path | Found(o.trees, roots, id, path)
      ensures Needed(o, start, id, path)
    {
      FoundIsNeeded(o, start, seen, roots, id, path);
    }
    match error
    case MissingTree(id) => MissingTreeCarries(o, start, expand, chunks, seen, roots, id);
    case CycleOrDepth =>
      if r, id :| r in roots && Repeats(o.trees, r, id) {
        var s :| s in seen && s in o.snapshots && o.snapshots[s].root == r;
        assert Reaches(o.snapshots, start, s);
      }
    case ManifestFull => FullCarries(o, start, expand, chunks, seen, roots);
    case WorkLimit =>
      var dirs :| AllFound(o.trees, roots, dirs)
                  && SumOver(seen, SnapshotWeight(o.snapshots)) + SumOver(dirs, DirWeight(o.trees, expand, chunks))
                     > MAX_TREE_WORK_ITEMS;
      assert AllReached(o.snapshots, start, seen) && AllNeeded(o, start, dirs);
    case PathByteLimit =>
      var dirs :| AllFound(o.trees, roots, dirs) && SumOver(dirs, DirBytes(o.trees)) > MAX_TREE_PATH_BYTES_TOTAL;
      assert AllNeeded(o, start, dirs);
    case ObjectLimit =>
      var some :| AllDirs(o.trees, roots, some) && |some| > MAX_TREE_OBJECTS;
      assert AllNeededDirs(o, start, some);
    case _ =>
  }

  lemma MissingTreeCarries(
    o: Objects, start: Id, expand: bool, chunks: ChunkIndex, seen: set<Id>, roots: seq<Id>, id: Id)
    requires forall s :: s in seen <==> Reaches(o.snapshots, start, s)
    requires RootsOf(o.snapshots, seen, roots) && exists path :: Found(o.trees, roots, id, path)
    ensures InClosure(o, start, expand, chunks, id)
  {
    var path :| Found(o.trees, roots, id, path);
    IdIsInRoots(o.trees, roots, expand, chunks, id, path);
    ClosureIsRoots(o, start, expand, chunks, seen, roots, id);
  }

  lemma FullCarries(o: Objects, start: Id, expand: bool, chunks: ChunkIndex, seen: set<Id>, roots: seq<Id>)
    requires forall s :: s in seen <==> Reaches(o.snapshots, start, s)
    requires RootsOf(o.snapshots, seen, roots)
    requires exists some :: AllGathered(o.trees, roots, expand, chunks, seen, some) && |some| > MANIFEST_MAX_ENTRIES
    ensures exists some :: AllInClosure(o, start, expand, chunks, some) && |some| > MANIFEST_MAX_ENTRIES
  {
    var some :| AllGathered(o.trees, roots, expand, chunks, seen, some) && |some| > MANIFEST_MAX_ENTRIES;
    forall h | h in some
      ensures InClosure(o, start, expand, chunks, h)
    {
      ClosureIsRoots(o, start, expand, chunks, seen, roots, h);
    }
    assert AllInClosure(o, start, expand, chunks, some);
  }

  /**
   * The manifest of a snapshot: when it succeeds, exactly the closure of
   * snapshots, tree roots, directories, files, all conflict legs and their
   * chunks, even though a directory is expanded once per path only. Every
   * error is justified by the closure.
   */
  method SnapshotReachability(
    o: Objects, start: Id, safe: seq<string> -> bool, expand: bool, chunks: ChunkIndex)
    returns (r: Result<set<Id>, ReachError>)
    ensures r.Ok? ==> forall h :: h in r.value <==> InClosure(o, start, expand, chunks, h)
    ensures r.Ok? ==> ClosedAt(o, start)
    ensures r.Err? ==> ReachErrorIsReal(o, start, safe, expand, chunks, r.error)
  {
    var error, seen, roots, work := WalkSnapshots(o.snapshots, start);
    if error.Some? {
      SnapshotErrorCarries(o, start, safe, expand, chunks, error.value);
      return Err(error.value);
    }
    var hashes;
    error, hashes := WalkTrees(o.trees, roots, safe, expand, chunks, seen, work);
    if error.Some? {
      TreeErrorCarries(o, start, safe, expand, chunks, seen, roots, error.value);
      return Err(error.value);
    }
    forall h
      ensures h in hashes <==> InClosure(o, start, expand, chunks, h)
    {
      ClosureIsRoots(o, start, expand, chunks, seen, roots, h);
    }
    forall s, path, id | NeedsDir(o, start, s, path, id)
      ensures id in o.trees
    {
      assert Found(o.trees, roots, id, path);
    }
    return Ok(hashes);
  }
}
