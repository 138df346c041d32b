/** Canonical directory objects and the graph of directories they form. */
module Trees {
  import opened Base

  const MAX_TREE_DEPTH: nat := 256
  const MAX_TREE_OBJECTS: nat := 250_000
  const MAX_TREE_OUTPUT_PATHS: nat := 250_000
  const MAX_TREE_WORK_ITEMS: nat := 8 * 250_000
  const MAX_TREE_PATH_BYTES_TOTAL: nat := 64 * 1024 * 1024

  datatype Modes = Modes(base: nat, ours: nat, theirs: nat)

  datatype EntryKind =
    | File
    | Dir
    | Conflict(base: Option<Id>, ours: Option<Id>, theirs: Option<Id>, modes: Modes)

  datatype Entry = Entry(name: string, kind: EntryKind, hash: Id, size: nat, mode: nat)

  datatype Tree = Tree(entries: seq<Entry>)

  type Store = map<Id, Tree>

  /** Directory entries' targets, in order and with repetitions. */
  function DirTargets(entries: seq<Entry>): seq<Id> {
    if entries == [] then [] else
      (if entries[0].kind.Dir? then [entries[0].hash] else []) + DirTargets(entries[1..])
  }

  lemma {:induction false} DirTargetOf(entries: seq<Entry>, e: Entry)
    requires e in entries && e.kind.Dir?
    ensures e.hash in DirTargets(entries)
  {
    if e != entries[0] {
      DirTargetOf(entries[1..], e);
    }
  }

  lemma {:induction false} DirTargetEntry(entries: seq<Entry>, c: Id) returns (e: Entry)
    requires c in DirTargets(entries)
    ensures e in entries && e.kind.Dir? && e.hash == c
  {
    if entries[0].kind.Dir? && entries[0].hash == c {
      e := entries[0];
    } else {
      e := DirTargetEntry(entries[1..], c);
    }
  }

  function Children(t: Tree): seq<Id> {
    DirTargets(t.entries)
  }

  /** The path map of a directory, as a relation: walking the components of
      `path` down from `id` arrives at the file or conflict `e`. */
  ghost predicate Leaf(trees: Store, id: Id, path: seq<string>, e: Entry)
    decreases |path|
  {
    && path != [] && id in trees
    && if |path| == 1 then e in trees[id].entries && e.name == path[0] && !e.kind.Dir?
       else exists d :: LeadsDown(trees[id], d, path[0]) && Leaf(trees, d.hash, path[1..], e)
  }

  predicate LeadsDown(t: Tree, d: Entry, name: string) {
    d in t.entries && d.kind.Dir? && d.name == name
  }

  // ----- cycles

  ghost predicate DirSteps(trees: Store, a: Id, b: Id, n: nat)
    decreases n
  {
    if n == 0 then a == b
    else a in trees && exists c :: c in Children(trees[a]) && DirSteps(trees, c, b, n - 1)
  }

  /** No directory contains itself, at any depth. */
  ghost predicate AcyclicDirs(trees: Store) {
    forall x, n: nat :: n > 0 ==> !DirSteps(trees, x, x, n)
  }

  lemma {:induction false} DirStepsCompose(trees: Store, a: Id, b: Id, c: Id, m: nat, n: nat)
    requires DirSteps(trees, a, b, m) && DirSteps(trees, b, c, n)
    ensures DirSteps(trees, a, c, m + n)
    decreases m
  {
    if m > 0 {
      var x :| x in Children(trees[a]) && DirSteps(trees, x, b, m - 1);
      DirStepsCompose(trees, x, b, c, m - 1, n);
    }
  }

  lemma DirStepsOne(trees: Store, a: Id, b: Id)
    requires a in trees && b in Children(trees[a])
    ensures DirSteps(trees, a, b, 1)
  {
    assert DirSteps(trees, b, b, 0);
  }

  /** Children come strictly before their parents. */
  ghost predicate Ranked(trees: Store, rank: map<Id, nat>) {
    forall p, c :: p in trees && c in Children(trees[p]) ==> p in rank && c in rank && rank[c] < rank[p]
  }

  lemma {:induction false} RankDecreases(trees: Store, rank: map<Id, nat>, a: Id, b: Id, n: nat)
    requires Ranked(trees, rank) && DirSteps(trees, a, b, n) && n > 0
    ensures a in rank && b in rank && rank[b] < rank[a]
    decreases n
  {
    var c :| c in Children(trees[a]) && DirSteps(trees, c, b, n - 1);
    if n > 1 {
      RankDecreases(trees, rank, c, b, n - 1);
    }
  }

  lemma RankedIsAcyclic(trees: Store, rank: map<Id, nat>)
    requires Ranked(trees, rank)
    ensures AcyclicDirs(trees)
  {
    forall x, n: nat | n > 0 && DirSteps(trees, x, x, n)
      ensures false
    {
      RankDecreases(trees, rank, x, x, n);
    }
  }

  /** `trail` walks from directory to subdirectory. */
  ghost predicate IsTrail(trees: Store, trail: seq<Id>) {
    forall i :: 0 <= i < |trail| - 1 ==> trail[i] in trees && trail[i + 1] in Children(trees[trail[i]])
  }

  lemma {:induction false} TrailSteps(trees: Store, trail: seq<Id>, i: nat, j: nat)
    requires IsTrail(trees, trail) && i <= j < |trail|
    ensures DirSteps(trees, trail[i], trail[j], j - i)
    decreases j - i
  {
    if i < j {
      TrailSteps(trees, trail, i + 1, j);
    }
  }

  ghost predicate HasChildIn(t: Tree, ids: set<Id>) {
    exists c :: c in Children(t) && c in ids
  }

  /** A nonempty set of directories that all have a child in the set holds a
      cycle: a long enough trail must meet itself. */
  lemma {:induction false} StuckSetHasCycle(trees: Store, stuck: set<Id>, trail: seq<Id>)
    requires stuck <= trees.Keys && trail != [] && IsTrail(trees, trail)
    requires forall x {:trigger trees[x]} :: x in stuck ==> HasChildIn(trees[x], stuck)
    requires Elements(trail) <= stuck
    ensures !AcyclicDirs(trees)
    decreases |stuck - Elements(trail)|
  {
    var last := trail[|trail| - 1];
    assert last in Elements(trail);
    assert HasChildIn(trees[last], stuck);
    var c :| c in Children(trees[last]) && c in stuck;
    if c in trail {
      ClosedTrailIsCycle(trees, trail, c);
    } else {
      var longer := TrailGrows(trees, trail, c);
      assert stuck - Elements(trail) == (stuck - Elements(longer)) + {c};
      StuckSetHasCycle(trees, stuck, longer);
    }
  }

  lemma ClosedTrailIsCycle(trees: Store, trail: seq<Id>, c: Id)
    requires trail != [] && IsTrail(trees, trail) && c in trail
    requires trail[|trail| - 1] in trees && c in Children(trees[trail[|trail| - 1]])
    ensures !AcyclicDirs(trees)
  {
    var last := trail[|trail| - 1];
    var i :| 0 <= i < |trail| && trail[i] == c;
    TrailSteps(trees, trail, i, |trail| - 1);
    DirStepsOne(trees, last, c);
    DirStepsCompose(trees, c, last, c, |trail| - 1 - i, 1);
  }

  lemma TrailGrows(trees: Store, trail: seq<Id>, c: Id) returns (longer: seq<Id>)
    requires trail != [] && IsTrail(trees, trail)
    requires trail[|trail| - 1] in trees && c in Children(trees[trail[|trail| - 1]])
    ensures longer == trail + [c] && IsTrail(trees, longer) && Elements(longer) == Elements(trail) + {c}
  {
    longer := trail + [c];
    forall i | 0 <= i < |longer| - 1
      ensures longer[i] in trees && longer[i + 1] in Children(trees[longer[i]])
    {
      assert i == |trail| - 1 || trail[i + 1] == longer[i + 1];
    }
  }

  // ----- total size

  ghost function TotalWork(trees: Store, ids: set<Id>): nat
    requires ids <= trees.Keys
  {
    if ids == {} then 0 else
      var x := Pick(ids);
      |trees[x].entries| + 1 + TotalWork(trees, ids - {x})
  }

  lemma {:induction false} TotalWorkRemove(trees: Store, ids: set<Id>, y: Id)
    requires ids <= trees.Keys && y in ids
    ensures TotalWork(trees, ids) == |trees[y].entries| + 1 + TotalWork(trees, ids - {y})
    decreases |ids|
  {
    var x := Pick(ids);
    if x != y {
      TotalWorkRemove(trees, ids - {x}, y);
      TotalWorkRemove(trees, ids - {y}, x);
      assert ids - {x} - {y} == ids - {y} - {x};
    }
  }

  lemma {:induction false} TotalWorkMonotone(trees: Store, part: set<Id>, ids: set<Id>)
    requires part <= ids <= trees.Keys
    ensures TotalWork(trees, part) <= TotalWork(trees, ids)
    decreases |part|
  {
    if part != {} {
      var y := Pick(part);
      TotalWorkRemove(trees, part, y);
      TotalWorkRemove(trees, ids, y);
      TotalWorkMonotone(trees, part - {y}, ids - {y});
    }
  }
}
