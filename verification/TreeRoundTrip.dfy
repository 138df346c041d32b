/** Storing a bundle and reading it back gives the bundle's own flat view. */
module TreeRoundTrip {
  import opened Base
  import opened Trees
  import opened PreparedTree
  import opened TreeReader

  // ----- the flattening is the path map

  lemma {:induction false} OwnMember(entries: seq<Entry>, prefix: seq<string>, item: Item)
    ensures item in Own(entries, prefix) <==> item.entry in entries && item.path == prefix + [item.entry.name]
  {
    if entries != [] {
      OwnMember(entries[1..], prefix, item);
      assert forall e :: e in entries <==> e == entries[0] || e in entries[1..];
    }
  }

  /** Paths below a directory extend the directory's own path. */
  lemma {:induction false} FlatPathsExtend(trees: Store, id: Id, prefix: seq<string>, depth: nat, item: Item)
    requires item in Flat(trees, id, prefix, depth)
    ensures prefix < item.path
    decreases if depth > MAX_TREE_DEPTH then 0 else MAX_TREE_DEPTH + 1 - depth, 1, 0
  {
    var entries := trees[id].entries;
    if item in Own(entries, prefix) {
      OwnMember(entries, prefix, item);
    } else {
      var d := FlatDirsMember(trees, entries, prefix, depth, item);
      FlatPathsExtend(trees, d.hash, prefix + [d.name], depth + 1, item);
    }
  }

  /** An item below some subdirectory comes from one of them. */
  lemma {:induction false} FlatDirsMember(
    trees: Store, entries: seq<Entry>, prefix: seq<string>, depth: nat, item: Item) returns (d: Entry)
    requires depth <= MAX_TREE_DEPTH && item in FlatDirs(trees, entries, prefix, depth)
    ensures d in entries && d.kind.Dir? && item in Flat(trees, d.hash, prefix + [d.name], depth + 1)
  {
    if entries[0].kind.Dir? && item in Flat(trees, entries[0].hash, prefix + [entries[0].name], depth + 1) {
      d := entries[0];
    } else {
      d := FlatDirsMember(trees, entries[1..], prefix, depth, item);
    }
  }

  lemma {:induction false} FlatDirsHolds(
    trees: Store, entries: seq<Entry>, prefix: seq<string>, depth: nat, d: Entry, item: Item)
    requires depth <= MAX_TREE_DEPTH && d in entries && d.kind.Dir?
    requires item in Flat(trees, d.hash, prefix + [d.name], depth + 1)
    ensures item in FlatDirs(trees, entries, prefix, depth)
  {
    if d != entries[0] {
      FlatDirsHolds(trees, entries[1..], prefix, depth, d, item);
    }
  }

  lemma {:induction false} FlatHoldsLeaf(
    trees: Store, id: Id, above: seq<Id>, prefix: seq<string>, path: seq<string>, e: Entry)
    requires Clean(trees, id, above) && Leaf(trees, id, path, e)
    ensures Item(prefix + path, e) in Flat(trees, id, prefix, |above|)
    decreases |path|
  {
    var item := Item(prefix + path, e);
    var entries := trees[id].entries;
    if |path| == 1 {
      assert path == [e.name];
      OwnMember(entries, prefix, item);
    } else {
      var d :| LeadsDown(trees[id], d, path[0]) && Leaf(trees, d.hash, path[1..], e);
      DirTargetOf(entries, d);
      FlatHoldsLeaf(trees, d.hash, [id] + above, prefix + [d.name], path[1..], e);
      assert prefix + [d.name] + path[1..] == prefix + path;
      FlatDirsHolds(trees, entries, prefix, |above|, d, item);
    }
  }

  lemma {:induction false} FlatIsLeaf(
    trees: Store, id: Id, above: seq<Id>, prefix: seq<string>, path: seq<string>, e: Entry)
    requires Clean(trees, id, above) && !e.kind.Dir?
    requires Item(prefix + path, e) in Flat(trees, id, prefix, |above|)
    ensures Leaf(trees, id, path, e)
    decreases |path|
  {
    var item := Item(prefix + path, e);
    var entries := trees[id].entries;
    if item in Own(entries, prefix) {
      OwnMember(entries, prefix, item);
      assert (prefix + path)[|prefix|..] == path;
      assert path == [e.name];
    } else {
      var d := FlatDirsMember(trees, entries, prefix, |above|, item);
      FlatPathsExtend(trees, d.hash, prefix + [d.name], |above| + 1, item);
      assert (prefix + path)[|prefix|] == d.name;
      assert prefix + [d.name] + path[1..] == prefix + path;
      DirTargetOf(entries, d);
      FlatIsLeaf(trees, d.hash, [id] + above, prefix + [d.name], path[1..], e);
      assert LeadsDown(trees[id], d, path[0]);
    }
  }

  lemma UniqueName(trees: Store, id: Id, a: Entry, b: Entry)
    requires Readable(trees, id) && a in trees[id].entries && b in trees[id].entries && a.name == b.name
    ensures a == b
  {
    var i :| 0 <= i < |trees[id].entries| && trees[id].entries[i] == a;
    var k :| 0 <= k < |trees[id].entries| && trees[id].entries[k] == b;
  }

  lemma {:induction false} LeafUnique(trees: Store, id: Id, above: seq<Id>, path: seq<string>, a: Entry, b: Entry)
    requires Clean(trees, id, above) && Leaf(trees, id, path, a) && Leaf(trees, id, path, b)
    ensures a == b
    decreases |path|
  {
    if |path| == 1 {
      UniqueName(trees, id, a, b);
    } else {
      var d :| LeadsDown(trees[id], d, path[0]) && Leaf(trees, d.hash, path[1..], a);
      var c :| LeadsDown(trees[id], c, path[0]) && Leaf(trees, c.hash, path[1..], b);
      UniqueName(trees, id, d, c);
      DirTargetOf(trees[id].entries, d);
      LeafUnique(trees, d.hash, [id] + above, path[1..], a, b);
    }
  }

  lemma {:induction false} FilesOfMember(items: seq<Item>, path: seq<string>) returns (item: Item)
    requires path in FilesOf(items)
    ensures item in items && item.path == path && !item.entry.kind.Dir? && FilesOf(items)[path] == FileOf(item)
  {
    var last := items[|items| - 1];
    if last.path == path && !last.entry.kind.Dir? {
      item := last;
    } else {
      item := FilesOfMember(items[..|items| - 1], path);
    }
  }

  lemma {:induction false} FilesOfHolds(items: seq<Item>, item: Item)
    requires item in items && !item.entry.kind.Dir?
    ensures item.path in FilesOf(items)
  {
    if item != items[|items| - 1] {
      FilesOfHolds(items[..|items| - 1], item);
    }
  }

  lemma {:induction false} ConflictsOfMember(items: seq<Item>, edit: ConcurrentEdit)
    ensures edit in ConflictsOf(items) <==>
              exists item :: item in items && item.entry.kind.Conflict? && edit == EditOf(item)
  {
    if items != [] {
      var last, before := items[|items| - 1], items[..|items| - 1];
      ConflictsOfMember(before, edit);
      assert forall item :: item in items <==> item == last || item in before;
    }
  }

  /** The file or conflict `e` as it is shown at `path`. */
  ghost predicate ShowsFile(f: FileState, path: seq<string>, e: Entry) {
    f.path == path && f.hash == e.hash && f.size == e.size && f.mode == e.mode
  }

  /** The version the working tree shows: theirs, else ours, else the base. */
  predicate IsVisible(k: EntryKind, h: Id)
    requires k.Conflict?
  {
    || k.theirs == Some(h)
    || (k.theirs == None && k.ours == Some(h))
    || (k.theirs == None && k.ours == None && k.base == Some(h))
  }

  /** One version of a conflict; only the size of the visible one is known. */
  ghost predicate ShowsLeg(leg: Option<FileState>, path: seq<string>, e: Entry, hash: Option<Id>, mode: nat)
    requires e.kind.Conflict?
  {
    && (leg.Some? <==> hash.Some?)
    && (leg.Some? ==>
          && leg.value.path == path && leg.value.hash == hash.value && leg.value.mode == mode
          && leg.value.size == if IsVisible(e.kind, hash.value) then e.size else 0)
  }

  ghost predicate ShowsConflict(edit: ConcurrentEdit, path: seq<string>, e: Entry)
    requires e.kind.Conflict?
  {
    && edit.path == path
    && ShowsLeg(edit.base, path, e, e.kind.base, e.kind.modes.base)
    && ShowsLeg(edit.ours, path, e, e.kind.ours, e.kind.modes.ours)
    && ShowsLeg(edit.theirs, path, e, e.kind.theirs, e.kind.modes.theirs)
  }

  lemma EditShowsConflict(edit: ConcurrentEdit, item: Item)
    requires item.entry.kind.Conflict?
    ensures edit == EditOf(item) <==> ShowsConflict(edit, item.path, item.entry)
  {
  }

  /** `loaded` is exactly the path map of `root`, each conflict once. */
  ghost predicate IsFlatView(trees: Store, root: Id, loaded: LoadedTree) {
    && (forall path, e :: Leaf(trees, root, path, e) ==>
          path in loaded.files && ShowsFile(loaded.files[path], path, e))
    && (forall path :: path in loaded.files ==> exists e :: Leaf(trees, root, path, e))
    && (forall edit :: edit in loaded.conflicts <==> IsEdit(trees, root, edit))
    && UniqueEdits(loaded.conflicts)
  }

  ghost predicate IsEdit(trees: Store, root: Id, edit: ConcurrentEdit) {
    exists path, e :: Leaf(trees, root, path, e) && e.kind.Conflict? && ShowsConflict(edit, path, e)
  }

  ghost predicate UniqueEdits(edits: seq<ConcurrentEdit>) {
    forall i, k :: 0 <= i < k < |edits| ==> edits[i].path != edits[k].path
  }

  lemma {:induction false} EditsAreUnique(items: seq<Item>)
    requires UniquePaths(items)
    ensures UniqueEdits(ConflictsOf(items))
  {
    if items != [] {
      var n := |items| - 1;
      var before := items[..n];
      EditsAreUnique(before);
      forall edit | edit in ConflictsOf(before)
        ensures edit.path != items[n].path
      {
        ConflictsOfMember(before, edit);
      }
    }
  }

  lemma ItemIsLeaf(trees: Store, root: Id, item: Item)
    requires Clean(trees, root, []) && !item.entry.kind.Dir?
    ensures item in Flat(trees, root, [], 0) <==> Leaf(trees, root, item.path, item.entry)
  {
    assert [] + item.path == item.path;
    if item in Flat(trees, root, [], 0) {
      FlatIsLeaf(trees, root, [], [], item.path, item.entry);
    }
    if Leaf(trees, root, item.path, item.entry) {
      FlatHoldsLeaf(trees, root, [], [], item.path, item.entry);
    }
  }

  lemma FilesAreFlatView(trees: Store, root: Id, path: seq<string>, e: Entry)
    requires Clean(trees, root, [])
    ensures var files := FilesOf(Flat(trees, root, [], 0));
            && (Leaf(trees, root, path, e) ==> path in files && ShowsFile(files[path], path, e))
            && (path in files ==> exists e' :: Leaf(trees, root, path, e'))
  {
    var items := Flat(trees, root, [], 0);
    if Leaf(trees, root, path, e) {
      LeafIsNotDir(trees, root, path, e);
      ItemIsLeaf(trees, root, Item(path, e));
      FilesOfHolds(items, Item(path, e));
    }
    if path in FilesOf(items) {
      var item := FilesOfMember(items, path);
      ItemIsLeaf(trees, root, item);
      if Leaf(trees, root, path, e) {
        LeafUnique(trees, root, [], path, e, item.entry);
      }
    }
  }

  lemma {:induction false} LeafIsNotDir(trees: Store, id: Id, path: seq<string>, e: Entry)
    requires Leaf(trees, id, path, e)
    ensures !e.kind.Dir?
    decreases |path|
  {
    if |path| > 1 {
      var d :| LeadsDown(trees[id], d, path[0]) && Leaf(trees, d.hash, path[1..], e);
      LeafIsNotDir(trees, d.hash, path[1..], e);
    }
  }

  lemma ConflictsAreFlatView(trees: Store, root: Id, edit: ConcurrentEdit)
    requires Clean(trees, root, [])
    ensures edit in ConflictsOf(Flat(trees, root, [], 0)) <==> IsEdit(trees, root, edit)
  {
    var items := Flat(trees, root, [], 0);
    ConflictsOfMember(items, edit);
    if edit in ConflictsOf(items) {
      var item :| item in items && item.entry.kind.Conflict? && edit == EditOf(item);
      ItemIsLeaf(trees, root, item);
      EditShowsConflict(edit, item);
    }
    if IsEdit(trees, root, edit) {
      var path, e :| Leaf(trees, root, path, e) && e.kind.Conflict? && ShowsConflict(edit, path, e);
      EditShowsConflict(edit, Item(path, e));
      ItemIsLeaf(trees, root, Item(path, e));
    }
  }

  /** A successful read is exactly the path map: every file and conflict at
      its one path, and nothing else. */
  lemma ReadIsFlatView(trees: Store, root: Id)
    requires Clean(trees, root, [])
    ensures IsFlatView(trees, root,
              LoadedTree(FilesOf(Flat(trees, root, [], 0)), ConflictsOf(Flat(trees, root, [], 0))))
  {
    forall path, e
      ensures var files := FilesOf(Flat(trees, root, [], 0));
              && (Leaf(trees, root, path, e) ==> path in files && ShowsFile(files[path], path, e))
              && (path in files ==> exists e' :: Leaf(trees, root, path, e'))
    {
      FilesAreFlatView(trees, root, path, e);
    }
    forall path | path in FilesOf(Flat(trees, root, [], 0))
      ensures exists e :: Leaf(trees, root, path, e)
    {
      FilesAreFlatView(trees, root, path, Entry("", File, 0, 0, 0));
    }
    forall edit
      ensures edit in ConflictsOf(Flat(trees, root, [], 0)) <==> IsEdit(trees, root, edit)
    {
      ConflictsAreFlatView(trees, root, edit);
    }
    FlatUnique(trees, root, [], []);
    EditsAreUnique(Flat(trees, root, [], 0));
  }

  // ----- storing a bundle

  /** Growing a store around a closed set of trees keeps its path maps. */
  lemma {:induction false} LeafInLargerStore(small: Store, large: Store, id: Id, path: seq<string>, e: Entry)
    requires ChildrenPresent(small) && id in small
    requires forall x :: x in small ==> x in large && large[x] == small[x]
    ensures Leaf(large, id, path, e) <==> Leaf(small, id, path, e)
    decreases |path|
  {
    if |path| > 1 {
      forall d | LeadsDown(small[id], d, path[0])
        ensures Leaf(large, d.hash, path[1..], e) <==> Leaf(small, d.hash, path[1..], e)
      {
        DirTargetOf(small[id].entries, d);
        LeafInLargerStore(small, large, d.hash, path[1..], e);
      }
    }
  }

  /** Climbing to a root inside a closed set of trees never leaves it. */
  lemma {:induction false} ClimbsInside(small: Store, large: Store, root: Id, up: seq<Id>)
    requires ChildrenPresent(small) && root in small && Climbs(large, up, root)
    requires forall x :: x in small ==> x in large && large[x] == small[x]
    ensures up[0] in small && Climbs(small, up, root)
  {
    if |up| > 1 {
      ClimbsInside(small, large, root, up[1..]);
    }
  }

  lemma {:induction false} ClimbIsSteps(trees: Store, root: Id, up: seq<Id>, k: nat)
    requires Climbs(trees, up, root) && k < |up|
    ensures DirSteps(trees, up[k], up[0], k)
    decreases k
  {
    if k > 0 {
      ClimbIsSteps(trees, root, up[1..], k - 1);
      DirStepsOne(trees, up[1], up[0]);
      DirStepsCompose(trees, up[k], up[1], up[0], k - 1, 1);
    }
  }

  /** A stored bundle never shows a directory twice on one path. */
  lemma StoredNeverRepeats(small: Store, large: Store, root: Id, id: Id)
    requires ChildrenPresent(small) && AcyclicDirs(small) && root in small
    requires forall x :: x in small ==> x in large && large[x] == small[x]
    ensures !Repeats(large, root, id)
  {
    if Repeats(large, root, id) {
      var up, i, k :| Climbs(large, up, root) && 0 <= i < k < |up| && up[i] == id && up[k] == id;
      ClimbsInside(small, large, root, up);
      ClimbsSuffix(small, root, up, i);
      assert up[i..][0] == id && up[i..][k - i] == id;
      ClimbIsSteps(small, root, up[i..], k - i);
    }
  }

  // ----- the reader's limits, over the bundle itself

  /** Two unfoldings that differ only in the ids of directories. */
  ghost predicate SameShape(a: seq<Item>, b: seq<Item>) {
    && |a| == |b|
    && (forall i :: 0 <= i < |a| ==> a[i].path == b[i].path && (a[i].entry.kind.Dir? <==> b[i].entry.kind.Dir?))
  }

  lemma SameShapeConcat(a: seq<Item>, b: seq<Item>, c: seq<Item>, d: seq<Item>)
    requires SameShape(a, b) && SameShape(c, d)
    ensures SameShape(a + c, b + d)
  {
  }

  lemma {:induction false} SameShapeCounts(a: seq<Item>, b: seq<Item>)
    requires SameShape(a, b)
    ensures BytesOf(a) == BytesOf(b) && DirCount(a) == DirCount(b) && WorkOf(a) == WorkOf(b) && LeafCount(a) == LeafCount(b)
    decreases |a|
  {
    if a != [] {
      var n := |a| - 1;
      assert a[..n + 1] == a && b[..n + 1] == b;
      SameShapeCounts(a[..n], b[..n]);
    }
  }

  lemma {:induction false} OwnSameShape(a: seq<Entry>, b: seq<Entry>, prefix: seq<string>)
    requires |a| == |b|
    requires forall i :: 0 <= i < |a| ==> a[i].name == b[i].name && (a[i].kind.Dir? <==> b[i].kind.Dir?)
    ensures SameShape(Own(a, prefix), Own(b, prefix))
  {
    if a != [] {
      OwnSameShape(a[1..], b[1..], prefix);
      SameShapeConcat(Own(a[1..], prefix), Own(b[1..], prefix),
                      [Item(prefix + [a[0].name], a[0])], [Item(prefix + [b[0].name], b[0])]);
    }
  }

  /** Rewriting ids keeps the unfolding's shape. */
  lemma {:induction false} FlatSameShape(
    bundle: Bundle, ids: map<Id, Id>, store: Store, root: Id, l: Id, prefix: seq<string>, depth: nat)
    requires Rewritten(bundle, ids, store, root) && l in ids
    ensures SameShape(Flat(store, ids[l], prefix, depth), Flat(bundle.trees, l, prefix, depth))
    decreases if depth > MAX_TREE_DEPTH then 0 else MAX_TREE_DEPTH + 1 - depth, 1, 0
  {
    assert Finished(bundle.trees, ids, store, l);
    if depth <= MAX_TREE_DEPTH {
      var a, b := store[ids[l]].entries, bundle.trees[l].entries;
      OwnSameShape(a, b, prefix);
      FlatDirsSameShape(bundle, ids, store, root, l, prefix, depth, 0);
      assert a[0..] == a && b[0..] == b;
      SameShapeConcat(Own(a, prefix), Own(b, prefix),
                      FlatDirs(store, a, prefix, depth), FlatDirs(bundle.trees, b, prefix, depth));
    }
  }

  lemma {:induction false} FlatDirsSameShape(
    bundle: Bundle, ids: map<Id, Id>, store: Store, root: Id, l: Id, prefix: seq<string>, depth: nat, i: nat)
    requires Rewritten(bundle, ids, store, root) && l in ids && Finished(bundle.trees, ids, store, l)
    requires depth <= MAX_TREE_DEPTH && i <= |bundle.trees[l].entries|
    ensures SameShape(FlatDirs(store, store[ids[l]].entries[i..], prefix, depth),
                      FlatDirs(bundle.trees, bundle.trees[l].entries[i..], prefix, depth))
    decreases MAX_TREE_DEPTH + 1 - depth, 0, |bundle.trees[l].entries| - i
  {
    var a, b := store[ids[l]].entries, bundle.trees[l].entries;
    if i < |b| {
      assert a[i..][1..] == a[i + 1..] && b[i..][1..] == b[i + 1..];
      assert a[i] == RewriteEntry(b[i], ids);
      FlatDirsSameShape(bundle, ids, store, root, l, prefix, depth, i + 1);
      if b[i].kind.Dir? {
        assert b[i] in b;
        DirTargetOf(b, b[i]);
        FlatSameShape(bundle, ids, store, root, b[i].hash, prefix + [b[i].name], depth + 1);
        SameShapeConcat(Flat(store, a[i].hash, prefix + [a[i].name], depth + 1),
                        Flat(bundle.trees, b[i].hash, prefix + [b[i].name], depth + 1),
                        FlatDirs(store, a[i + 1..], prefix, depth), FlatDirs(bundle.trees, b[i + 1..], prefix, depth));
      } else {
        SameShapeConcat([], [], FlatDirs(store, a[i + 1..], prefix, depth), FlatDirs(bundle.trees, b[i + 1..], prefix, depth));
      }
    }
  }

  /** Children of a rewritten directory are the rewritten children. */
  lemma ChildLifts(bundle: Bundle, ids: map<Id, Id>, store: Store, root: Id, l: Id, x: Id) returns (c: Id)
    requires Rewritten(bundle, ids, store, root) && l in ids && IsChild(store, ids[l], x)
    ensures c in ids && ids[c] == x && IsChild(bundle.trees, l, c)
  {
    assert Finished(bundle.trees, ids, store, l);
    var d := DirTargetEntry(store[ids[l]].entries, x);
    var i :| 0 <= i < |bundle.trees[l].entries| && store[ids[l]].entries[i] == d;
    c := bundle.trees[l].entries[i].hash;
    assert bundle.trees[l].entries[i] in bundle.trees[l].entries;
    DirTargetOf(bundle.trees[l].entries, bundle.trees[l].entries[i]);
  }

  lemma ChildDrops(bundle: Bundle, ids: map<Id, Id>, store: Store, root: Id, l: Id, c: Id)
    requires Rewritten(bundle, ids, store, root) && l in ids && IsChild(bundle.trees, l, c)
    ensures c in ids && IsChild(store, ids[l], ids[c])
  {
    assert Finished(bundle.trees, ids, store, l);
    var d := DirTargetEntry(bundle.trees[l].entries, c);
    var i :| 0 <= i < |bundle.trees[l].entries| && bundle.trees[l].entries[i] == d;
    assert store[ids[l]].entries[i] == RewriteEntry(d, ids);
    assert store[ids[l]].entries[i] in store[ids[l]].entries;
    DirTargetOf(store[ids[l]].entries, store[ids[l]].entries[i]);
  }

  ghost predicate Maps(ids: map<Id, Id>, low: seq<Id>, up: seq<Id>) {
    |low| == |up| && forall i :: 0 <= i < |low| ==> low[i] in ids && ids[low[i]] == up[i]
  }

  /** A climb through the store is a climb through the bundle. */
  lemma {:induction false} ClimbLifts(bundle: Bundle, ids: map<Id, Id>, store: Store, root: Id, up: seq<Id>)
    returns (low: seq<Id>)
    requires Rewritten(bundle, ids, store, root) && Climbs(store, up, root)
    ensures Climbs(bundle.trees, low, bundle.root) && Maps(ids, low, up)
    decreases |up|
  {
    if |up| == 1 {
      low := [bundle.root];
    } else {
      var rest := ClimbLifts(bundle, ids, store, root, up[1..]);
      var c := ChildLifts(bundle, ids, store, root, rest[0], up[0]);
      low := [c] + rest;
      assert low[1..] == rest;
    }
  }

  lemma {:induction false} ClimbDrops(bundle: Bundle, ids: map<Id, Id>, store: Store, root: Id, low: seq<Id>)
    returns (up: seq<Id>)
    requires Rewritten(bundle, ids, store, root) && Climbs(bundle.trees, low, bundle.root)
    ensures Climbs(store, up, root) && Maps(ids, low, up)
    decreases |low|
  {
    if |low| == 1 {
      up := [root];
    } else {
      var rest := ClimbDrops(bundle, ids, store, root, low[1..]);
      ChildDrops(bundle, ids, store, root, low[1], low[0]);
      up := [ids[low[0]]] + rest;
      assert up[1..] == rest;
    }
  }

  lemma SameDepth(bundle: Bundle, ids: map<Id, Id>, store: Store, root: Id)
    requires Rewritten(bundle, ids, store, root)
    ensures DeepBelow(store, root) <==> DeepBelow(bundle.trees, bundle.root)
  {
    if DeepBelow(store, root) {
      var up :| Climbs(store, up, root) && |up| > MAX_TREE_DEPTH + 1;
      var low := ClimbLifts(bundle, ids, store, root, up);
      assert |low| > MAX_TREE_DEPTH + 1;
    }
    if DeepBelow(bundle.trees, bundle.root) {
      var low :| Climbs(bundle.trees, low, bundle.root) && |low| > MAX_TREE_DEPTH + 1;
      var up := ClimbDrops(bundle, ids, store, root, low);
      assert |up| > MAX_TREE_DEPTH + 1;
    }
  }

  lemma BelowIsRewritten(bundle: Bundle, ids: map<Id, Id>, store: Store, root: Id, x: Id) returns (l: Id)
    requires Rewritten(bundle, ids, store, root) && Below(store, root, x)
    ensures l in ids && ids[l] == x
  {
    var up :| Climbs(store, up, root) && up[0] == x;
    var low := ClimbLifts(bundle, ids, store, root, up);
    l := low[0];
  }

  lemma {:induction false} ImageIsSmaller<K, V>(ids: map<K, V>, keys: set<K>, image: set<V>)
    requires keys <= ids.Keys && forall x :: x in image ==> exists l :: l in keys && ids[l] == x
    ensures |image| <= |keys|
    decreases |keys|
  {
    if keys == {} {
      NoneInImage(image);
    } else {
      var k := Pick(keys);
      var fewer := image - {ids[k]};
      forall x | x in fewer
        ensures exists l :: l in keys - {k} && ids[l] == x
      {
        var l :| l in keys && ids[l] == x;
        assert l in keys - {k};
      }
      ImageIsSmaller(ids, keys - {k}, fewer);
      SubsetIsSmaller(image, fewer + {ids[k]});
    }
  }

  lemma NoneInImage<T>(s: set<T>)
    requires forall x :: x !in s
    ensures |s| == 0
  {
    assert s == {};
  }

  lemma NotManyBelow(bundle: Bundle, ids: map<Id, Id>, store: Store, root: Id)
    requires Rewritten(bundle, ids, store, root) && |bundle.trees| <= MAX_TREE_OBJECTS
    ensures !ManyBelow(store, root)
  {
    forall s: set<Id> | forall x :: x in s ==> Below(store, root, x)
      ensures |s| <= MAX_TREE_OBJECTS
    {
      forall x | x in s
        ensures exists l :: l in ids.Keys && ids[l] == x
      {
        var l := BelowIsRewritten(bundle, ids, store, root, x);
        assert l in ids.Keys;
      }
      ImageIsSmaller(ids, ids.Keys, s);
      assert |ids.Keys| == |bundle.trees.Keys| == |bundle.trees|;
    }
  }

  /** Trees that pass validation have distinct sibling names. */
  ghost predicate ChecksNames(valid: Tree -> bool) {
    forall t :: valid(t) ==>
      forall i, k :: 0 <= i < k < |t.entries| ==> t.entries[i].name != t.entries[k].name
  }

  lemma StoredIsReadable(bundle: Bundle, ids: map<Id, Id>, store: Store, root: Id, valid: Tree -> bool, x: Id)
    requires Rewritten(bundle, ids, store, root) && ChecksNames(valid) && Below(store, root, x)
    requires forall id :: id in bundle.trees ==> valid(bundle.trees[id])
    ensures Readable(store, x)
  {
    var l := BelowIsRewritten(bundle, ids, store, root, x);
    assert Finished(bundle.trees, ids, store, l) && valid(bundle.trees[l]);
    var a, b := store[x].entries, bundle.trees[l].entries;
    assert forall i :: 0 <= i < |a| ==> a[i].name == b[i].name;
  }

  // ----- in a clean tree every path occurs once

  ghost predicate UniquePaths(items: seq<Item>) {
    forall i, j :: 0 <= i < j < |items| ==> items[i].path != items[j].path
  }

  ghost predicate Apart(a: seq<Item>, b: seq<Item>) {
    forall x, y :: x in a && y in b ==> x.path != y.path
  }

  lemma UniqueConcat(a: seq<Item>, b: seq<Item>)
    requires UniquePaths(a) && UniquePaths(b) && Apart(a, b)
    ensures UniquePaths(a + b)
  {
    forall i, j | 0 <= i < j < |a + b|
      ensures (a + b)[i].path != (a + b)[j].path
    {
      if i < |a| <= j {
        assert a[i] in a && b[j - |a|] in b;
      }
    }
  }

  ghost predicate UniqueNames(entries: seq<Entry>) {
    forall i, k :: 0 <= i < k < |entries| ==> entries[i].name != entries[k].name
  }

  lemma {:induction false} OwnUnique(entries: seq<Entry>, prefix: seq<string>)
    requires UniqueNames(entries)
    ensures UniquePaths(Own(entries, prefix))
  {
    if entries != [] {
      OwnUnique(entries[1..], prefix);
      var first := [Item(prefix + [entries[0].name], entries[0])];
      forall x, y | x in Own(entries[1..], prefix) && y in first
        ensures x.path != y.path
      {
        OwnMember(entries[1..], prefix, x);
        var i :| 0 <= i < |entries[1..]| && entries[1..][i] == x.entry;
        assert entries[i + 1] == x.entry;
        assert x.path[|prefix|] != y.path[|prefix|];
      }
      UniqueConcat(Own(entries[1..], prefix), first);
    }
  }

  lemma {:induction false} FlatUnique(trees: Store, id: Id, above: seq<Id>, prefix: seq<string>)
    requires Clean(trees, id, above)
    ensures UniquePaths(Flat(trees, id, prefix, |above|))
    decreases if |above| > MAX_TREE_DEPTH then 0 else MAX_TREE_DEPTH + 1 - |above|, 1, 0
  {
    var entries := trees[id].entries;
    OwnUnique(entries, prefix);
    FlatDirsUnique(trees, id, above, prefix, 0);
    assert entries[0..] == entries;
    forall x, y | x in Own(entries, prefix) && y in FlatDirs(trees, entries, prefix, |above|)
      ensures x.path != y.path
    {
      OwnMember(entries, prefix, x);
      var d := FlatDirsMember(trees, entries, prefix, |above|, y);
      FlatPathsExtend(trees, d.hash, prefix + [d.name], |above| + 1, y);
    }
    UniqueConcat(Own(entries, prefix), FlatDirs(trees, entries, prefix, |above|));
  }

  lemma {:induction false} FlatDirsUnique(trees: Store, id: Id, above: seq<Id>, prefix: seq<string>, i: nat)
    requires Clean(trees, id, above) && i <= |trees[id].entries|
    ensures UniquePaths(FlatDirs(trees, trees[id].entries[i..], prefix, |above|))
    decreases MAX_TREE_DEPTH + 1 - |above|, 0, |trees[id].entries| - i
  {
    var entries := trees[id].entries;
    if i < |entries| {
      var e, rest := entries[i], entries[i + 1..];
      assert entries[i..][1..] == rest && entries[i..][0] == e;
      FlatDirsUnique(trees, id, above, prefix, i + 1);
      if e.kind.Dir? {
        assert e in entries;
        DirTargetOf(entries, e);
        FlatUnique(trees, e.hash, [id] + above, prefix + [e.name]);
        SubdirsApart(trees, id, above, prefix, i);
        UniqueConcat(Flat(trees, e.hash, prefix + [e.name], |above| + 1), FlatDirs(trees, rest, prefix, |above|));
      } else {
        assert [] + FlatDirs(trees, rest, prefix, |above|) == FlatDirs(trees, rest, prefix, |above|);
      }
    }
  }

  /** Different subdirectories contribute different paths. */
  lemma SubdirsApart(trees: Store, id: Id, above: seq<Id>, prefix: seq<string>, i: nat)
    requires Clean(trees, id, above) && i < |trees[id].entries|
    ensures var e := trees[id].entries[i];
            Apart(Flat(trees, e.hash, prefix + [e.name], |above| + 1),
                  FlatDirs(trees, trees[id].entries[i + 1..], prefix, |above|))
  {
    var entries := trees[id].entries;
    var e, rest := entries[i], entries[i + 1..];
    forall x, y | x in Flat(trees, e.hash, prefix + [e.name], |above| + 1) && y in FlatDirs(trees, rest, prefix, |above|)
      ensures x.path != y.path
    {
      var d := FlatDirsMember(trees, rest, prefix, |above|, y);
      FlatPathsExtend(trees, e.hash, prefix + [e.name], |above| + 1, x);
      FlatPathsExtend(trees, d.hash, prefix + [d.name], |above| + 1, y);
      var k :| 0 <= k < |rest| && rest[k] == d;
      assert entries[i + 1 + k] == d;
      assert x.path[|prefix|] == e.name && y.path[|prefix|] == d.name;
    }
  }

  lemma {:induction false} FilesAreLeaves(items: seq<Item>)
    requires UniquePaths(items)
    ensures |FilesOf(items)| == LeafCount(items)
  {
    if items != [] {
      var before, last := items[..|items| - 1], items[|items| - 1];
      FilesAreLeaves(before);
      if !last.entry.kind.Dir? {
        if last.path in FilesOf(before) {
          var item := FilesOfMember(before, last.path);
        }
        KeysOfUpdate(FilesOf(before), last.path, FileOf(last));
      }
    }
  }

  // ----- storing and reading back

  ghost predicate PathsOk(items: seq<Item>, safe: seq<string> -> bool) {
    forall i :: i in items ==> safe(i.path) && |i.path| <= MAX_TREE_DEPTH
  }

  /** The reader's limits, stated over the bundle: its unfolding is not too
      deep, too long or too large, and all its paths are safe. */
  ghost predicate FitsReader(bundle: Bundle, safe: seq<string> -> bool) {
    var all := Flat(bundle.trees, bundle.root, [], 0);
    && !DeepBelow(bundle.trees, bundle.root)
    && WorkOf(all) <= MAX_TREE_WORK_ITEMS && BytesOf(all) <= MAX_TREE_PATH_BYTES_TOTAL
    && LeafCount(all) <= MAX_TREE_OUTPUT_PATHS
    && PathsOk(all, safe)
  }

  lemma PathsCarryOver(a: seq<Item>, b: seq<Item>, safe: seq<string> -> bool)
    requires SameShape(a, b) && PathsOk(a, safe)
    ensures PathsOk(b, safe)
  {
    forall i | i in b
      ensures safe(i.path) && |i.path| <= MAX_TREE_DEPTH
    {
      var k :| 0 <= k < |b| && b[k] == i;
      assert a[k] in a;
    }
  }

  lemma NotDeepWhenClean(trees: Store, root: Id)
    requires Clean(trees, root, [])
    ensures !DeepBelow(trees, root)
  {
    forall up | Climbs(trees, up, root)
      ensures |up| <= MAX_TREE_DEPTH + 1
    {
      CleanAlongPath(trees, root, up);
    }
  }

  /** What was read fits. */
  lemma ReadFits(bundle: Bundle, ids: map<Id, Id>, store: Store, root: Id, safe: seq<string> -> bool)
    requires Rewritten(bundle, ids, store, root) && Clean(store, root, [])
    requires Within(Flat(store, root, [], 0), safe) && WorkOf(Flat(store, root, [], 0)) <= MAX_TREE_WORK_ITEMS
    ensures FitsReader(bundle, safe)
  {
    var a, b := Flat(store, root, [], 0), Flat(bundle.trees, bundle.root, [], 0);
    FlatSameShape(bundle, ids, store, root, bundle.root, [], 0);
    SameShapeCounts(a, b);
    PathsCarryOver(a, b, safe);
    NotDeepWhenClean(store, root);
    SameDepth(bundle, ids, store, root);
    FlatUnique(store, root, [], []);
    FilesAreLeaves(a);
  }

  lemma JustifiedMeansTooLarge(a: seq<Item>, b: seq<Item>, safe: seq<string> -> bool, error: LoadError)
    requires SameShape(a, b) && Justified(error, safe, a)
    ensures || !PathsOk(b, safe) || BytesOf(b) > MAX_TREE_PATH_BYTES_TOTAL
            || LeafCount(b) > MAX_TREE_OUTPUT_PATHS || WorkOf(b) > MAX_TREE_WORK_ITEMS
  {
    SameShapeCounts(a, b);
    if PathsOk(b, safe) {
      PathsCarryOver(b, a, safe);
    }
  }

  /** What cannot be read does not fit. */
  lemma UnreadDoesNotFit(
    bundle: Bundle, ids: map<Id, Id>, store: Store, root: Id, valid: Tree -> bool, safe: seq<string> -> bool,
    error: LoadError)
    requires Rewritten(bundle, ids, store, root) && Preparable(bundle, valid) && ChecksNames(valid)
    requires ErrorIsReal(store, root, safe, error) && forall id :: !Repeats(store, root, id)
    ensures !FitsReader(bundle, safe) && !error.Cycle? && !error.Unreadable? && !error.TooManyObjects?
  {
    match error
    case Cycle(id) =>
    case Unreadable(id) => StoredIsReadable(bundle, ids, store, root, valid, id);
    case TooDeep => SameDepth(bundle, ids, store, root);
    case TooManyObjects => NotManyBelow(bundle, ids, store, root);
    case _ =>
      FlatSameShape(bundle, ids, store, root, bundle.root, [], 0);
      JustifiedMeansTooLarge(Flat(store, root, [], 0), Flat(bundle.trees, bundle.root, [], 0), safe, error);
  }

  /** Uploads every prepared tree under its own hash. */
  method PutBundle(store0: Store, bundle: Bundle, valid: Tree -> bool, seal: Tree -> Id)
    returns (root: Result<Id, PrepareError>, store: Store, ghost ids: map<Id, Id>)
    requires Injective(seal)
    ensures root.Ok? <==> Preparable(bundle, valid)
    ensures root.Err? ==> store == store0
    ensures root.Ok? ==> forall path, e :: Leaf(store, root.value, path, e) <==> Leaf(bundle.trees, bundle.root, path, e)
    ensures root.Ok? ==> forall id :: !Repeats(store, root.value, id)
    ensures root.Ok? ==> Rewritten(bundle, ids, store, root.value)
  {
    store, ids := store0, map[];
    var prepared := Prepare(bundle, valid, seal);
    if prepared.Err? {
      return Err(prepared.error), store, ids;
    }
    var trees := prepared.value.trees;
    store := PutAll(store, trees, seal);
    root := Ok(prepared.value.root);
    ids :| Rewritten(bundle, ids, trees, root.value);
    StillRewritten(bundle, ids, trees, store, root.value);
    forall path, e
      ensures Leaf(store, root.value, path, e) <==> Leaf(bundle.trees, bundle.root, path, e)
    {
      LeafInLargerStore(trees, store, root.value, path, e);
    }
    forall id
      ensures !Repeats(store, root.value, id)
    {
      StoredNeverRepeats(trees, store, root.value, id);
    }
  }

  method PutAll(store0: Store, trees: Store, seal: Tree -> Id) returns (store: Store)
    requires Injective(seal) && forall x :: x in trees ==> seal(trees[x]) == x
    ensures forall x :: x in trees ==> x in store && store[x] == trees[x]
  {
    store := store0;
    var todo := trees.Keys;
    while todo != {}
      invariant todo <= trees.Keys
      invariant forall x :: x in trees && x !in todo ==> x in store && store[x] == trees[x]
      decreases todo
    {
      var x := TakeAny(todo);
      store := store[seal(trees[x]) := trees[x]];
      todo := todo - {x};
    }
  }

  lemma StillRewritten(bundle: Bundle, ids: map<Id, Id>, small: Store, large: Store, root: Id)
    requires Rewritten(bundle, ids, small, root)
    requires forall x :: x in small ==> x in large && large[x] == small[x]
    ensures Rewritten(bundle, ids, large, root)
  {
    forall l | l in ids
      ensures Finished(bundle.trees, ids, large, l)
    {
      assert Finished(bundle.trees, ids, small, l);
      var x := ids[l];
      assert x in small && x in large && large[x] == small[x];
    }
  }

  /**
   * Storing a bundle succeeds exactly when it can be prepared, reading it
   * back exactly when it also fits the reader's limits, and what is read is
   * the bundle's own flat view.
   */
  method StoreAndReadBack(
    store0: Store, bundle: Bundle, valid: Tree -> bool, seal: Tree -> Id, safe: seq<string> -> bool)
    returns (root: Result<Id, PrepareError>, loaded: Result<LoadedTree, LoadError>)
    requires Injective(seal) && ChecksNames(valid)
    ensures root.Ok? <==> Preparable(bundle, valid)
    ensures loaded.Ok? <==> Preparable(bundle, valid) && FitsReader(bundle, safe)
    ensures loaded.Ok? ==> IsFlatView(bundle.trees, bundle.root, loaded.value)
    ensures root.Ok? && loaded.Err? ==>
              !loaded.error.Cycle? && !loaded.error.Unreadable? && !loaded.error.TooManyObjects?
  {
    var store;
    ghost var ids;
    root, store, ids := PutBundle(store0, bundle, valid, seal);
    if root.Err? {
      return root, Err(Unreadable(bundle.root));
    }
    loaded := GetTreeState(store, root.value, safe);
    if loaded.Ok? {
      ReadFits(bundle, ids, store, root.value, safe);
      SameFlatView(store, root.value, bundle);
    } else {
      UnreadDoesNotFit(bundle, ids, store, root.value, valid, safe, loaded.error);
    }
  }

  lemma SameFlatView(store: Store, root: Id, bundle: Bundle)
    requires Clean(store, root, [])
    requires forall path, e :: Leaf(store, root, path, e) <==> Leaf(bundle.trees, bundle.root, path, e)
    ensures IsFlatView(bundle.trees, bundle.root,
              LoadedTree(FilesOf(Flat(store, root, [], 0)), ConflictsOf(Flat(store, root, [], 0))))
  {
    ReadIsFlatView(store, root);
    assert forall edit :: IsEdit(store, root, edit) <==> IsEdit(bundle.trees, bundle.root, edit);
  }
}
