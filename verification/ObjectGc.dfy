/** Pruning the local object cache. */
module ObjectGc {
  import opened Base
  import opened Sorting
  import opened SnapshotGraph
  import opened Trees
  import opened Reachability

  const KEEP_LAST: nat := 50

  /** One manifest file: when it was written, whether its closure was taken
      with the chunks of large files, and the object ids it lists. */
  datatype Manifest = Manifest(modified: int, expand: bool, hashes: set<Id>)

  type Manifests = map<Id, Manifest>

  // ----- manifests stay truthful while objects are only added

  ghost predicate Grows(o: Objects, o': Objects) {
    && Extends(o.snapshots, o'.snapshots)
    && (forall x :: x in o.trees ==> x in o'.trees && o'.trees[x] == o.trees[x])
  }

  ghost predicate SnapshotsHere(g: Graph, a: Id) {
    forall s :: Reaches(g, a, s) ==> s in g
  }

  lemma {:induction false} StepsStableHere(g: Graph, h: Graph, a: Id, b: Id, n: nat)
    requires Extends(g, h) && SnapshotsHere(g, a)
    ensures Steps(g, a, b, n) <==> Steps(h, a, b, n)
    decreases n
  {
    if n > 0 {
      ReachesSelf(g, a);
      forall p | p in g[a].parents
        ensures Steps(g, p, b, n - 1) <==> Steps(h, p, b, n - 1)
      {
        forall s | Reaches(g, p, s)
          ensures s in g
        {
          ReachesParent(g, a, p);
          ReachesTransitive(g, a, p, s);
        }
        StepsStableHere(g, h, p, b, n - 1);
      }
    }
  }

  lemma ReachesStableHere(g: Graph, h: Graph, a: Id, b: Id)
    requires Extends(g, h) && SnapshotsHere(g, a)
    ensures Reaches(g, a, b) <==> Reaches(h, a, b)
  {
    forall n: nat
      ensures Steps(g, a, b, n) <==> Steps(h, a, b, n)
    {
      StepsStableHere(g, h, a, b, n);
    }
  }

  ghost predicate DirsHere(trees: Store, root: Id) {
    forall path, id :: DirAt(trees, root, path, id) ==> id in trees
  }

  lemma {:induction false} DirAtStable(o: Objects, o': Objects, root: Id, path: seq<string>, id: Id)
    requires Grows(o, o') && DirsHere(o.trees, root)
    ensures DirAt(o.trees, root, path, id) <==> DirAt(o'.trees, root, path, id)
    decreases |path|
  {
    if path != [] {
      var up, name := path[..|path| - 1], path[|path| - 1];
      forall parent
        ensures DirAt(o.trees, root, up, parent) <==> DirAt(o'.trees, root, up, parent)
        ensures DirAt(o.trees, root, up, parent) ==>
                  (Contains(o.trees, parent, name, id) <==> Contains(o'.trees, parent, name, id))
      {
        DirAtStable(o, o', root, up, parent);
      }
    }
  }

  lemma InTreeStable(o: Objects, o': Objects, root: Id, expand: bool, chunks: ChunkIndex, h: Id)
    requires Grows(o, o') && DirsHere(o.trees, root)
    ensures InTree(o.trees, root, expand, chunks, h) <==> InTree(o'.trees, root, expand, chunks, h)
  {
    forall path, id
      ensures DirAt(o.trees, root, path, id) <==> DirAt(o'.trees, root, path, id)
      ensures DirAt(o.trees, root, path, id) ==>
                (OfDirectory(o.trees, path, id, expand, chunks, h)
                 <==> OfDirectory(o'.trees, path, id, expand, chunks, h))
    {
      DirAtStable(o, o', root, path, id);
    }
  }

  /** A complete closure never changes as further objects are stored, and
      stays complete. */
  lemma ClosureStable(o: Objects, o': Objects, start: Id, expand: bool, chunks: ChunkIndex)
    requires Grows(o, o') && ClosedAt(o, start)
    ensures ClosedAt(o', start)
    ensures forall h :: InClosure(o, start, expand, chunks, h) <==> InClosure(o', start, expand, chunks, h)
  {
    forall s
      ensures Reaches(o.snapshots, start, s) <==> Reaches(o'.snapshots, start, s)
    {
      ReachesStableHere(o.snapshots, o'.snapshots, start, s);
    }
    forall s | Reaches(o.snapshots, start, s)
      ensures DirsHere(o.trees, o.snapshots[s].root)
    {
      forall path, id | DirAt(o.trees, o.snapshots[s].root, path, id)
        ensures id in o.trees
      {
        assert NeedsDir(o, start, s, path, id);
      }
    }
    forall s, path, id | NeedsDir(o', start, s, path, id)
      ensures id in o'.trees
    {
      DirAtStable(o, o', o.snapshots[s].root, path, id);
      assert NeedsDir(o, start, s, path, id);
    }
    forall s, h | Reaches(o.snapshots, start, s)
      ensures InTree(o.trees, o.snapshots[s].root, expand, chunks, h)
              <==> InTree(o'.trees, o'.snapshots[s].root, expand, chunks, h)
    {
      InTreeStable(o, o', o.snapshots[s].root, expand, chunks, h);
    }
  }

  /** Each manifest lists exactly the closure of its snapshot. */
  ghost predicate Truthful(manifests: Manifests, o: Objects, chunks: ChunkIndex) {
    forall id :: id in manifests ==> Lists(manifests[id], id, o, chunks)
  }

  ghost predicate Lists(m: Manifest, id: Id, o: Objects, chunks: ChunkIndex) {
    ClosedAt(o, id) && forall h :: h in m.hashes <==> InClosure(o, id, m.expand, chunks, h)
  }

  lemma TruthfulStable(manifests: Manifests, o: Objects, o': Objects, chunks: ChunkIndex)
    requires Truthful(manifests, o, chunks) && Grows(o, o')
    ensures Truthful(manifests, o', chunks)
  {
    forall id | id in manifests
      ensures Lists(manifests[id], id, o', chunks)
    {
      assert Lists(manifests[id], id, o, chunks);
      ClosureStable(o, o', id, manifests[id].expand, chunks);
    }
  }

  // ----- the keep or delete decision

  predicate Newer(x: (int, Id), y: (int, Id)) {
    x.0 >= y.0
  }

  /** All manifests, newest first. */
  ghost predicate NewestFirst(order: seq<(int, Id)>, manifests: Manifests) {
    && Sorted(order, Newer)
    && (forall i :: 0 <= i < |order| ==> order[i].1 in manifests && order[i].0 == manifests[order[i].1].modified)
    && (forall i, j :: 0 <= i < j < |order| ==> order[i].1 != order[j].1)
    && (forall id :: id in manifests ==> exists i :: 0 <= i < |order| && order[i].1 == id)
  }

  predicate Kept(index: nat, item: (int, Id), refs: set<Id>, cutoff: int, now: int) {
    index < KEEP_LAST || cutoff <= item.0 <= now || item.1 in refs
  }

  /** What the first `n` manifests in `order` leave of the manifests. */
  ghost function ManifestsLeft(
    order: seq<(int, Id)>, n: nat, before: Manifests, refs: set<Id>, cutoff: int, now: int): Manifests
    requires n <= |order|
  {
    if n == 0 then before
    else
      var left := ManifestsLeft(order, n - 1, before, refs, cutoff, now);
      if Kept(n - 1, order[n - 1], refs, cutoff, now) then left else left - {order[n - 1].1}
  }

  /** The objects listed by the kept ones among the first `n` manifests. */
  ghost function Live(
    order: seq<(int, Id)>, n: nat, before: Manifests, refs: set<Id>, cutoff: int, now: int): set<Id>
    requires n <= |order| && forall i :: 0 <= i < |order| ==> order[i].1 in before
  {
    if n == 0 then {}
    else
      Live(order, n - 1, before, refs, cutoff, now) +
      (if Kept(n - 1, order[n - 1], refs, cutoff, now) then before[order[n - 1].1].hashes else {})
  }

  lemma {:induction false} LeftIsKept(
    order: seq<(int, Id)>, n: nat, before: Manifests, refs: set<Id>, cutoff: int, now: int, i: nat)
    requires NewestFirst(order, before) && i < |order| && n <= |order|
    ensures var left := ManifestsLeft(order, n, before, refs, cutoff, now);
            var id := order[i].1;
            && (id in left <==> i >= n || Kept(i, order[i], refs, cutoff, now))
            && (id in left ==> left[id] == before[id])
  {
    if n > 0 {
      LeftIsKept(order, n - 1, before, refs, cutoff, now, i);
      assert i < n - 1 ==> order[i].1 != order[n - 1].1;
      assert i > n - 1 ==> order[n - 1].1 != order[i].1;
    }
  }

  lemma {:induction false} LeftIsOld(
    order: seq<(int, Id)>, n: nat, before: Manifests, refs: set<Id>, cutoff: int, now: int)
    requires n <= |order|
    ensures forall id :: id in ManifestsLeft(order, n, before, refs, cutoff, now) ==>
              id in before && ManifestsLeft(order, n, before, refs, cutoff, now)[id] == before[id]
  {
    if n > 0 {
      LeftIsOld(order, n - 1, before, refs, cutoff, now);
    }
  }

  lemma {:induction false} LiveIsListed(
    order: seq<(int, Id)>, n: nat, before: Manifests, refs: set<Id>, cutoff: int, now: int, h: Id)
    requires NewestFirst(order, before) && n <= |order|
    ensures h in Live(order, n, before, refs, cutoff, now) <==>
              exists i :: 0 <= i < n && Kept(i, order[i], refs, cutoff, now) && h in before[order[i].1].hashes
  {
    if n > 0 {
      LiveIsListed(order, n - 1, before, refs, cutoff, now, h);
    }
  }

  /** The exact outcome of one prune that was not called off. */
  ghost predicate Pruned(
    order: seq<(int, Id)>, before: Manifests, after: Manifests, objects: set<Id>, objects': set<Id>,
    refs: set<Id>, cutoff: int, now: int)
  {
    && NewestFirst(order, before)
    && after == ManifestsLeft(order, |order|, before, refs, cutoff, now)
    && OnlyListed(objects, objects', Live(order, |order|, before, refs, cutoff, now))
  }

  ghost predicate OnlyListed(objects: set<Id>, objects': set<Id>, live: set<Id>) {
    forall h :: h in objects' <==> h in objects && h in live
  }

  /** No cached object that a referenced snapshot needs is deleted, nor is
      the manifest of that snapshot. */
  lemma PruneSparesReferenced(
    order: seq<(int, Id)>, before: Manifests, after: Manifests, objects: set<Id>, objects': set<Id>,
    refs: set<Id>, cutoff: int, now: int, o: Objects, chunks: ChunkIndex, r: Id, h: Id)
    requires Pruned(order, before, after, objects, objects', refs, cutoff, now)
    requires Truthful(before, o, chunks)
    requires r in refs && r in before && h in objects && InClosure(o, r, before[r].expand, chunks, h)
    ensures h in objects' && r in after && after[r] == before[r]
  {
    var i :| 0 <= i < |order| && order[i].1 == r;
    assert Kept(i, order[i], refs, cutoff, now);
    assert Lists(before[r], r, o, chunks);
    LeftIsKept(order, |order|, before, refs, cutoff, now, i);
    LiveIsListed(order, |order|, before, refs, cutoff, now, h);
  }

  /** Afterwards the cache holds exactly what some remaining manifest lists. */
  lemma PruneLeavesNoStray(
    order: seq<(int, Id)>, before: Manifests, after: Manifests, objects: set<Id>, objects': set<Id>,
    refs: set<Id>, cutoff: int, now: int, h: Id)
    requires Pruned(order, before, after, objects, objects', refs, cutoff, now)
    ensures h in objects' <==> h in objects && exists id :: id in after && h in after[id].hashes
  {
    LiveIsListed(order, |order|, before, refs, cutoff, now, h);
    if i :| 0 <= i < |order| && Kept(i, order[i], refs, cutoff, now) && h in before[order[i].1].hashes {
      LeftIsKept(order, |order|, before, refs, cutoff, now, i);
      assert order[i].1 in after;
    } else if id :| id in after && h in after[id].hashes {
      LeftIsOld(order, |order|, before, refs, cutoff, now);
      var i :| 0 <= i < |order| && order[i].1 == id;
      LeftIsKept(order, |order|, before, refs, cutoff, now, i);
    }
  }

  /** A manifest is deleted only when it is neither referenced nor recent and
      fifty others that stay are no older. */
  lemma DeletedIsOld(
    order: seq<(int, Id)>, before: Manifests, after: Manifests, objects: set<Id>, objects': set<Id>,
    refs: set<Id>, cutoff: int, now: int, id: Id) returns (fresher: seq<Id>)
    requires Pruned(order, before, after, objects, objects', refs, cutoff, now)
    requires id in before && id !in after
    ensures id !in refs && !(cutoff <= before[id].modified <= now)
    ensures |fresher| == KEEP_LAST && id !in fresher && Distinct(fresher)
    ensures forall f :: f in fresher ==> f in after && after[f].modified >= before[id].modified
  {
    var i :| 0 <= i < |order| && order[i].1 == id;
    LeftIsKept(order, |order|, before, refs, cutoff, now, i);
    fresher := seq(KEEP_LAST, k requires 0 <= k < |order| => order[k].1);
    forall k | 0 <= k < KEEP_LAST
      ensures fresher[k] in after && fresher[k] != id && after[fresher[k]].modified >= before[id].modified
    {
      assert Newer(order[k], order[i]);
      LeftIsKept(order, |order|, before, refs, cutoff, now, k);
    }
  }

  ghost function FirstIds(order: seq<(int, Id)>, n: nat): set<Id>
    requires n <= |order|
  {
    if n == 0 then {} else FirstIds(order, n - 1) + {order[n - 1].1}
  }

  lemma {:induction false} FirstIdsAre(order: seq<(int, Id)>, n: nat)
    requires n <= |order|
    ensures |FirstIds(order, n)| <= n && forall k :: 0 <= k < n ==> order[k].1 in FirstIds(order, n)
  {
    if n > 0 {
      FirstIdsAre(order, n - 1);
    }
  }

  lemma LaterIsNoNewer(order: seq<(int, Id)>, before: Manifests, i: nat, k: nat)
    requires NewestFirst(order, before) && i < |order| && k < |order|
    ensures i <= k ==> before[order[k].1].modified <= before[order[i].1].modified
  {
    assert i < k ==> Newer(order[i], order[k]);
  }

  /** A manifest that is neither referenced nor recent is deleted once fifty
      others are newer; one of these three always keeps it. */
  lemma OldIsDeleted(
    order: seq<(int, Id)>, before: Manifests, after: Manifests, objects: set<Id>, objects': set<Id>,
    refs: set<Id>, cutoff: int, now: int, id: Id, newer: set<Id>)
    requires Pruned(order, before, after, objects, objects', refs, cutoff, now)
    requires id in before && forall f :: f in newer ==> f in before && before[f].modified > before[id].modified
    requires |newer| >= KEEP_LAST
    ensures id in after <==> id in refs || cutoff <= before[id].modified <= now
    ensures id in after ==> after[id] == before[id]
  {
    var i :| 0 <= i < |order| && order[i].1 == id;
    LeftIsKept(order, |order|, before, refs, cutoff, now, i);
    forall f | f in newer
      ensures f in FirstIds(order, i)
    {
      var k :| 0 <= k < |order| && order[k].1 == f;
      LaterIsNoNewer(order, before, i, k);
      FirstIdsAre(order, i);
    }
    FirstIdsAre(order, i);
    SubsetIsSmaller(newer, FirstIds(order, i));
  }

  /** A manifest with fewer than fifty others at least as new is kept. */
  lemma NewestAreKept(
    order: seq<(int, Id)>, before: Manifests, after: Manifests, objects: set<Id>, objects': set<Id>,
    refs: set<Id>, cutoff: int, now: int, id: Id, fresher: set<Id>)
    requires Pruned(order, before, after, objects, objects', refs, cutoff, now)
    requires id in before && |fresher| < KEEP_LAST
    requires forall f :: f in before && f != id && before[f].modified >= before[id].modified ==> f in fresher
    ensures id in after && after[id] == before[id]
  {
    if id !in after {
      var kept := DeletedIsOld(order, before, after, objects, objects', refs, cutoff, now, id);
      LeftIsOld(order, |order|, before, refs, cutoff, now);
      DistinctCount(kept);
      SubsetIsSmaller(Elements(kept), fresher);
    } else {
      LeftIsOld(order, |order|, before, refs, cutoff, now);
    }
  }

  lemma {:induction false} DistinctCount(s: seq<Id>)
    requires Distinct(s)
    ensures |Elements(s)| == |s|
  {
    if s != [] {
      DistinctCount(s[1..]);
      assert Elements(s) == Elements(s[1..]) + {s[0]};
    }
  }

  // ----- the cache directory

  /** The manifests in the order a directory listing gives them. */
  ghost predicate Listing(items: seq<(int, Id)>, manifests: Manifests, left: set<Id>) {
    && left <= manifests.Keys
    && (forall i :: 0 <= i < |items| ==>
          items[i].1 in manifests && items[i].1 !in left && items[i].0 == manifests[items[i].1].modified)
    && (forall i, j :: 0 <= i < j < |items| ==> items[i].1 != items[j].1)
    && (forall id :: id in manifests && id !in left ==> exists i :: 0 <= i < |items| && items[i].1 == id)
  }

  lemma ListingGrows(items: seq<(int, Id)>, manifests: Manifests, left: set<Id>, id: Id)
    requires Listing(items, manifests, left) && id in left
    ensures Listing(items + [(manifests[id].modified, id)], manifests, left - {id})
  {
    var longer := items + [(manifests[id].modified, id)];
    forall x | x in manifests && x !in left - {id}
      ensures exists i :: 0 <= i < |longer| && longer[i].1 == x
    {
      if x == id {
        assert longer[|items|].1 == x;
      } else {
        var i :| 0 <= i < |items| && items[i].1 == x;
        assert longer[i].1 == x;
      }
    }
  }

  lemma SortedListing(items: seq<(int, Id)>, manifests: Manifests)
    requires Listing(items, manifests, {})
    ensures NewestFirst(SortBy(items, Newer), manifests)
  {
    SortBySorted(items, Newer);
    RearrangedListing(items, SortBy(items, Newer), manifests);
  }

  lemma RearrangedListing(items: seq<(int, Id)>, order: seq<(int, Id)>, manifests: Manifests)
    requires Listing(items, manifests, {}) && multiset(items) == multiset(order) && Sorted(order, Newer)
    ensures NewestFirst(order, manifests)
  {
    Rearranged(items, order);
    forall i | 0 <= i < |order|
      ensures order[i].1 in manifests && order[i].0 == manifests[order[i].1].modified
    {
      assert order[i] in items;
    }
    forall id | id in manifests
      ensures exists i :: 0 <= i < |order| && order[i].1 == id
    {
      var i :| 0 <= i < |items| && items[i].1 == id;
      assert items[i] in order;
    }
  }

  ghost function Named(ref: Option<Id>): set<Id> {
    if ref.Some? then {ref.value} else {}
  }

  ghost function AllNamed(refs: seq<Option<Id>>): set<Id> {
    if refs == [] then {} else AllNamed(refs[..|refs| - 1]) + Named(refs[|refs| - 1])
  }

  /** `h` is in the closure a listed snapshot's manifest was written from. */
  ghost predicate NeededFor(
    manifests: Manifests, o: Objects, added: Id, expand: bool, chunks: ChunkIndex, ref: Id, h: Id)
  {
    if ref == added then InClosure(o, ref, expand, chunks, h)
    else ref in manifests && InClosure(o, ref, manifests[ref].expand, chunks, h)
  }

  class LocalCache {
    var manifests: Manifests
    var objects: set<Id>
    var workspaceRef: Option<Id>
    var lastSyncedRef: Option<Id>
    var agentBases: seq<Option<Id>>

    /** The snapshots some reference file names. */
    ghost function Refs(): set<Id>
      reads this`workspaceRef, this`lastSyncedRef, this`agentBases
    {
      Named(workspaceRef) + Named(lastSyncedRef) + AllNamed(agentBases)
    }

    method ReferencedSnapshots() returns (refs: set<Id>)
      ensures refs == Refs()
    {
      refs := {};
      if workspaceRef.Some? {
        refs := refs + {workspaceRef.value};
      }
      if lastSyncedRef.Some? {
        refs := refs + {lastSyncedRef.value};
      }
      for i := 0 to |agentBases|
        invariant refs == Named(workspaceRef) + Named(lastSyncedRef) + AllNamed(agentBases[..i])
      {
        assert agentBases[..i + 1][..i] == agentBases[..i];
        if agentBases[i].Some? {
          refs := refs + {agentBases[i].value};
        }
      }
      assert agentBases[..|agentBases|] == agentBases;
    }

    ghost predicate NeededByRef(
      manifests: Manifests, o: Objects, added: Id, expand: bool, chunks: ChunkIndex, h: Id)
      reads this
    {
      exists ref :: ref in Refs() && NeededFor(manifests, o, added, expand, chunks, ref, h)
    }

    method ListManifests() returns (items: seq<(int, Id)>)
      ensures Listing(items, manifests, {})
    {
      items := [];
      var left := manifests.Keys;
      while left != {}
        invariant Listing(items, manifests, left)
        decreases left
      {
        var id := TakeAny(left);
        ListingGrows(items, manifests, left, id);
        items, left := items + [(manifests[id].modified, id)], left - {id};
      }
    }

    method SortedManifests() returns (order: seq<(int, Id)>)
      ensures NewestFirst(order, manifests)
    {
      var items := ListManifests();
      SortedListing(items, manifests);
      order := SortBy(items, Newer);
    }

    method ReadManifest(
      id: Id, order: seq<(int, Id)>, i: nat, ghost before: Manifests, refs: set<Id>, cutoff: int, now: int)
      returns (listed: set<Id>)
      requires NewestFirst(order, before) && i < |order| && order[i].1 == id
      requires manifests == ManifestsLeft(order, i, before, refs, cutoff, now)
      ensures listed == before[id].hashes
    {
      LeftIsKept(order, i, before, refs, cutoff, now, i);
      listed := manifests[id].hashes;
    }

    /** Walks the manifests newest first: reads the kept ones, deletes the
        others. */
    method SiftManifests(order: seq<(int, Id)>, refs: set<Id>, cutoff: int, now: int) returns (live: set<Id>)
      requires NewestFirst(order, manifests)
      modifies this`manifests
      ensures manifests == ManifestsLeft(order, |order|, old(manifests), refs, cutoff, now)
      ensures live == Live(order, |order|, old(manifests), refs, cutoff, now)
    {
      ghost var before := manifests;
      live := {};
      for i := 0 to |order|
        invariant manifests == ManifestsLeft(order, i, before, refs, cutoff, now)
        invariant live == Live(order, i, before, refs, cutoff, now)
      {
        var id := order[i].1;
        if Kept(i, order[i], refs, cutoff, now) {
          var listed := ReadManifest(id, order, i, before, refs, cutoff, now);
          live := live + listed;
        } else {
          manifests := manifests - {id};
        }
      }
    }

    /**
     * Deletes nothing when some referenced snapshot has no manifest.
     * Otherwise keeps exactly the newest fifty, recent and referenced
     * manifests and exactly the objects they list.
     */
    method Prune(now: int, retention: nat) returns (ghost order: seq<(int, Id)>)
      modifies this`manifests, this`objects
      ensures !(Refs() <= old(manifests).Keys) ==> manifests == old(manifests) && objects == old(objects)
      ensures Refs() <= old(manifests).Keys ==>
                Pruned(order, old(manifests), manifests, old(objects), objects, Refs(), now - retention, now)
    {
      var refs := ReferencedSnapshots();
      var sorted := SortedManifests();
      order := sorted;
      if !(refs <= manifests.Keys) {
        return;
      }
      Sweep(sorted, refs, now - retention, now);
    }

    method Sweep(order: seq<(int, Id)>, refs: set<Id>, cutoff: int, now: int)
      requires NewestFirst(order, manifests)
      modifies this`manifests, this`objects
      ensures Pruned(order, old(manifests), manifests, old(objects), objects, refs, cutoff, now)
    {
      var live := SiftManifests(order, refs, cutoff, now);
      DropObjects(live);
    }

    method DropObjects(live: set<Id>)
      modifies this`objects
      ensures OnlyListed(old(objects), objects, live)
    {
      ghost var before := objects;
      var left := objects;
      while left != {}
        invariant left <= objects <= before
        invariant forall h :: h in objects <==> h in before && (h in left || h in live)
        decreases left
      {
        var h := TakeAny(left);
        if h !in live {
          objects := objects - {h};
        }
        left := left - {h};
      }
    }

    /** Writes the manifest of a snapshot from its computed closure, then
        prunes; manifests stay truthful and nothing a referenced snapshot
        needs is lost. */
    method CacheManifest(o: Objects, id: Id, safe: seq<string> -> bool, expand: bool, chunks: ChunkIndex,
                         now: int, retention: nat) returns (r: Result<(), ReachError>)
      requires Truthful(manifests, o, chunks)
      modifies this`manifests, this`objects
      ensures Truthful(manifests, o, chunks)
      ensures r.Err? ==> manifests == old(manifests) && objects == old(objects)
      ensures r.Ok? ==> forall h :: h in old(objects) && NeededByRef(old(manifests), o, id, expand, chunks, h) ==> h in objects
    {
      var closure := SnapshotReachability(o, id, safe, expand, chunks);
      if closure.Err? {
        return Err(closure.error);
      }
      manifests := manifests[id := Manifest(now, expand, closure.value)];
      ghost var before, cached := manifests, objects;
      assert Lists(manifests[id], id, o, chunks);
      ghost var order := Prune(now, retention);
      assert Truthful(before, o, chunks);
      if Refs() <= before.Keys {
        LeftIsOld(order, |order|, before, Refs(), now - retention, now);
        forall ref, h | ref in Refs() && h in cached && InClosure(o, ref, before[ref].expand, chunks, h)
          ensures h in objects
        {
          PruneSparesReferenced(order, before, manifests, cached, objects, Refs(), now - retention, now,
                                o, chunks, ref, h);
        }
      }
      r := Ok(());
    }
  }
}
