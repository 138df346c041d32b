/** Rewriting a bundle's logical directory ids to encrypted ids, bottom up. */
module PreparedTree {
  import opened Base
  import opened Trees

  datatype Bundle = Bundle(root: Id, trees: Store)

  datatype PrepareError =
    | TooManyObjects | NoRoot | InvalidTree | TooMuchWork | MissingChild | ContainsCycle

  /** Hash of the ciphertext of a tree: deterministic, and no two trees share one. */
  ghost predicate Injective(seal: Tree -> Id) {
    forall a, b :: seal(a) == seal(b) ==> a == b
  }

  ghost predicate ChildrenPresent(trees: Store) {
    forall p, c :: p in trees && c in Children(trees[p]) ==> c in trees
  }

  /** Exactly the bundles that can be prepared. */
  ghost predicate Preparable(bundle: Bundle, valid: Tree -> bool) {
    && |bundle.trees| <= MAX_TREE_OBJECTS
    && bundle.root in bundle.trees
    && (forall id :: id in bundle.trees ==> valid(bundle.trees[id]))
    && TotalWork(bundle.trees, bundle.trees.Keys) <= MAX_TREE_WORK_ITEMS
    && ChildrenPresent(bundle.trees)
    && AcyclicDirs(bundle.trees)
  }

  function RewriteEntry(e: Entry, ids: map<Id, Id>): Entry {
    if e.kind.Dir? && e.hash in ids then e.(hash := ids[e.hash]) else e
  }

  function Rewrite(t: Tree, ids: map<Id, Id>): Tree {
    Tree(seq(|t.entries|, i requires 0 <= i < |t.entries| => RewriteEntry(t.entries[i], ids)))
  }

  // ----- counting

  /** How many of `children` are not done yet. */
  function Outstanding(children: seq<Id>, done: set<Id>): nat {
    if children == [] then 0
    else (if children[0] in done then 0 else 1) + Outstanding(children[1..], done)
  }

  lemma {:induction false} OutstandingNone(children: seq<Id>)
    ensures Outstanding(children, {}) == |children|
  {
    if children != [] {
      OutstandingNone(children[1..]);
    }
  }

  lemma {:induction false} OutstandingZero(children: seq<Id>, done: set<Id>)
    ensures Outstanding(children, done) == 0 <==> forall c :: c in children ==> c in done
  {
    if children != [] {
      OutstandingZero(children[1..], done);
      assert forall c :: c in children <==> c == children[0] || c in children[1..];
    }
  }

  /** Finishing `c` releases exactly its occurrences. */
  lemma {:induction false} OutstandingStep(children: seq<Id>, done: set<Id>, c: Id)
    requires c !in done
    ensures Outstanding(children, done + {c}) + multiset(children)[c] == Outstanding(children, done)
  {
    if children != [] {
      assert children == [children[0]] + children[1..];
      OutstandingStep(children[1..], done, c);
    }
  }

  // ----- first pass: count children and invert the edges

  function Occurrences(parents: map<Id, seq<Id>>, c: Id, p: Id): nat {
    if c in parents then multiset(parents[c])[p] else 0
  }

  lemma AddOccurrence(parents: map<Id, seq<Id>>, c: Id, p: Id)
    ensures var before := if c in parents then parents[c] else [];
            forall x, y :: Occurrences(parents[c := before + [p]], x, y) ==
              Occurrences(parents, x, y) + if x == c && y == p then 1 else 0
  {
  }

  method ScanEntries(id: Id, tree: Tree, trees: Store, parents0: map<Id, seq<Id>>)
    returns (ok: bool, children: nat, parents: map<Id, seq<Id>>)
    ensures ok <==> forall c :: c in Children(tree) ==> c in trees
    ensures ok ==>
              && children == |Children(tree)|
              && forall c, p :: Occurrences(parents, c, p) ==
                   Occurrences(parents0, c, p) + if p == id then multiset(Children(tree))[c] else 0
  {
    children, parents := 0, parents0;
    for i := 0 to |tree.entries|
      invariant children == |DirTargets(tree.entries[..i])|
      invariant forall c :: c in DirTargets(tree.entries[..i]) ==> c in trees
      invariant forall c, p :: Occurrences(parents, c, p) ==
                  Occurrences(parents0, c, p) + if p == id then multiset(DirTargets(tree.entries[..i]))[c] else 0
    {
      var entry := tree.entries[i];
      assert tree.entries[..i + 1] == tree.entries[..i] + [entry];
      DirTargetsSnoc(tree.entries[..i], entry);
      if entry.kind.Dir? {
        if entry.hash !in trees {
          DirTargetOf(tree.entries, entry);
          return false, 0, parents;
        }
        children := children + 1;
        AddOccurrence(parents, entry.hash, id);
        var before := if entry.hash in parents then parents[entry.hash] else [];
        parents := parents[entry.hash := before + [id]];
      }
    }
    assert tree.entries[..|tree.entries|] == tree.entries;
    ok := true;
  }

  lemma {:induction false} DirTargetsSnoc(entries: seq<Entry>, e: Entry)
    ensures DirTargets(entries + [e]) == DirTargets(entries) + if e.kind.Dir? then [e.hash] else []
  {
    if entries == [] {
      assert entries + [e] == [e];
    } else {
      var longer := entries + [e];
      assert longer[0] == entries[0] && longer[1..] == entries[1..] + [e];
      DirTargetsSnoc(entries[1..], e);
      var first := if entries[0].kind.Dir? then [entries[0].hash] else [];
      assert DirTargets(longer) == first + DirTargets(longer[1..]);
      assert DirTargets(entries) == first + DirTargets(entries[1..]);
    }
  }

  ghost predicate Counted(trees: Store, ids: set<Id>, remaining: map<Id, nat>, parents: map<Id, seq<Id>>) {
    && remaining.Keys == ids
    && (forall p :: p in ids ==> p in trees && remaining[p] == |Children(trees[p])|)
    && forall c, p :: Occurrences(parents, c, p) == if p in ids then multiset(Children(trees[p]))[c] else 0
  }

  method CountChildren(trees: Store, valid: Tree -> bool)
    returns (error: Option<PrepareError>, remaining: map<Id, nat>, parents: map<Id, seq<Id>>)
    ensures error.None? <==>
              && (forall id :: id in trees ==> valid(trees[id]))
              && TotalWork(trees, trees.Keys) <= MAX_TREE_WORK_ITEMS
              && ChildrenPresent(trees)
    ensures error.None? ==> Counted(trees, trees.Keys, remaining, parents)
  {
    remaining, parents := map[], map[];
    var todo, work := trees.Keys, 0;
    ghost var done: set<Id> := {};
    while todo != {}
      invariant todo !! done && todo + done == trees.Keys
      invariant forall id :: id in done ==> valid(trees[id])
      invariant forall p, c :: p in done && c in Children(trees[p]) ==> c in trees
      invariant work == TotalWork(trees, done) <= MAX_TREE_WORK_ITEMS
      invariant Counted(trees, done, remaining, parents)
      decreases todo
    {
      var id := TakeAny(todo);
      if !valid(trees[id]) {
        return Some(InvalidTree), remaining, parents;
      }
      work := work + |trees[id].entries| + 1;
      TotalWorkRemove(trees, done + {id}, id);
      assert done + {id} - {id} == done;
      if work > MAX_TREE_WORK_ITEMS {
        TotalWorkMonotone(trees, done + {id}, trees.Keys);
        return Some(TooMuchWork), remaining, parents;
      }
      var ok, children, next := ScanEntries(id, trees[id], trees, parents);
      if !ok {
        return Some(MissingChild), remaining, parents;
      }
      CountedStep(trees, done, id, remaining, parents, next);
      remaining, parents := remaining[id := children], next;
      todo, done := todo - {id}, done + {id};
    }
    assert done == trees.Keys;
    error := None;
  }

  lemma CountedStep(
    trees: Store, done: set<Id>, id: Id, remaining: map<Id, nat>, parents: map<Id, seq<Id>>, next: map<Id, seq<Id>>)
    requires Counted(trees, done, remaining, parents) && id in trees && id !in done
    requires forall c, p :: Occurrences(next, c, p) ==
               Occurrences(parents, c, p) + if p == id then multiset(Children(trees[id]))[c] else 0
    ensures Counted(trees, done + {id}, remaining[id := |Children(trees[id])|], next)
  {
  }

  // ----- second pass: encrypt what has no outstanding child

  /** Counts one finished child down in every parent it occurs in. */
  method Release(parentIds: seq<Id>, remaining0: map<Id, nat>, ready0: set<Id>)
    returns (remaining: map<Id, nat>, ready: set<Id>)
    requires forall p :: p in parentIds ==> p in remaining0
    requires forall p :: p in remaining0 ==> multiset(parentIds)[p] <= remaining0[p]
    ensures remaining.Keys == remaining0.Keys
    ensures forall p :: p in remaining ==> remaining[p] + multiset(parentIds)[p] == remaining0[p]
    ensures forall p :: p in ready <==> p in ready0 || (p in parentIds && remaining[p] == 0)
  {
    remaining, ready := remaining0, ready0;
    for k := 0 to |parentIds|
      invariant remaining.Keys == remaining0.Keys
      invariant forall p :: p in remaining ==> remaining[p] + multiset(parentIds[..k])[p] == remaining0[p]
      invariant forall p :: p in ready <==> p in ready0 || (p in parentIds[..k] && remaining[p] == 0)
    {
      var p := parentIds[k];
      assert parentIds == parentIds[..k] + [p] + parentIds[k + 1..];
      assert parentIds[..k + 1] == parentIds[..k] + [p];
      assert multiset(parentIds)[p] >= multiset(parentIds[..k])[p] + 1;
      remaining := remaining[p := remaining[p] - 1];
      if remaining[p] == 0 {
        ready := ready + {p};
      }
    }
    assert parentIds[..|parentIds|] == parentIds;
  }

  ghost predicate AllIn(children: seq<Id>, done: set<Id>) {
    forall c :: c in children ==> c in done
  }

  /** What is encrypted so far: every finished directory is stored under its
      own hash, with its children's new ids in place. */
  ghost predicate Encrypted(trees: Store, seal: Tree -> Id, ids: map<Id, Id>, sealed: Store) {
    && (forall l :: l in ids ==> Finished(trees, ids, sealed, l))
    && (forall x :: x in sealed ==> seal(sealed[x]) == x)
    && ChildrenPresent(sealed)
  }

  lemma RewriteStable(t: Tree, ids: map<Id, Id>, l: Id, x: Id)
    requires AllIn(Children(t), ids.Keys) && l !in ids
    ensures Rewrite(t, ids[l := x]) == Rewrite(t, ids)
  {
    forall i | 0 <= i < |t.entries|
      ensures RewriteEntry(t.entries[i], ids[l := x]) == RewriteEntry(t.entries[i], ids)
    {
      if t.entries[i].kind.Dir? {
        DirTargetOf(t.entries, t.entries[i]);
      }
    }
  }

  /** One finished directory stays finished when another one is added. */
  ghost predicate Finished(trees: Store, ids: map<Id, Id>, sealed: Store, l: Id) {
    && l in trees && l in ids && AllIn(Children(trees[l]), ids.Keys)
    && ids[l] in sealed && sealed[ids[l]] == Rewrite(trees[l], ids)
  }

  lemma FinishedStays(trees: Store, seal: Tree -> Id, ids: map<Id, Id>, sealed: Store, l: Id, t: Tree, k: Id)
    requires Encrypted(trees, seal, ids, sealed) && Injective(seal) && l !in ids && k in ids
    ensures Finished(trees, ids[l := seal(t)], sealed[seal(t) := t], k)
  {
    assert Finished(trees, ids, sealed, k);
    RewriteStable(trees[k], ids, l, seal(t));
  }

  lemma EncryptedStep(trees: Store, seal: Tree -> Id, ids: map<Id, Id>, sealed: Store, l: Id)
    requires Encrypted(trees, seal, ids, sealed) && Injective(seal)
    requires l in trees && l !in ids && AllIn(Children(trees[l]), ids.Keys)
    ensures var t := Rewrite(trees[l], ids);
            Encrypted(trees, seal, ids[l := seal(t)], sealed[seal(t) := t])
  {
    var t := Rewrite(trees[l], ids);
    var ids', sealed' := ids[l := seal(t)], sealed[seal(t) := t];
    forall k | k in ids'
      ensures Finished(trees, ids', sealed', k)
    {
      if k == l {
        RewriteStable(trees[l], ids, l, seal(t));
      } else {
        FinishedStays(trees, seal, ids, sealed, l, t, k);
      }
    }
    RewrittenChildrenSealed(trees, seal, ids, sealed, l);
  }

  lemma RewrittenChildrenSealed(trees: Store, seal: Tree -> Id, ids: map<Id, Id>, sealed: Store, l: Id)
    requires Encrypted(trees, seal, ids, sealed) && l in trees && AllIn(Children(trees[l]), ids.Keys)
    ensures AllIn(Children(Rewrite(trees[l], ids)), sealed.Keys)
  {
    forall c | c in Children(Rewrite(trees[l], ids))
      ensures c in sealed
    {
      RewrittenChild(trees[l], ids, c);
    }
  }

  lemma RewrittenChild(t: Tree, ids: map<Id, Id>, c: Id)
    requires AllIn(Children(t), ids.Keys) && c in Children(Rewrite(t, ids))
    ensures exists l :: l in ids && ids[l] == c
  {
    var e := DirTargetEntry(Rewrite(t, ids).entries, c);
    var i :| 0 <= i < |t.entries| && Rewrite(t, ids).entries[i] == e;
    DirTargetOf(t.entries, t.entries[i]);
  }

  /** The encrypted trees are themselves ranked bottom up. */
  ghost predicate SealedInOrder(sealed: Store, order: map<Id, nat>, n: nat) {
    order.Keys == sealed.Keys && Ranked(sealed, order) && forall x :: x in order ==> order[x] < n
  }

  lemma SealKeepsOrder(sealed: Store, order: map<Id, nat>, n: nat, x: Id, t: Tree)
    requires SealedInOrder(sealed, order, n) && AllIn(Children(t), sealed.Keys)
    requires x in sealed ==> sealed[x] == t
    ensures x in sealed ==> sealed[x := t] == sealed
    ensures SealedInOrder(sealed[x := t], if x in sealed then order else order[x := n], n + 1)
  {
    if x in sealed {
      assert sealed[x := t] == sealed;
    }
  }

  /** The encrypted trees have the same path map as the logical ones. */
  lemma {:induction false} SamePathMap(
    trees: Store, seal: Tree -> Id, ids: map<Id, Id>, sealed: Store, l: Id, path: seq<string>, e: Entry)
    requires Encrypted(trees, seal, ids, sealed) && l in ids
    ensures Leaf(sealed, ids[l], path, e) <==> Leaf(trees, l, path, e)
    decreases |path|
  {
    assert Finished(trees, ids, sealed, l);
    var logical, rewritten := trees[l], sealed[ids[l]];
    if |path| == 1 {
      if !e.kind.Dir? {
        LeafEntriesKept(logical, ids, e);
      }
    } else if |path| > 1 {
      if Leaf(sealed, ids[l], path, e) {
        var d :| LeadsDown(rewritten, d, path[0]) && Leaf(sealed, d.hash, path[1..], e);
        var i :| 0 <= i < |rewritten.entries| && rewritten.entries[i] == d;
        var d0 := logical.entries[i];
        DirTargetOf(logical.entries, d0);
        SamePathMap(trees, seal, ids, sealed, d0.hash, path[1..], e);
        assert LeadsDown(logical, d0, path[0]);
      }
      if Leaf(trees, l, path, e) {
        var d0 :| LeadsDown(logical, d0, path[0]) && Leaf(trees, d0.hash, path[1..], e);
        var i :| 0 <= i < |logical.entries| && logical.entries[i] == d0;
        DirTargetOf(logical.entries, d0);
        SamePathMap(trees, seal, ids, sealed, d0.hash, path[1..], e);
        assert rewritten.entries[i] == RewriteEntry(d0, ids);
        assert LeadsDown(rewritten, rewritten.entries[i], path[0]);
      }
    }
  }

  lemma LeafEntriesKept(t: Tree, ids: map<Id, Id>, e: Entry)
    requires !e.kind.Dir?
    ensures e in Rewrite(t, ids).entries <==> e in t.entries
  {
    if e in t.entries {
      var i :| 0 <= i < |t.entries| && t.entries[i] == e;
      assert Rewrite(t, ids).entries[i] == e;
    }
    if e in Rewrite(t, ids).entries {
      var i :| 0 <= i < |t.entries| && Rewrite(t, ids).entries[i] == e;
      assert t.entries[i] == e;
    }
  }

  /** The work list of the second pass. */
  ghost predicate WorkList(trees: Store, done: set<Id>, remaining: map<Id, nat>, ready: set<Id>) {
    && done <= trees.Keys == remaining.Keys
    && (forall p :: p in trees ==> remaining[p] == Outstanding(Children(trees[p]), done))
    && (forall p :: p in ready <==> p in trees && p !in done && remaining[p] == 0)
    && (forall p :: p in done ==> AllIn(Children(trees[p]), done))
  }

  ghost predicate RanksTo(trees: Store, done: set<Id>, rank: map<Id, nat>) {
    && rank.Keys == done && (forall p :: p in done ==> rank[p] < |done|)
    && forall p, c :: p in done && p in trees && c in Children(trees[p]) ==> c in done && rank[c] < rank[p]
  }

  lemma RanksStep(trees: Store, done: set<Id>, l: Id, rank: map<Id, nat>)
    requires RanksTo(trees, done, rank) && l !in done && l in trees && AllIn(Children(trees[l]), done)
    ensures RanksTo(trees, done + {l}, rank[l := |done|])
  {
  }

  lemma ReleaseKeepsWorkList(
    trees: Store, done: set<Id>, l: Id, parentIds: seq<Id>,
    remaining: map<Id, nat>, ready: set<Id>, remaining': map<Id, nat>, ready': set<Id>)
    requires WorkList(trees, done, remaining, ready) && l in ready
    requires forall p :: p in trees ==> multiset(parentIds)[p] == multiset(Children(trees[p]))[l]
    requires forall p :: p in parentIds ==> p in trees
    requires remaining'.Keys == remaining.Keys
    requires forall p :: p in remaining' ==> remaining'[p] + multiset(parentIds)[p] == remaining[p]
    requires forall p :: p in ready' <==> p in ready - {l} || (p in parentIds && remaining'[p] == 0)
    ensures WorkList(trees, done + {l}, remaining', ready')
  {
    forall p | p in trees
      ensures remaining'[p] == Outstanding(Children(trees[p]), done + {l})
      ensures p in ready' <==> p !in done + {l} && remaining'[p] == 0
      ensures p in done + {l} ==> AllIn(Children(trees[p]), done + {l})
    {
      OutstandingStep(Children(trees[p]), done, l);
      OutstandingZero(Children(trees[p]), done);
      assert p in parentIds <==> multiset(parentIds)[p] > 0;
    }
  }

  lemma WorkFits(trees: Store, done: set<Id>, remaining: map<Id, nat>, ready: set<Id>, l: Id, p: Id)
    requires WorkList(trees, done, remaining, ready) && l !in done && p in trees
    ensures multiset(Children(trees[p]))[l] <= remaining[p]
  {
    OutstandingStep(Children(trees[p]), done, l);
  }

  /** When nothing is ready but directories are left, they hold a cycle. */
  lemma StuckMeansCycle(trees: Store, done: set<Id>, remaining: map<Id, nat>)
    requires WorkList(trees, done, remaining, {}) && ChildrenPresent(trees) && done != trees.Keys
    ensures !AcyclicDirs(trees)
  {
    var stuck := trees.Keys - done;
    forall x | x in stuck
      ensures HasChildIn(trees[x], stuck)
    {
      StuckChild(trees, done, remaining, x);
    }
    SomethingLeft(done, trees.Keys);
    var start := Pick(stuck);
    StuckSetHasCycle(trees, stuck, TrailOfOne(trees, stuck, start));
  }

  ghost function TrailOfOne(trees: Store, stuck: set<Id>, start: Id): (trail: seq<Id>)
    requires start in stuck
    ensures trail != [] && IsTrail(trees, trail) && Elements(trail) <= stuck
  {
    [start]
  }

  lemma StuckChild(trees: Store, done: set<Id>, remaining: map<Id, nat>, x: Id)
    requires WorkList(trees, done, remaining, {}) && ChildrenPresent(trees) && x in trees && x !in done
    ensures HasChildIn(trees[x], trees.Keys - done)
  {
    OutstandingZero(Children(trees[x]), done);
    assert remaining[x] != 0;
    var c :| c in Children(trees[x]) && c !in done;
    assert c in trees.Keys - done;
  }

  /** Counts the finished directory `l` down in every parent. */
  method ReleaseParents(
    trees: Store, ghost done: set<Id>, ghost remaining0: map<Id, nat>, parents: map<Id, seq<Id>>, l: Id,
    remaining: map<Id, nat>, ready: set<Id>)
    returns (remaining': map<Id, nat>, ready': set<Id>)
    requires Counted(trees, trees.Keys, remaining0, parents)
    requires WorkList(trees, done, remaining, ready) && l in ready
    ensures WorkList(trees, done + {l}, remaining', ready')
  {
    var parentIds := if l in parents then parents[l] else [];
    assert forall p :: multiset(parentIds)[p] == Occurrences(parents, l, p);
    forall p | p in remaining
      ensures multiset(parentIds)[p] <= remaining[p]
    {
      WorkFits(trees, done, remaining, ready, l, p);
    }
    assert forall p :: p in parentIds ==> multiset(parentIds)[p] > 0;
    remaining', ready' := Release(parentIds, remaining, ready - {l});
    ReleaseKeepsWorkList(trees, done, l, parentIds, remaining, ready, remaining', ready');
  }

  method EncryptAll(trees: Store, seal: Tree -> Id, remaining0: map<Id, nat>, parents: map<Id, seq<Id>>)
    returns (ids: map<Id, Id>, sealed: Store)
    requires Injective(seal) && Counted(trees, trees.Keys, remaining0, parents)
    ensures Encrypted(trees, seal, ids, sealed) && ids.Keys <= trees.Keys && AcyclicDirs(sealed)
    ensures ids.Keys == trees.Keys ==> AcyclicDirs(trees)
    ensures ChildrenPresent(trees) && ids.Keys != trees.Keys ==> !AcyclicDirs(trees)
  {
    var remaining := remaining0;
    var ready := set p | p in remaining && remaining[p] == 0;
    ids, sealed := map[], map[];
    ghost var rank: map<Id, nat> := map[];
    ghost var order: map<Id, nat> := map[];
    ghost var n := 0;
    forall p | p in trees
      ensures remaining[p] == Outstanding(Children(trees[p]), {})
    {
      OutstandingNone(Children(trees[p]));
    }
    while ready != {}
      invariant Encrypted(trees, seal, ids, sealed)
      invariant WorkList(trees, ids.Keys, remaining, ready)
      invariant RanksTo(trees, ids.Keys, rank) && SealedInOrder(sealed, order, n)
      decreases |trees.Keys - ids.Keys|
    {
      var l := TakeAny(ready);
      OutstandingZero(Children(trees[l]), ids.Keys);
      ghost var done := ids.Keys;
      EncryptedStep(trees, seal, ids, sealed, l);
      var tree := Rewrite(trees[l], ids);
      RewrittenChildrenSealed(trees, seal, ids, sealed, l);
      SealKeepsOrder(sealed, order, n, seal(tree), tree);
      order, n := if seal(tree) in sealed then order else order[seal(tree) := n], n + 1;
      remaining, ready := ReleaseParents(trees, done, remaining0, parents, l, remaining, ready);
      OneLessLeft(trees.Keys, done, l);
      RanksStep(trees, done, l, rank);
      rank := rank[l := |done|];
      KeysOfUpdate(ids, l, seal(tree));
      ids, sealed := ids[l := seal(tree)], sealed[seal(tree) := tree];
    }
    RankedIsAcyclic(sealed, order);
    if ids.Keys == trees.Keys {
      RankedIsAcyclic(trees, rank);
    } else if ChildrenPresent(trees) {
      StuckMeansCycle(trees, ids.Keys, remaining);
    }
  }

  /** What a prepared bundle is: every tree stored under its own hash, closed
      and acyclic, and flattening to the same path map. */
  ghost predicate IsPrepared(bundle: Bundle, seal: Tree -> Id, out: Bundle) {
    && out.root in out.trees && ChildrenPresent(out.trees) && AcyclicDirs(out.trees)
    && (forall x :: x in out.trees ==> seal(out.trees[x]) == x)
    && (forall path, e :: Leaf(out.trees, out.root, path, e) <==> Leaf(bundle.trees, bundle.root, path, e))
    && exists ids :: Rewritten(bundle, ids, out.trees, out.root)
  }

  /** Every directory of the bundle is stored under its new id with only its
      children's ids replaced. */
  ghost predicate Rewritten(bundle: Bundle, ids: map<Id, Id>, store: Store, root: Id) {
    && bundle.root in ids && ids[bundle.root] == root && ids.Keys == bundle.trees.Keys
    && forall l :: l in ids ==> Finished(bundle.trees, ids, store, l)
  }

  lemma EncryptedIsPrepared(bundle: Bundle, seal: Tree -> Id, ids: map<Id, Id>, sealed: Store)
    requires Encrypted(bundle.trees, seal, ids, sealed) && AcyclicDirs(sealed) && bundle.root in ids
    requires ids.Keys == bundle.trees.Keys
    ensures IsPrepared(bundle, seal, Bundle(ids[bundle.root], sealed))
  {
    assert Rewritten(bundle, ids, sealed, ids[bundle.root]);
    assert Finished(bundle.trees, ids, sealed, bundle.root);
    forall path, e
      ensures Leaf(sealed, ids[bundle.root], path, e) <==> Leaf(bundle.trees, bundle.root, path, e)
    {
      SamePathMap(bundle.trees, seal, ids, sealed, bundle.root, path, e);
    }
  }

  /**
   * Prepares a bundle for upload. Within the limits and with every child
   * present it succeeds exactly when no directory contains itself, and then
   * the encrypted trees flatten from the new root to the same path map,
   * shared and repeated subtrees included.
   */
  method Prepare(bundle: Bundle, valid: Tree -> bool, seal: Tree -> Id) returns (r: Result<Bundle, PrepareError>)
    requires Injective(seal)
    ensures r.Ok? <==> Preparable(bundle, valid)
    ensures r.Ok? ==> IsPrepared(bundle, seal, r.value)
  {
    if |bundle.trees| > MAX_TREE_OBJECTS {
      return Err(TooManyObjects);
    }
    if bundle.root !in bundle.trees {
      return Err(NoRoot);
    }
    var error, remaining, parents := CountChildren(bundle.trees, valid);
    if error.Some? {
      return Err(error.value);
    }
    var ids, sealed := EncryptAll(bundle.trees, seal, remaining, parents);
    if |ids| != |bundle.trees| {
      return Err(ContainsCycle);
    }
    SubsetOfSameSize(ids.Keys, bundle.trees.Keys);
    EncryptedIsPrepared(bundle, seal, ids, sealed);
    return Ok(Bundle(ids[bundle.root], sealed));
  }
}
