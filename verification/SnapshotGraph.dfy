/** The immutable, content-addressed snapshot graph and reachability over it. */
module SnapshotGraph {
  import opened Base

  datatype Snapshot = Snapshot(
    root: Id,
    parents: seq<Id>,
    author: string,
    createdAtMs: int,
    message: Option<string>)

  /** Every snapshot object that can be loaded. */
  type Graph = map<Id, Snapshot>

  ghost predicate Steps(g: Graph, a: Id, b: Id, n: nat)
    decreases n
  {
    if n == 0 then a == b
    else a in g && exists p :: p in g[a].parents && Steps(g, p, b, n - 1)
  }

  ghost predicate Reaches(g: Graph, a: Id, b: Id) {
    exists n: nat :: Steps(g, a, b, n)
  }

  /** No parent edge leads back to its own child. */
  ghost predicate Acyclic(g: Graph) {
    forall x, y :: x in g && y in g[x].parents ==> !Reaches(g, y, x)
  }

  ghost predicate Closed(g: Graph) {
    forall x, y :: x in g && y in g[x].parents ==> y in g
  }

  /** `h` extends `g`: objects are never changed or lost. */
  ghost predicate Extends(g: Graph, h: Graph) {
    forall x :: x in g ==> x in h && h[x] == g[x]
  }

  lemma ReachesSelf(g: Graph, a: Id)
    ensures Reaches(g, a, a)
  {
    assert Steps(g, a, a, 0);
  }

  lemma {:induction false} StepsCompose(g: Graph, a: Id, b: Id, c: Id, m: nat, n: nat)
    requires Steps(g, a, b, m) && Steps(g, b, c, n)
    ensures Steps(g, a, c, m + n)
    decreases m
  {
    if m > 0 {
      var p :| p in g[a].parents && Steps(g, p, b, m - 1);
      StepsCompose(g, p, b, c, m - 1, n);
    }
  }

  lemma ReachesTransitive(g: Graph, a: Id, b: Id, c: Id)
    requires Reaches(g, a, b) && Reaches(g, b, c)
    ensures Reaches(g, a, c)
  {
    var m: nat :| Steps(g, a, b, m);
    var n: nat :| Steps(g, b, c, n);
    StepsCompose(g, a, b, c, m, n);
  }

  lemma ReachesParent(g: Graph, a: Id, p: Id)
    requires a in g && p in g[a].parents
    ensures Reaches(g, a, p)
  {
    assert Steps(g, p, p, 0);
    assert Steps(g, a, p, 1);
  }

  lemma ReachesStep(g: Graph, a: Id, b: Id, p: Id)
    requires Reaches(g, a, b) && b in g && p in g[b].parents
    ensures Reaches(g, a, p)
  {
    ReachesParent(g, b, p);
    ReachesTransitive(g, a, b, p);
  }

  /** A path that leaves its start goes through one of the start's parents. */
  lemma ReachesUnfold(g: Graph, a: Id, b: Id)
    requires Reaches(g, a, b)
    ensures a == b || (a in g && exists p :: p in g[a].parents && Reaches(g, p, b))
  {
    var n: nat :| Steps(g, a, b, n);
    if n > 0 {
      var p :| p in g[a].parents && Steps(g, p, b, n - 1);
      assert Reaches(g, p, b);
    }
  }

  /** Two distinct snapshots of an acyclic graph never reach each other. */
  lemma AcyclicAntisymmetric(g: Graph, a: Id, b: Id)
    requires Acyclic(g) && Reaches(g, a, b) && Reaches(g, b, a)
    ensures a == b
  {
    if a != b {
      ReachesUnfold(g, a, b);
      var p :| p in g[a].parents && Reaches(g, p, b);
      ReachesTransitive(g, p, b, a);
      assert false;
    }
  }

  lemma {:induction false} StepsStayClosed(g: Graph, a: Id, b: Id, n: nat)
    requires Closed(g) && a in g && Steps(g, a, b, n)
    ensures b in g
    decreases n
  {
    if n > 0 {
      var p :| p in g[a].parents && Steps(g, p, b, n - 1);
      StepsStayClosed(g, p, b, n - 1);
    }
  }

  lemma ReachesStaysClosed(g: Graph, a: Id, b: Id)
    requires Closed(g) && a in g && Reaches(g, a, b)
    ensures b in g
  {
    var n: nat :| Steps(g, a, b, n);
    StepsStayClosed(g, a, b, n);
  }

  lemma {:induction false} StepsStable(g: Graph, h: Graph, a: Id, b: Id, n: nat)
    requires Closed(g) && Extends(g, h) && a in g
    ensures Steps(g, a, b, n) <==> Steps(h, a, b, n)
    decreases n
  {
    if n > 0 {
      forall p | p in g[a].parents
        ensures Steps(g, p, b, n - 1) <==> Steps(h, p, b, n - 1)
      {
        StepsStable(g, h, p, b, n - 1);
      }
    }
  }

  /** Growing the graph never changes what an existing snapshot reaches. */
  lemma ReachesStable(g: Graph, h: Graph, a: Id, b: Id)
    requires Closed(g) && Extends(g, h) && a in g
    ensures Reaches(g, a, b) <==> Reaches(h, a, b)
  {
    forall n: nat
      ensures Steps(g, a, b, n) <==> Steps(h, a, b, n)
    {
      StepsStable(g, h, a, b, n);
    }
  }

  /** Writing one fresh snapshot over existing parents keeps the graph
      closed and acyclic. */
  lemma FreshSnapshotKeepsGraph(g: Graph, id: Id, s: Snapshot)
    requires Closed(g) && Acyclic(g) && id !in g
    requires forall p :: p in s.parents ==> p in g
    ensures Closed(g[id := s]) && Acyclic(g[id := s]) && Extends(g, g[id := s])
  {
    var h := g[id := s];
    forall x, y | x in h && y in h[x].parents
      ensures !Reaches(h, y, x)
    {
      assert y in g;
      ReachesStable(g, h, y, x);
      if Reaches(g, y, x) {
        ReachesStaysClosed(g, y, x);
      }
    }
  }

  /** What a snapshot with one parent reaches. */
  lemma OneParent(g: Graph, a: Id, p: Id)
    requires a in g && g[a].parents == [p]
    ensures forall y :: Reaches(g, a, y) <==> y == a || Reaches(g, p, y)
  {
    ReachesSelf(g, a);
    ReachesParent(g, a, p);
    forall y
      ensures Reaches(g, a, y) <==> y == a || Reaches(g, p, y)
    {
      if Reaches(g, a, y) {
        ReachesUnfold(g, a, y);
      }
      if Reaches(g, p, y) {
        ReachesTransitive(g, a, p, y);
      }
    }
  }

  /** What a snapshot reaches, in terms of its parents. */
  lemma ReachesThroughParents(g: Graph, a: Id, y: Id)
    requires a in g
    ensures Reaches(g, a, y) <==> y == a || exists p :: p in g[a].parents && Reaches(g, p, y)
  {
    ReachesSelf(g, a);
    if Reaches(g, a, y) {
      ReachesUnfold(g, a, y);
    }
    if p :| p in g[a].parents && Reaches(g, p, y) {
      ReachesParent(g, a, p);
      ReachesTransitive(g, a, p, y);
    }
  }
}
