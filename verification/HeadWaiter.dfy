/** Waiting for the workspace head to move, against swappers that write the
    head and then notify. */
module HeadWaiter {
  import opened Base

  type Workspace = string
  type WaiterId = nat
  type SwapperId = nat
  type Notifier = nat

  /** Where a waiting request stands. `notifier` is held from registration
      until the request has been dropped completely. */
  datatype Stage =
    | Checked                // the first read saw the awaited head
    | Registered             // holds the shared notifier
    | Enabled                // will be woken by a notification
    | Asleep                 // the second read saw the awaited head
    | Leaving                // answered, its registration not yet dropped
    | Dropping               // the drop check has run, the notifier is still held
    | Done

  datatype Waiter = Waiter(
    workspace: Workspace, after: Id, stage: Stage, notifier: Notifier, notified: bool,
    seen: nat, answer: Option<Option<Id>>)

  datatype Swapper = Swapper(workspace: Workspace, pending: bool)

  /** `swaps` counts the accepted swaps of each workspace. */
  datatype World = World(
    heads: map<Workspace, Id>, swaps: map<Workspace, nat>,
    headNotify: map<Workspace, Notifier>, next: Notifier,
    waiters: map<WaiterId, Waiter>, swappers: map<SwapperId, Swapper>)

  datatype Event =
    | Arrive(w: WaiterId, workspace: Workspace, after: Id, waitMs: Option<nat>)
    | Register(w: WaiterId)
    | Enable(w: WaiterId)
    | Recheck(w: WaiterId)
    | Wake(w: WaiterId)
    | Timeout(w: WaiterId)
    | Cancel(w: WaiterId)
    | DropCheck(w: WaiterId)
    | Release(w: WaiterId)
    | Swap(s: SwapperId, target: Workspace, expected: Option<Id>, to: Id)
    | Notify(s: SwapperId)

  function Head(w: World, ws: Workspace): Option<Id> {
    if ws in w.heads then Some(w.heads[ws]) else None
  }

  function Swaps(w: World, ws: Workspace): nat {
    if ws in w.swaps then w.swaps[ws] else 0
  }

  predicate Holds(x: Waiter, n: Notifier) {
    !x.stage.Checked? && !x.stage.Done? && x.notifier == n
  }

  /** Registered and not yet past its own drop check. */
  predicate IsRegistered(x: Waiter) {
    x.stage.Registered? || x.stage.Enabled? || x.stage.Asleep? || x.stage.Leaving?
  }

  function Holders(w: World, n: Notifier): set<WaiterId> {
    set x | x in w.waiters && Holds(w.waiters[x], n)
  }

  function Entries(w: World, n: Notifier): set<Workspace> {
    set ws | ws in w.headNotify && w.headNotify[ws] == n
  }

  /** References to a notifier: one per map entry, one per holder. */
  function StrongCount(w: World, n: Notifier): nat {
    |Entries(w, n)| + |Holders(w, n)|
  }

  predicate At(w: World, x: WaiterId, stage: Stage) {
    x in w.waiters && w.waiters[x].stage == stage
  }

  predicate Can(w: World, e: Event) {
    match e
    case Arrive(x, _, _, _) => x !in w.waiters
    case Register(x) => At(w, x, Checked)
    case Enable(x) => At(w, x, Registered)
    case Recheck(x) => At(w, x, Enabled)
    case Wake(x) => At(w, x, Asleep) && w.waiters[x].notified
    case Timeout(x) => At(w, x, Asleep)
    case Cancel(x) => At(w, x, Asleep)
    case DropCheck(x) => At(w, x, Leaving)
    case Release(x) => At(w, x, Dropping)
    case Swap(s, _, _, _) => s !in w.swappers
    case Notify(s) => s in w.swappers && w.swappers[s].pending
  }

  function PutWaiter(w: World, x: WaiterId, v: Waiter): World {
    w.(waiters := w.waiters[x := v])
  }

  function Arriving(w: World, ws: Workspace, after: Id, waitMs: Option<nat>): Waiter {
    var started := Waiter(ws, after, Checked, 0, false, 0, None);
    if Head(w, ws) != Some(after) || waitMs.None? || waitMs.value == 0
    then started.(stage := Done, answer := Some(Head(w, ws)))
    else started
  }

  function Registering(w: World, x: WaiterId): World
    requires x in w.waiters
  {
    var v := w.waiters[x];
    if v.workspace in w.headNotify
    then PutWaiter(w, x, v.(stage := Registered, notifier := w.headNotify[v.workspace]))
    else PutWaiter(w, x, v.(stage := Registered, notifier := w.next))
         .(headNotify := w.headNotify[v.workspace := w.next], next := w.next + 1)
  }

  function Rechecking(w: World, v: Waiter): Waiter {
    if Head(w, v.workspace) != Some(v.after)
    then v.(stage := Leaving, answer := Some(Head(w, v.workspace)))
    else v.(stage := Asleep, seen := Swaps(w, v.workspace))
  }

  /** The check the registration makes as it is dropped. */
  predicate RemovesEntry(w: World, v: Waiter) {
    v.workspace in w.headNotify && w.headNotify[v.workspace] == v.notifier && StrongCount(w, v.notifier) == 2
  }

  function DropChecking(w: World, x: WaiterId): World
    requires x in w.waiters
  {
    var v := w.waiters[x];
    var dropped := PutWaiter(w, x, v.(stage := Dropping));
    if RemovesEntry(w, v) then dropped.(headNotify := w.headNotify - {v.workspace}) else dropped
  }

  predicate Listens(v: Waiter, n: Notifier) {
    (v.stage.Enabled? || v.stage.Asleep?) && v.notifier == n
  }

  function WakeAll(waiters: map<WaiterId, Waiter>, n: Notifier): map<WaiterId, Waiter> {
    map x | x in waiters ::
      if Listens(waiters[x], n) then waiters[x].(notified := true) else waiters[x]
  }

  function Swapping(w: World, s: SwapperId, ws: Workspace, expected: Option<Id>, to: Id): World {
    if Head(w, ws) == expected
    then w.(heads := w.heads[ws := to], swaps := w.swaps[ws := Swaps(w, ws) + 1],
            swappers := w.swappers[s := Swapper(ws, true)])
    else w.(swappers := w.swappers[s := Swapper(ws, false)])
  }

  function Notifying(w: World, s: SwapperId): World
    requires s in w.swappers
  {
    var ws := w.swappers[s].workspace;
    var told := w.(swappers := w.swappers[s := Swapper(ws, false)]);
    if ws in w.headNotify then told.(waiters := WakeAll(w.waiters, w.headNotify[ws])) else told
  }

  function Next(w: World, e: Event): World
    requires Can(w, e)
  {
    match e
    case Arrive(x, ws, after, waitMs) => PutWaiter(w, x, Arriving(w, ws, after, waitMs))
    case Register(x) => Registering(w, x)
    case Enable(x) => PutWaiter(w, x, w.waiters[x].(stage := Enabled, notified := false))
    case Recheck(x) => PutWaiter(w, x, Rechecking(w, w.waiters[x]))
    case Wake(x) =>
      PutWaiter(w, x, w.waiters[x].(stage := Leaving, answer := Some(Head(w, w.waiters[x].workspace))))
    case Timeout(x) =>
      PutWaiter(w, x, w.waiters[x].(stage := Leaving, answer := Some(Some(w.waiters[x].after))))
    case Cancel(x) => PutWaiter(w, x, w.waiters[x].(stage := Leaving))
    case DropCheck(x) => DropChecking(w, x)
    case Release(x) => PutWaiter(w, x, w.waiters[x].(stage := Done))
    case Swap(s, ws, expected, to) => Swapping(w, s, ws, expected, to)
    case Notify(s) => Notifying(w, s)
  }

  /** A step that is not possible leaves the world alone. */
  function Step(w: World, e: Event): World {
    if Can(w, e) then Next(w, e) else w
  }

  function Exec(w: World, es: seq<Event>): World
    decreases |es|
  {
    if es == [] then w else Step(Exec(w, es[..|es| - 1]), es[|es| - 1])
  }

  predicate Init(w: World) {
    w.headNotify == map[] && w.waiters == map[] && w.swappers == map[]
  }

  // ----- what every step keeps

  /** Whoever is registered is registered on the notifier that a swapper of
      its workspace will find. */
  ghost predicate Findable(w: World) {
    forall x :: x in w.waiters && IsRegistered(w.waiters[x]) ==>
      w.waiters[x].workspace in w.headNotify && w.headNotify[w.waiters[x].workspace] == w.waiters[x].notifier
  }

  ghost predicate Owed(w: World, ws: Workspace) {
    exists s :: s in w.swappers && w.swappers[s].pending && w.swappers[s].workspace == ws
  }

  /** A sleeper is up to date, or notified, or about to be. */
  ghost predicate SleeperOk(w: World, v: Waiter) {
    && v.seen <= Swaps(w, v.workspace)
    && (v.seen == Swaps(w, v.workspace) ==> Head(w, v.workspace) == Some(v.after))
    && (v.seen < Swaps(w, v.workspace) && !v.notified ==> Owed(w, v.workspace))
  }

  ghost predicate SleepersOk(w: World) {
    forall x :: At(w, x, Asleep) ==> SleeperOk(w, w.waiters[x])
  }

  ghost predicate Inv(w: World) {
    Findable(w) && UniqueEntries(w) && SleepersOk(w)
  }

  lemma OnlyOne<T>(s: set<T>, a: T, b: T)
    requires |s| <= 1 && a in s && b in s
    ensures a == b
  {
    if a != b {
      SubsetIsSmaller({a, b}, s);
    }
  }

  lemma NotEmpty<T>(s: set<T>, a: T)
    requires a in s
    ensures |s| >= 1
  {
  }

  /** The drop check removes the entry exactly when nobody else holds the
      notifier. */
  lemma DropRemovesIffLast(w: World, x: WaiterId)
    requires Findable(w) && UniqueEntries(w) && At(w, x, Leaving)
    ensures var v := w.waiters[x];
            RemovesEntry(w, v) <==> forall y :: y in w.waiters && Holds(w.waiters[y], v.notifier) ==> y == x
  {
    var v := w.waiters[x];
    var entries, holders := Entries(w, v.notifier), Holders(w, v.notifier);
    assert v.workspace in entries && x in holders;
    NotEmpty(entries, v.workspace);
    NotEmpty(holders, x);
    if |entries| > 1 {
      SomeOther(entries, v.workspace);
    }
    if RemovesEntry(w, v) {
      forall y | y in w.waiters && Holds(w.waiters[y], v.notifier)
        ensures y == x
      {
        OnlyOne(holders, x, y);
      }
    } else {
      SomeOther(holders, x);
    }
  }

  lemma SomeOther<T>(s: set<T>, a: T)
    requires a in s && |s| > 1
    ensures exists b :: b in s && b != a
  {
    if forall b :: b in s ==> b == a {
      SubsetIsSmaller(s, {a});
    }
  }

  /** No two workspaces share a notifier. */
  ghost predicate UniqueEntries(w: World) {
    && (forall a, b :: a in w.headNotify && b in w.headNotify && w.headNotify[a] == w.headNotify[b] ==> a == b)
    && (forall a :: a in w.headNotify ==> w.headNotify[a] < w.next)
  }

  lemma DropKeepsFindable(w: World, x: WaiterId)
    requires Findable(w) && UniqueEntries(w) && At(w, x, Leaving)
    ensures Findable(DropChecking(w, x)) && UniqueEntries(DropChecking(w, x))
  {
    DropRemovesIffLast(w, x);
  }

  lemma RegisterKeepsFindable(w: World, x: WaiterId)
    requires Findable(w) && UniqueEntries(w) && At(w, x, Checked)
    ensures Findable(Registering(w, x)) && UniqueEntries(Registering(w, x))
  {
  }

  lemma NextKeepsFindable(w: World, e: Event)
    requires Findable(w) && UniqueEntries(w) && Can(w, e)
    ensures Findable(Next(w, e)) && UniqueEntries(Next(w, e))
  {
    match e
    case Register(x) => RegisterKeepsFindable(w, x);
    case DropCheck(x) => DropKeepsFindable(w, x);
    case Notify(s) => NotifyKeepsFindable(w, s);
    case _ =>
  }

  lemma NotifyKeepsFindable(w: World, s: SwapperId)
    requires Findable(w) && UniqueEntries(w) && Can(w, Notify(s))
    ensures Findable(Notifying(w, s)) && UniqueEntries(Notifying(w, s))
  {
  }

  lemma SwapKeepsSleepers(w: World, s: SwapperId, ws: Workspace, expected: Option<Id>, to: Id)
    requires SleepersOk(w) && s !in w.swappers
    ensures SleepersOk(Swapping(w, s, ws, expected, to))
  {
    var w' := Swapping(w, s, ws, expected, to);
    forall x | At(w', x, Asleep)
      ensures SleeperOk(w', w'.waiters[x])
    {
      var v := w.waiters[x];
      assert At(w, x, Asleep);
      if Owed(w, v.workspace) {
        var t :| t in w.swappers && w.swappers[t].pending && w.swappers[t].workspace == v.workspace;
        assert t in w'.swappers && w'.swappers[t].pending;
      }
      if v.workspace == ws && Head(w, ws) == expected {
        assert s in w'.swappers && w'.swappers[s].pending;
      }
    }
  }

  lemma NotifyKeepsSleepers(w: World, s: SwapperId)
    requires Inv(w) && Can(w, Notify(s))
    ensures SleepersOk(Notifying(w, s))
  {
    var w' := Notifying(w, s);
    var ws := w.swappers[s].workspace;
    forall x | At(w', x, Asleep)
      ensures SleeperOk(w', w'.waiters[x])
    {
      var v := w.waiters[x];
      assert At(w, x, Asleep);
      if v.workspace != ws && Owed(w, v.workspace) {
        var t :| t in w.swappers && w.swappers[t].pending && w.swappers[t].workspace == v.workspace;
        assert t in w'.swappers && w'.swappers[t].pending;
      }
    }
  }

  /** A step that concerns one waiter only. */
  ghost predicate MovesOne(w: World, w': World, x: WaiterId) {
    && w'.heads == w.heads && w'.swaps == w.swaps && w'.swappers == w.swappers
    && w'.waiters.Keys == w.waiters.Keys + {x}
    && (forall y :: y in w.waiters && y != x ==> w'.waiters[y] == w.waiters[y])
  }

  lemma OneMoveKeepsSleepers(w: World, w': World, x: WaiterId)
    requires SleepersOk(w) && MovesOne(w, w', x)
    requires At(w', x, Asleep) ==> SleeperOk(w, w'.waiters[x])
    ensures SleepersOk(w')
  {
    forall y | At(w', y, Asleep)
      ensures SleeperOk(w', w'.waiters[y])
    {
      assert y == x || At(w, y, Asleep);
      assert SleeperOk(w, w'.waiters[y]);
      assert Owed(w, w'.waiters[y].workspace) ==> Owed(w', w'.waiters[y].workspace);
    }
  }

  lemma NextMovesOne(w: World, e: Event)
    requires Can(w, e) && !e.Swap? && !e.Notify?
    ensures MovesOne(w, Next(w, e), e.w)
    ensures At(Next(w, e), e.w, Asleep) ==> e.Recheck? && SleeperOk(w, Next(w, e).waiters[e.w])
  {
    match e
    case Register(x) => RegisterMovesOne(w, x);
    case DropCheck(x) => DropMovesOne(w, x);
    case _ =>
  }

  lemma RegisterMovesOne(w: World, x: WaiterId)
    requires At(w, x, Checked)
    ensures MovesOne(w, Registering(w, x), x) && At(Registering(w, x), x, Registered)
  {
  }

  lemma DropMovesOne(w: World, x: WaiterId)
    requires At(w, x, Leaving)
    ensures MovesOne(w, DropChecking(w, x), x) && At(DropChecking(w, x), x, Dropping)
  {
  }

  lemma NextKeepsSleepers(w: World, e: Event)
    requires Inv(w) && Can(w, e)
    ensures SleepersOk(Next(w, e))
  {
    match e
    case Swap(s, ws, expected, to) => SwapKeepsSleepers(w, s, ws, expected, to);
    case Notify(s) => NotifyKeepsSleepers(w, s);
    case _ =>
      NextMovesOne(w, e);
      OneMoveKeepsSleepers(w, Next(w, e), e.w);
  }

  lemma {:induction false} RunKeepsInv(w: World, es: seq<Event>)
    requires Inv(w)
    ensures Inv(Exec(w, es))
    decreases |es|
  {
    if es != [] {
      var before, e := es[..|es| - 1], es[|es| - 1];
      RunKeepsInv(w, before);
      if Can(Exec(w, before), e) {
        NextKeepsFindable(Exec(w, before), e);
        NextKeepsSleepers(Exec(w, before), e);
      }
    }
  }

  // ----- no lost wakeup

  /** In every reachable world a waiter asleep on a head that has moved is
      notified already, or some swapper has still to notify its workspace. */
  lemma SleeperOnMovedHead(init: World, es: seq<Event>, x: WaiterId)
    requires Init(init) && At(Exec(init, es), x, Asleep)
    requires var w := Exec(init, es);
             Head(w, w.waiters[x].workspace) != Some(w.waiters[x].after)
    ensures var w := Exec(init, es);
            w.waiters[x].notified || Owed(w, w.waiters[x].workspace)
  {
    RunKeepsInv(init, es);
  }

  /** `x` has left its sleep or has been told, unless `s` is still to notify. */
  ghost predicate Covered(w: World, x: WaiterId, s: SwapperId, ws: Workspace) {
    && x in w.waiters && w.waiters[x].workspace == ws
    && s in w.swappers && w.swappers[s].workspace == ws
    && (w.waiters[x].stage.Asleep? ==> w.waiters[x].notified || w.swappers[s].pending)
    && !w.waiters[x].stage.Checked? && !w.waiters[x].stage.Registered? && !w.waiters[x].stage.Enabled?
  }

  lemma NextKeepsCovered(w: World, e: Event, x: WaiterId, s: SwapperId, ws: Workspace)
    requires Inv(w) && Can(w, e) && Covered(w, x, s, ws)
    ensures Covered(Next(w, e), x, s, ws)
  {
    match e
    case Swap(_, _, _, _) =>
    case Notify(t) => NotifyKeepsCovered(w, t, x, s, ws);
    case _ =>
      NextMovesOne(w, e);
      if e.w == x {
        OwnMoveKeepsCovered(w, e, s, ws);
      }
  }

  lemma NotifyKeepsCovered(w: World, t: SwapperId, x: WaiterId, s: SwapperId, ws: Workspace)
    requires Inv(w) && Can(w, Notify(t)) && Covered(w, x, s, ws)
    ensures Covered(Notifying(w, t), x, s, ws)
  {
  }

  lemma OwnMoveKeepsCovered(w: World, e: Event, s: SwapperId, ws: Workspace)
    requires Can(w, e) && !e.Swap? && !e.Notify? && Covered(w, e.w, s, ws)
    ensures Covered(Next(w, e), e.w, s, ws)
  {
  }

  lemma {:induction false} RunKeepsCovered(w: World, es: seq<Event>, x: WaiterId, s: SwapperId, ws: Workspace)
    requires Inv(w) && Covered(w, x, s, ws)
    ensures Covered(Exec(w, es), x, s, ws)
    decreases |es|
  {
    if es != [] {
      var before, e := es[..|es| - 1], es[|es| - 1];
      RunKeepsCovered(w, before, x, s, ws);
      RunKeepsInv(w, before);
      if Can(Exec(w, before), e) {
        NextKeepsCovered(Exec(w, before), e, x, s, ws);
      }
    }
  }

  lemma {:induction false} ExecConcat(w: World, a: seq<Event>, b: seq<Event>)
    ensures Exec(w, a + b) == Exec(Exec(w, a), b)
    decreases |b|
  {
    if b == [] {
      assert a + b == a;
    } else {
      assert (a + b)[..|a + b| - 1] == a + b[..|b| - 1] && (a + b)[|a + b| - 1] == b[|b| - 1];
      ExecConcat(w, a, b[..|b| - 1]);
    }
  }

  /** Once the swapper that moved the head under a sleeper has run its
      notify, the sleeper can wake, whatever else happened in between. */
  lemma NoLostWakeup(init: World, before: seq<Event>, after: seq<Event>, x: WaiterId, s: SwapperId)
    requires Init(init)
    requires var w := Exec(init, before);
             && At(w, x, Asleep)
             && s in w.swappers && w.swappers[s].pending && w.swappers[s].workspace == w.waiters[x].workspace
    requires var w := Exec(init, before + after);
             s in w.swappers && !w.swappers[s].pending
    ensures At(Exec(init, before + after), x, Asleep) ==> Can(Exec(init, before + after), Wake(x))
  {
    var w := Exec(init, before);
    RunKeepsInv(init, before);
    RunKeepsCovered(w, after, x, s, w.waiters[x].workspace);
    ExecConcat(init, before, after);
  }

  /** In every reachable world a notification reaches exactly the requests
      that listen for that workspace, asleep or about to be, and changes
      nothing else about any request. */
  lemma NotifyReachesWorkspace(init: World, es: seq<Event>, s: SwapperId, x: WaiterId)
    requires Init(init) && Can(Exec(init, es), Notify(s)) && x in Exec(init, es).waiters
    ensures var w := Exec(init, es);
            var w', v := Step(w, Notify(s)), w.waiters[x];
            var listens := v.workspace == w.swappers[s].workspace && (v.stage.Enabled? || v.stage.Asleep?);
            && w'.waiters.Keys == w.waiters.Keys && w'.waiters[x] == v.(notified := v.notified || listens)
            && w'.heads == w.heads && w'.headNotify == w.headNotify && !w'.swappers[s].pending
  {
    RunKeepsInv(init, es);
  }

  /** A woken waiter answers with the head of that moment; with no swapper
      in between, a moved head is what it reports. */
  lemma QuietSleeperCanWake(init: World, es: seq<Event>, x: WaiterId)
    requires Init(init) && At(Exec(init, es), x, Asleep)
    requires var w := Exec(init, es);
             && Head(w, w.waiters[x].workspace) != Some(w.waiters[x].after)
             && forall s :: s in w.swappers ==> !w.swappers[s].pending
    ensures var w := Exec(init, es);
            && Can(w, Wake(x))
            && Step(w, Wake(x)).waiters[x].answer == Some(Head(w, w.waiters[x].workspace))
  {
    SleeperOnMovedHead(init, es, x);
  }

  /** Dropping one waiter never takes away a notifier that another waiter is
      registered on. */
  lemma DropSparesOthers(init: World, es: seq<Event>, x: WaiterId, y: WaiterId)
    requires Init(init) && At(Exec(init, es), x, Leaving) && x != y
    requires y in Exec(init, es).waiters && IsRegistered(Exec(init, es).waiters[y])
    ensures var w' := Step(Exec(init, es), DropCheck(x));
            var v := Exec(init, es).waiters[y];
            w'.waiters[y] == v && v.workspace in w'.headNotify && w'.headNotify[v.workspace] == v.notifier
  {
    RunKeepsInv(init, es);
    DropKeepsFindable(Exec(init, es), x);
  }

  /** Two overlapping drops leave the entry behind: each still sees the
      other's reference. */
  lemma OverlappingDropsLeaveEntry(w: World, x: WaiterId, y: WaiterId)
    requires Inv(w) && x != y && At(w, x, Leaving) && At(w, y, Leaving)
    requires w.waiters[x].workspace == w.waiters[y].workspace
    ensures w.waiters[x].workspace in Exec(w, [DropCheck(x), DropCheck(y), Release(x), Release(y)]).headNotify
  {
    var w1 := FirstDropKeepsEntry(w, x, y);
    NextKeepsFindable(w, DropCheck(x));
    var w2 := SecondDropKeepsEntry(w1, y, x);
    ReleaseKeepsEntries(w2, x);
    ReleaseKeepsEntries(Step(w2, Release(x)), y);
    ExecFour(w, DropCheck(x), DropCheck(y), Release(x), Release(y));
  }

  lemma ReleaseKeepsEntries(w: World, x: WaiterId)
    ensures Step(w, Release(x)).headNotify == w.headNotify
  {
  }

  lemma ExecFour(w: World, a: Event, b: Event, c: Event, d: Event)
    ensures Exec(w, [a, b, c, d]) == Step(Step(Step(Step(w, a), b), c), d)
  {
    assert [a, b, c, d] == [a, b, c] + [d] && [a, b, c] == [a, b] + [c] && [a, b] == [a] + [b] && [a] == [] + [a];
    ExecOne(w, [a, b, c], d);
    ExecOne(w, [a, b], c);
    ExecOne(w, [a], b);
    ExecOne(w, [], a);
  }

  lemma FirstDropKeepsEntry(w: World, x: WaiterId, y: WaiterId) returns (w1: World)
    requires Inv(w) && x != y && At(w, x, Leaving) && At(w, y, Leaving)
    requires w.waiters[x].workspace == w.waiters[y].workspace
    ensures w1 == Step(w, DropCheck(x)) && w1.headNotify == w.headNotify
    ensures w1.waiters == w.waiters[x := w.waiters[x].(stage := Dropping)]
    ensures w.waiters[x].workspace in w.headNotify && w.waiters[x].notifier == w.waiters[y].notifier
  {
    DropRemovesIffLast(w, x);
    assert Holds(w.waiters[y], w.waiters[x].notifier);
    w1 := Step(w, DropCheck(x));
  }

  lemma SecondDropKeepsEntry(w: World, y: WaiterId, x: WaiterId) returns (w1: World)
    requires Findable(w) && UniqueEntries(w) && x != y && At(w, y, Leaving) && At(w, x, Dropping)
    requires w.waiters[x].notifier == w.waiters[y].notifier
    ensures w1 == Step(w, DropCheck(y)) && w1.headNotify == w.headNotify
  {
    DropRemovesIffLast(w, y);
    assert Holds(w.waiters[x], w.waiters[y].notifier);
    w1 := Step(w, DropCheck(y));
  }

  /** `t` is `w` with waiter `x` alone moved to a stage; heads stay. */
  ghost predicate Moved(w: World, t: World, x: WaiterId, stage: Stage, ws: Workspace, after: Id) {
    && At(t, x, stage) && t.waiters[x].workspace == ws && t.waiters[x].after == after && t.heads == w.heads
    && (forall y :: y in w.waiters && y != x ==> y in t.waiters && t.waiters[y] == w.waiters[y])
    && (forall y :: y in t.waiters ==> y == x || y in w.waiters)
  }

  lemma Arrives(w: World, x: WaiterId, ws: Workspace, after: Id)
    requires x !in w.waiters && Head(w, ws) == Some(after)
    ensures Moved(w, Step(Step(w, Arrive(x, ws, after, Some(1))), Register(x)), x, Registered, ws, after)
  {
    var w1 := Step(w, Arrive(x, ws, after, Some(1)));
    assert At(w1, x, Checked);
  }

  lemma FallsAsleep(w: World, x: WaiterId, ws: Workspace, after: Id)
    requires At(w, x, Registered) && w.waiters[x].workspace == ws && w.waiters[x].after == after
    requires Head(w, ws) == Some(after)
    ensures Moved(w, Step(Step(w, Enable(x)), Recheck(x)), x, Asleep, ws, after)
  {
    var w1 := Step(w, Enable(x));
    assert At(w1, x, Enabled) && Head(w1, ws) == Some(after);
  }

  /** One waiter on its own arrives, sleeps and times out. */
  lemma WaiterLeaves(w: World, x: WaiterId, ws: Workspace, after: Id) returns (es: seq<Event>)
    requires x !in w.waiters && Head(w, ws) == Some(after)
    ensures Moved(w, Exec(w, es), x, Leaving, ws, after)
  {
    var four := [Arrive(x, ws, after, Some(1)), Register(x), Enable(x), Recheck(x)];
    es := four + [Timeout(x)];
    Arrives(w, x, ws, after);
    var w2 := Step(Step(w, Arrive(x, ws, after, Some(1))), Register(x));
    FallsAsleep(w2, x, ws, after);
    ExecFour(w, Arrive(x, ws, after, Some(1)), Register(x), Enable(x), Recheck(x));
    ExecOne(w, four, Timeout(x));
  }

  /** From a fresh hub two waiters can leave together, and then nobody waits
      while their entry is still there. */
  lemma EntryCanBeLeftBehind(w: World, x: WaiterId, y: WaiterId, ws: Workspace, after: Id) returns (es: seq<Event>)
    requires Init(w) && x != y && Head(w, ws) == Some(after)
    ensures var t := Exec(w, es);
            && ws in t.headNotify && At(t, x, Done) && At(t, y, Done)
            && (forall z :: z in t.waiters ==> t.waiters[z].stage.Done?)
  {
    var a := WaiterLeaves(w, x, ws, after);
    var b := WaiterLeaves(Exec(w, a), y, ws, after);
    ExecConcat(w, a, b);
    RunKeepsInv(w, a + b);
    var t := Exec(w, a + b);
    var drops := [DropCheck(x), DropCheck(y), Release(x), Release(y)];
    OverlappingDropsLeaveEntry(t, x, y);
    DropsFinish(t, x, y);
    ExecConcat(w, a + b, drops);
    es := a + b + drops;
  }

  lemma DropsFinish(w: World, x: WaiterId, y: WaiterId)
    requires x != y && At(w, x, Leaving) && At(w, y, Leaving)
    requires forall z :: z in w.waiters ==> z == x || z == y
    ensures var t := Exec(w, [DropCheck(x), DropCheck(y), Release(x), Release(y)]);
            && At(t, x, Done) && At(t, y, Done) && (forall z :: z in t.waiters ==> t.waiters[z].stage.Done?)
  {
    DropMoves(w, x);
    var w1 := Step(w, DropCheck(x));
    DropMoves(w1, y);
    var w2 := Step(w1, DropCheck(y));
    ReleaseMoves(w2, x);
    ReleaseMoves(Step(w2, Release(x)), y);
    ExecFour(w, DropCheck(x), DropCheck(y), Release(x), Release(y));
  }

  lemma DropMoves(w: World, x: WaiterId)
    requires At(w, x, Leaving)
    ensures Step(w, DropCheck(x)).waiters == w.waiters[x := w.waiters[x].(stage := Dropping)]
  {
  }

  lemma ReleaseMoves(w: World, x: WaiterId)
    requires At(w, x, Dropping)
    ensures Step(w, Release(x)).waiters == w.waiters[x := w.waiters[x].(stage := Done)]
  {
  }

  // ----- the request, step by step

  ghost predicate WasHead(w: World, trace: seq<Event>, ws: Workspace, head: Option<Id>) {
    exists k :: 0 <= k <= |trace| && Head(Exec(w, trace[..k]), ws) == head
  }

  lemma WasHeadNow(w: World, trace: seq<Event>, ws: Workspace)
    ensures WasHead(w, trace, ws, Head(Exec(w, trace), ws))
  {
    assert trace[..|trace|] == trace;
  }

  lemma WasHeadGrows(w: World, trace: seq<Event>, more: seq<Event>, ws: Workspace, head: Option<Id>)
    requires WasHead(w, trace, ws, head)
    ensures WasHead(w, trace + more, ws, head)
  {
    var k :| 0 <= k <= |trace| && Head(Exec(w, trace[..k]), ws) == head;
    assert (trace + more)[..k] == trace[..k];
  }

  lemma ExecOne(w: World, trace: seq<Event>, e: Event)
    ensures Exec(w, trace + [e]) == Step(Exec(w, trace), e)
  {
    assert (trace + [e])[..|trace|] == trace;
  }

  /** None of the events is a step of waiter `x`. */
  predicate Foreign(es: seq<Event>, x: WaiterId) {
    forall i :: 0 <= i < |es| ==> es[i].Swap? || es[i].Notify? || es[i].w != x
  }

  /** What others may change about `x`: only the notified mark. */
  ghost predicate Untouched(w: World, w': World, x: WaiterId) {
    && x in w.waiters && x in w'.waiters
    && (w'.waiters[x] == w.waiters[x] || w'.waiters[x] == w.waiters[x].(notified := true))
  }

  lemma ForeignStep(w: World, e: Event, x: WaiterId)
    requires x in w.waiters && Foreign([e], x)
    ensures Untouched(w, Step(w, e), x)
  {
    assert [e][0] == e;
    if Can(w, e) && !e.Swap? && !e.Notify? {
      NextMovesOne(w, e);
    }
  }

  class LocalHub {
    var heads: map<Workspace, Id>
    var swaps: map<Workspace, nat>
    var headNotify: map<Workspace, Notifier>
    var next: Notifier
    var waiters: map<WaiterId, Waiter>
    var swappers: map<SwapperId, Swapper>

    function State(): World
      reads this
    {
      World(heads, swaps, headNotify, next, waiters, swappers)
    }

    method ReadHead(ws: Workspace) returns (head: Option<Id>)
      ensures head == Head(State(), ws)
    {
      head := if ws in heads then Some(heads[ws]) else None;
    }

    /** Clones the notifier of the workspace, creating it when there is none. */
    method RegisterWaiter(x: WaiterId)
      requires At(State(), x, Checked)
      modifies this
      ensures State() == Step(old(State()), Register(x))
    {
      var v := waiters[x];
      if v.workspace !in headNotify {
        headNotify, next := headNotify[v.workspace := next], next + 1;
      }
      waiters := waiters[x := v.(stage := Registered, notifier := headNotify[v.workspace])];
    }

    /** Counts the references to a notifier. */
    method CountReferences(n: Notifier) returns (count: nat)
      ensures count == StrongCount(State(), n)
    {
      var entries := set ws | ws in headNotify && headNotify[ws] == n;
      var holders := set x | x in waiters && Holds(waiters[x], n);
      assert entries == Entries(State(), n) && holders == Holders(State(), n);
      count := |entries| + |holders|;
    }

    /** The check a registration makes as it is dropped, under the lock. */
    method CheckDrop(x: WaiterId)
      requires At(State(), x, Leaving)
      modifies this
      ensures State() == Step(old(State()), DropCheck(x))
    {
      var v := waiters[x];
      var count := CountReferences(v.notifier);
      if v.workspace in headNotify && headNotify[v.workspace] == v.notifier && count == 2 {
        headNotify := headNotify - {v.workspace};
      }
      waiters := waiters[x := v.(stage := Dropping)];
    }

    /** Marks every listener of the workspace's notifier. */
    method NotifyHeadWaiters(s: SwapperId)
      requires Can(State(), Notify(s))
      modifies this
      ensures State() == Step(old(State()), Notify(s))
    {
      var ws := swappers[s].workspace;
      swappers := swappers[s := Swapper(ws, false)];
      if ws in headNotify {
        var n := headNotify[ws];
        ghost var before := waiters;
        var left := waiters.Keys;
        while left != {}
          invariant left <= waiters.Keys == before.Keys
          invariant swappers == old(swappers)[s := Swapper(ws, false)] && heads == old(heads) && swaps == old(swaps)
          invariant headNotify == old(headNotify) && next == old(next)
          invariant forall x :: x in waiters ==>
                      waiters[x] == if x in left then before[x] else WakeAll(before, n)[x]
          decreases left
        {
          var x := TakeAny(left);
          if Listens(waiters[x], n) {
            waiters := waiters[x := waiters[x].(notified := true)];
          }
          left := left - {x};
        }
        assert waiters == WakeAll(before, n);
      }
    }

    /** What everybody else does between two steps of waiter `x`. */
    method Meanwhile(x: WaiterId, es: seq<Event>)
      requires x in waiters && Foreign(es, x)
      modifies this
      ensures State() == Exec(old(State()), es) && Untouched(old(State()), State(), x)
    {
      for i := 0 to |es|
        invariant State() == Exec(old(State()), es[..i])
        invariant Untouched(old(State()), State(), x)
      {
        ExecOne(old(State()), es[..i], es[i]);
        assert es[..i + 1] == es[..i] + [es[i]];
        ForeignStep(State(), es[i], x);
        Become(Step(State(), es[i]));
      }
      assert es[..|es|] == es;
    }

    method Become(w: World)
      modifies this
      ensures State() == w
    {
      heads, swaps, headNotify, next := w.heads, w.swaps, w.headNotify, w.next;
      waiters, swappers := w.waiters, w.swappers;
    }

    /** One step of the world after `trace`. */
    method Take(e: Event, ghost start: World, ghost trace: seq<Event>)
      requires State() == Exec(start, trace)
      modifies this
      ensures State() == Step(old(State()), e) == Exec(start, trace + [e])
    {
      ExecOne(start, trace, e);
      Become(Step(State(), e));
    }

    method Interleave(x: WaiterId, es: seq<Event>, ghost start: World, ghost trace: seq<Event>)
      requires x in waiters && Foreign(es, x) && State() == Exec(start, trace)
      modifies this
      ensures State() == Exec(start, trace + es) && Untouched(old(State()), State(), x)
    {
      ExecConcat(start, trace, es);
      Meanwhile(x, es);
    }

    /** `x` still asks for the same thing. */
    twostate predicate SameRequest(x: WaiterId)
      requires old(x in waiters)
      reads this
    {
      x in waiters && waiters[x].workspace == old(waiters[x].workspace) && waiters[x].after == old(waiters[x].after)
    }

    method RegisterThen(x: WaiterId, es: seq<Event>, ghost start: World, ghost before: seq<Event>)
      requires At(State(), x, Checked) && Foreign(es, x) && State() == Exec(start, before)
      modifies this
      ensures State() == Exec(start, before + [Register(x)] + es)
      ensures SameRequest(x) && At(State(), x, Registered)
    {
      RegisterNow(x, start, before);
      Interleave(x, es, start, before + [Register(x)]);
    }

    method RegisterNow(x: WaiterId, ghost start: World, ghost before: seq<Event>)
      requires At(State(), x, Checked) && State() == Exec(start, before)
      modifies this
      ensures State() == Exec(start, before + [Register(x)])
      ensures SameRequest(x) && At(State(), x, Registered)
    {
      ExecOne(start, before, Register(x));
      RegisterWaiter(x);
    }

    method RegisterAndEnable(x: WaiterId, es: seq<Event>, ghost start: World, ghost before: seq<Event>)
      returns (ghost trace: seq<Event>)
      requires At(State(), x, Checked) && Foreign(es, x) && State() == Exec(start, before)
      modifies this
      ensures before <= trace && State() == Exec(start, trace)
      ensures SameRequest(x) && At(State(), x, Enabled)
    {
      RegisterThen(x, es, start, before);
      trace := before + [Register(x)] + es;
      Take(Enable(x), start, trace);
      trace := trace + [Enable(x)];
    }

    /** The second read, once the notification is enabled. */
    method RecheckHead(x: WaiterId, es: seq<Event>, ghost start: World, ghost before: seq<Event>)
      returns (ghost trace: seq<Event>)
      requires At(State(), x, Enabled) && Foreign(es, x) && State() == Exec(start, before)
      modifies this
      ensures before <= trace && State() == Exec(start, trace) && SameRequest(x)
      ensures waiters[x].stage.Asleep? || waiters[x].stage.Leaving?
      ensures waiters[x].stage.Leaving? ==> waiters[x].answer == Some(Head(State(), waiters[x].workspace))
    {
      Interleave(x, es, start, before);
      trace := before + es;
      Take(Recheck(x), start, trace);
      trace := trace + [Recheck(x)];
    }

    /** Sleeps; answers with the head when woken, with the awaited one when
        the time is up. */
    method Sleep(x: WaiterId, es: seq<Event>, ghost start: World, ghost before: seq<Event>)
      returns (ghost trace: seq<Event>)
      requires At(State(), x, Asleep) && Foreign(es, x) && State() == Exec(start, before)
      modifies this
      ensures before + es <= trace && State() == Exec(start, trace) && At(State(), x, Leaving)
      ensures EndsSleep(Exec(start, before + es), x, old(waiters[x].workspace), old(waiters[x].after), waiters[x].answer)
      ensures Head(State(), old(waiters[x].workspace)) == Head(Exec(start, before + es), old(waiters[x].workspace))
    {
      Interleave(x, es, start, before);
      var e := if waiters[x].notified then Wake(x) else Timeout(x);
      EndsWith(State(), x, e);
      Take(e, start, before + es);
      trace := before + es + [e];
    }

    /** From the first read to the answer. */
    method WaitForMove(
      x: WaiterId, ws: Workspace, after: Id, others: seq<seq<Event>>, ghost start: World, ghost before: seq<Event>)
      returns (ghost trace: seq<Event>, ghost slept: Option<seq<Event>>)
      requires At(State(), x, Checked) && waiters[x].workspace == ws && waiters[x].after == after
      requires |others| == 5 && forall i :: 0 <= i < 5 ==> Foreign(others[i], x)
      requires State() == Exec(start, before) && WasHead(start, before, ws, Some(after))
      modifies this
      ensures State() == Exec(start, trace) && At(State(), x, Leaving)
      ensures waiters[x].answer.Some? && WasHead(start, trace, ws, waiters[x].answer.value)
      ensures slept.Some? ==>
                slept.value <= trace && EndsSleep(Exec(start, slept.value), x, ws, after, waiters[x].answer)
    {
      Interleave(x, others[0], start, before);
      trace := RegisterAndEnable(x, others[1], start, before + others[0]);
      trace := RecheckHead(x, others[2], start, trace);
      slept := None;
      if waiters[x].stage.Asleep? {
        slept := Some(trace + others[3]);
        trace := Sleep(x, others[3], start, trace);
      }
      WasHeadNow(start, trace, ws);
      trace := Longer(start, before, trace, ws, Some(after));
    }

    /**
     * One request, with whatever others do between its steps. It reads the
     * head, registers, reads again, then sleeps until it is notified or its
     * time is up, and drops its registration. Its answer was the head at some
     * moment of the request; a head that differs from the awaited one is
     * answered at once; and a sleeper whose head has moved with nobody left
     * to notify it answers the head of that moment.
     */
    method RequestHeadWithWait(
      x: WaiterId, ws: Workspace, after: Id, waitMs: Option<nat>, others: seq<seq<Event>>)
      returns (answer: Option<Id>, ghost trace: seq<Event>, ghost slept: Option<seq<Event>>)
      requires x !in waiters && |others| == 5 && forall i :: 0 <= i < 5 ==> Foreign(others[i], x)
      modifies this
      ensures State() == Exec(old(State()), trace)
      ensures WasHead(old(State()), trace, ws, answer)
      ensures At(State(), x, Done)
      ensures old(Head(State(), ws)) != Some(after) ==>
                answer == old(Head(State(), ws)) && trace == [Arrive(x, ws, after, waitMs)]
      ensures slept.Some? ==>
                && slept.value <= trace
                && var w := Exec(old(State()), slept.value);
                   && At(w, x, Asleep)
                   && (w.waiters[x].notified ==> answer == Head(w, ws))
                   && (Inv(old(State())) && Head(w, ws) != Some(after) && !Owed(w, ws) ==> answer == Head(w, ws))
    {
      ghost var start := State();
      var current := ReadHead(ws);
      WasHeadNow(start, [], ws);
      Take(Arrive(x, ws, after, waitMs), start, []);
      trace := Longer(start, [], [] + [Arrive(x, ws, after, waitMs)], ws, current);
      slept := None;
      if current != Some(after) || waitMs.None? || waitMs.value == 0 {
        return current, trace, slept;
      }
      trace, slept := WaitForMove(x, ws, after, others, start, trace);
      answer := waiters[x].answer.value;
      if slept.Some? {
        SleptWell(start, slept.value, x, ws, after, answer);
      }
      trace := Finish(x, others[4], start, trace, ws, answer);
    }

    method Finish(
      x: WaiterId, es: seq<Event>, ghost start: World, ghost before: seq<Event>, ghost ws: Workspace, ghost answer: Option<Id>)
      returns (ghost trace: seq<Event>)
      requires At(State(), x, Leaving) && State() == Exec(start, before) && WasHead(start, before, ws, answer)
      requires Foreign(es, x)
      modifies this
      ensures before <= trace && State() == Exec(start, trace) && At(State(), x, Done) && WasHead(start, trace, ws, answer)
    {
      ExecOne(start, before, DropCheck(x));
      DropMoves(State(), x);
      CheckDrop(x);
      trace := ReleaseLater(x, es, start, before + [DropCheck(x)]);
      trace := Longer(start, before, trace, ws, answer);
    }

    method ReleaseLater(x: WaiterId, es: seq<Event>, ghost start: World, ghost before: seq<Event>)
      returns (ghost trace: seq<Event>)
      requires At(State(), x, Dropping) && State() == Exec(start, before) && Foreign(es, x)
      modifies this
      ensures before <= trace && State() == Exec(start, trace) && At(State(), x, Done)
    {
      Interleave(x, es, start, before);
      Take(Release(x), start, before + es);
      trace := before + es + [Release(x)];
    }
  }

  /** At this moment the sleep of `x` ends: woken it answers the head, timed
      out the awaited one. */
  ghost predicate EndsSleep(w: World, x: WaiterId, ws: Workspace, after: Id, answer: Option<Option<Id>>) {
    && At(w, x, Asleep) && w.waiters[x].workspace == ws && w.waiters[x].after == after
    && answer == Some(if w.waiters[x].notified then Head(w, ws) else Some(after))
  }

  lemma EndsWith(w: World, x: WaiterId, e: Event)
    requires At(w, x, Asleep) && e == if w.waiters[x].notified then Wake(x) else Timeout(x)
    ensures At(Step(w, e), x, Leaving) && Step(w, e).heads == w.heads
    ensures EndsSleep(w, x, w.waiters[x].workspace, w.waiters[x].after, Step(w, e).waiters[x].answer)
  {
  }

  lemma SleptWell(start: World, trace: seq<Event>, x: WaiterId, ws: Workspace, after: Id, answer: Option<Id>)
    requires EndsSleep(Exec(start, trace), x, ws, after, Some(answer))
    ensures var w := Exec(start, trace);
            Inv(start) && Head(w, ws) != Some(after) && !Owed(w, ws) ==> answer == Head(w, ws)
  {
    if Inv(start) {
      RunKeepsInv(start, trace);
      var w := Exec(start, trace);
      assert SleeperOk(w, w.waiters[x]);
    }
  }

  /** A longer run still contains the moment. */
  lemma Longer(w: World, trace: seq<Event>, later: seq<Event>, ws: Workspace, head: Option<Id>)
    returns (longer: seq<Event>)
    requires WasHead(w, trace, ws, head) && trace <= later
    ensures longer == later && WasHead(w, longer, ws, head)
  {
    assert later == trace + later[|trace|..];
    WasHeadGrows(w, trace, later[|trace|..], ws, head);
    longer := later;
  }
}
