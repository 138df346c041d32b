/** Three-way reconciliation of the local and the remote file view. */
module Reconcile {
  import opened Base
  import opened Sorting

  type Path = string

  datatype FileState = FileState(path: Path, hash: Id, size: nat, mtime: int, deleted: bool, mode: nat)

  /** File records by path; a record may be a tombstone. */
  type View = map<Path, FileState>

  datatype TreeEntry = TreeEntry(hash: Id, size: nat, mode: nat)

  datatype TreeChange = TreeChange(path: Path, before: Option<TreeEntry>, after: Option<TreeEntry>)

  datatype Response = Response(upload: seq<Path>, download: seq<FileState>, deleteLocal: seq<Path>)

  datatype Reconciliation = Reconciliation(base: View, response: Response)

  // ----- paths in order

  predicate PathLe(a: Path, b: Path) {
    a == [] || (b != [] && (a[0] < b[0] || (a[0] == b[0] && PathLe(a[1..], b[1..]))))
  }

  /** `a` starts like `b` up to `i` and is smaller there. */
  ghost predicate SmallerAt(a: Path, b: Path, i: nat) {
    i < |a| && i < |b| && a[..i] == b[..i] && a[i] < b[i]
  }

  /** The order of strings: a prefix comes first, else the first difference
      decides. */
  lemma {:induction false} PathLeIff(a: Path, b: Path)
    ensures PathLe(a, b) <==> a <= b || exists i: nat :: SmallerAt(a, b, i)
  {
    if a != [] && b != [] {
      var a', b' := a[1..], b[1..];
      PathLeIff(a', b');
      assert a == [a[0]] + a' && b == [b[0]] + b';
      if a[0] < b[0] {
        assert SmallerAt(a, b, 0);
      }
      if a[0] == b[0] {
        forall i: nat
          ensures SmallerAt(a', b', i) <==> SmallerAt(a, b, i + 1)
        {
          SmallerAtShift(a[0], a', b', i);
        }
        assert a <= b <==> a' <= b';
        assert forall i: nat :: SmallerAt(a, b, i) ==> i > 0 && SmallerAt(a', b', i - 1);
      }
    }
  }

  lemma SmallerAtShift(c: char, a: Path, b: Path, i: nat)
    ensures SmallerAt(a, b, i) <==> SmallerAt([c] + a, [c] + b, i + 1)
  {
    if i < |a| && i < |b| {
      assert ([c] + a)[..i + 1] == [c] + a[..i] && ([c] + b)[..i + 1] == [c] + b[..i];
      assert ([c] + a)[..i + 1][1..] == a[..i] && ([c] + b)[..i + 1][1..] == b[..i];
    }
  }

  lemma {:induction false} PathLeTotal(a: Path, b: Path)
    ensures PathLe(a, b) || PathLe(b, a)
  {
    if a != [] && b != [] {
      PathLeTotal(a[1..], b[1..]);
    }
  }

  lemma {:induction false} PathLeTransitive(a: Path, b: Path, c: Path)
    requires PathLe(a, b) && PathLe(b, c)
    ensures PathLe(a, c)
  {
    if a != [] && a[0] == b[0] == c[0] {
      PathLeTransitive(a[1..], b[1..], c[1..]);
    }
  }

  lemma PathLeOrders()
    ensures TotalPreorder(PathLe) && TotalPreorder(ByPath)
  {
    forall x, y
      ensures PathLe(x, y) || PathLe(y, x)
    {
      PathLeTotal(x, y);
    }
    forall x, y, z | PathLe(x, y) && PathLe(y, z)
      ensures PathLe(x, z)
    {
      PathLeTransitive(x, y, z);
    }
  }

  predicate ByPath(a: FileState, b: FileState) {
    PathLe(a.path, b.path)
  }

  // ----- what a view says about a path

  function Live(v: View, p: Path): Option<FileState> {
    if p in v && !v[p].deleted then Some(v[p]) else None
  }

  /** Bytes and executable bit, or nothing. */
  function ContentOf(s: Option<FileState>): Option<(Id, nat)> {
    if s.Some? then Some((s.value.hash, s.value.mode)) else None
  }

  function Content(v: View, p: Path): Option<(Id, nat)> {
    ContentOf(Live(v, p))
  }

  function SameContent(left: Option<FileState>, right: Option<FileState>): (same: bool)
    ensures same <==> ContentOf(left) == ContentOf(right)
  {
    match (left, right)
    case (Some(l), Some(r)) => l.hash == r.hash && l.mode == r.mode
    case (None, None) => true
    case _ => false
  }

  /** Each record carries the path it is filed under. */
  ghost predicate Keyed(v: View) {
    forall p :: p in v ==> v[p].path == p
  }

  // ----- the decision per path

  /** `p` holds a file, not a tombstone. */
  ghost predicate IsFile(v: View, p: Path) {
    p in v && !v[p].deleted
  }

  /** The two sides hold different bytes or modes at `p`, or only one side
      holds a file there. */
  ghost predicate Differ(local: View, remote: View, p: Path) {
    || (IsFile(local, p) && !IsFile(remote, p))
    || (IsFile(remote, p) && !IsFile(local, p))
    || (IsFile(local, p) && IsFile(remote, p)
        && (local[p].hash != remote[p].hash || local[p].mode != remote[p].mode))
  }

  ghost predicate Uploads(lc: set<Path>, rc: set<Path>, local: View, remote: View, p: Path) {
    p in lc && p !in rc && Differ(local, remote, p)
  }

  ghost predicate Downloads(lc: set<Path>, rc: set<Path>, local: View, remote: View, p: Path, s: FileState) {
    p !in lc && p in rc && IsFile(remote, p) && remote[p] == s && Differ(local, remote, p)
  }

  ghost predicate Deletes(lc: set<Path>, rc: set<Path>, local: View, remote: View, p: Path) {
    p !in lc && p in rc && !IsFile(remote, p) && IsFile(local, p)
  }

  /** The response answers exactly for the paths in `done`. */
  ghost predicate Decides(
    r: Response, done: set<Path>, lc: set<Path>, rc: set<Path>, local: View, remote: View)
  {
    && (forall p :: p in r.upload <==> p in done && Uploads(lc, rc, local, remote, p))
    && (forall s :: s in r.download <==> exists p :: p in done && Downloads(lc, rc, local, remote, p, s))
    && (forall p :: p in r.deleteLocal <==> p in done && Deletes(lc, rc, local, remote, p))
  }

  ghost predicate InOrder(r: Response) {
    && Sorted(r.upload, PathLe) && Sorted(r.download, ByPath) && Sorted(r.deleteLocal, PathLe)
    && Distinct(r.upload) && Distinct(r.deleteLocal)
  }

  function Sort(r: Response): Response {
    Response(SortBy(r.upload, PathLe), SortBy(r.download, ByPath), SortBy(r.deleteLocal, PathLe))
  }

  lemma SortKeeps(r: Response, done: set<Path>, lc: set<Path>, rc: set<Path>, local: View, remote: View)
    requires Decides(r, done, lc, rc, local, remote) && Distinct(r.upload) && Distinct(r.deleteLocal)
    ensures Decides(Sort(r), done, lc, rc, local, remote) && InOrder(Sort(r))
    ensures Distinct(r.download) ==> Distinct(Sort(r).download)
  {
    PathLeOrders();
    SortBySorted(r.upload, PathLe);
    SortBySorted(r.download, ByPath);
    SortBySorted(r.deleteLocal, PathLe);
    Rearranged(r.upload, SortBy(r.upload, PathLe));
    Rearranged(r.download, SortBy(r.download, ByPath));
    Rearranged(r.deleteLocal, SortBy(r.deleteLocal, PathLe));
  }

  method ReconcileSets(base: View, localChanged: set<Path>, remoteChanged: set<Path>, local: View, remote: View)
    returns (r: Reconciliation)
    ensures r.base == base && InOrder(r.response) && (Keyed(remote) ==> Distinct(r.response.download))
    ensures Decides(r.response, localChanged + remoteChanged, localChanged, remoteChanged, local, remote)
  {
    var left := localChanged + remoteChanged;
    ghost var all := left;
    var response := Response([], [], []);
    while left != {}
      invariant left <= all
      invariant Decides(response, all - left, localChanged, remoteChanged, local, remote)
      invariant Distinct(response.upload) && Distinct(response.deleteLocal)
      invariant Keyed(remote) ==> Distinct(response.download)
      decreases left
    {
      var path := TakeAny(left);
      ghost var done := all - left;
      response := DecideOne(response, done, localChanged, remoteChanged, local, remote, path);
      left := left - {path};
      assert all - left == done + {path};
    }
    assert all - left == all;
    SortKeeps(response, all, localChanged, remoteChanged, local, remote);
    r := Reconciliation(base, Sort(response));
  }

  method DecideOne(
    response0: Response, ghost done: set<Path>, localChanged: set<Path>, remoteChanged: set<Path>,
    local: View, remote: View, path: Path)
    returns (response: Response)
    requires Decides(response0, done, localChanged, remoteChanged, local, remote) && path !in done
    requires path in localChanged + remoteChanged
    requires Distinct(response0.upload) && Distinct(response0.deleteLocal)
    requires Keyed(remote) ==> Distinct(response0.download)
    ensures Decides(response, done + {path}, localChanged, remoteChanged, local, remote)
    ensures Distinct(response.upload) && Distinct(response.deleteLocal)
    ensures Keyed(remote) ==> Distinct(response.download)
  {
    response := response0;
    var localState, remoteState := Live(local, path), Live(remote, path);
    if SameContent(localState, remoteState) {
      return;
    }
    match (path in localChanged, path in remoteChanged) {
      case (true, false) =>
        response := response.(upload := response.upload + [path]);
      case (false, true) =>
        if remoteState.Some? {
          response := response.(download := response.download + [remoteState.value]);
          DownloadAdded(response0, done, localChanged, remoteChanged, local, remote, path, remoteState.value);
        } else {
          response := response.(deleteLocal := response.deleteLocal + [path]);
        }
      case _ =>
    }
  }

  lemma DownloadAdded(
    r: Response, done: set<Path>, lc: set<Path>, rc: set<Path>, local: View, remote: View, path: Path, s: FileState)
    requires Decides(r, done, lc, rc, local, remote) && Downloads(lc, rc, local, remote, path, s)
    ensures Decides(r.(download := r.download + [s]), done + {path}, lc, rc, local, remote)
    ensures Keyed(remote) && path !in done ==> s !in r.download
  {
    forall x
      ensures x in r.download + [s] <==> exists p :: p in done + {path} && Downloads(lc, rc, local, remote, p, x)
    {
      if x in r.download {
        var p :| p in done && Downloads(lc, rc, local, remote, p, x);
        assert p in done + {path};
      } else if p :| p in done + {path} && Downloads(lc, rc, local, remote, p, x) {
        assert p in done || p == path;
      }
      assert path in done + {path};
    }
  }

  // ----- change lists

  ghost function PathsOf(changes: seq<TreeChange>): set<Path> {
    set c | c in changes :: c.path
  }

  function Recorded(c: TreeChange): FileState
    requires c.before.Some?
  {
    FileState(c.path, c.before.value.hash, c.before.value.size, 0, false, c.before.value.mode)
  }

  /** The agreed records the changes started from; the last change wins. */
  function BaseOf(changes: seq<TreeChange>): View {
    if changes == [] then map[] else
      var c, rest := changes[|changes| - 1], BaseOf(changes[..|changes| - 1]);
      if c.before.Some? then rest[c.path := Recorded(c)] else rest
  }

  ghost predicate StartsAt(changes: seq<TreeChange>, i: int, p: Path) {
    0 <= i < |changes| && changes[i].path == p && changes[i].before.Some?
  }

  ghost predicate LastStart(changes: seq<TreeChange>, i: int, p: Path) {
    StartsAt(changes, i, p) && forall k :: i < k < |changes| ==> !StartsAt(changes, k, p)
  }

  /** The agreed record of `p` is what the last change of `p` that started
      from a file says that file was. */
  ghost predicate RecordsLast(base: View, changes: seq<TreeChange>, p: Path) {
    if p in base then exists i :: LastStart(changes, i, p) && RecordsStart(base[p], changes[i])
    else forall i :: !StartsAt(changes, i, p)
  }

  ghost predicate RecordsStart(f: FileState, c: TreeChange)
    requires c.before.Some?
  {
    var e := c.before.value;
    f.path == c.path && f.hash == e.hash && f.size == e.size && f.mode == e.mode && !f.deleted && f.mtime == 0
  }

  ghost predicate BaseFrom(base: View, changes: seq<TreeChange>) {
    forall p :: RecordsLast(base, changes, p)
  }

  lemma {:induction false} BaseOfRecords(changes: seq<TreeChange>, p: Path)
    ensures RecordsLast(BaseOf(changes), changes, p)
  {
    if changes != [] {
      var n := |changes| - 1;
      BaseOfRecords(changes[..n], p);
      assert changes == changes[..n] + [changes[n]];
      OneMoreChange(BaseOf(changes[..n]), changes[..n], changes[n], p);
    }
  }

  lemma OneMoreChange(base: View, changes: seq<TreeChange>, c: TreeChange, p: Path)
    requires RecordsLast(base, changes, p)
    ensures RecordsLast(if c.before.Some? then base[c.path := Recorded(c)] else base, changes + [c], p)
  {
    var longer, n := changes + [c], |changes|;
    assert forall i :: i != n ==> (StartsAt(longer, i, p) <==> StartsAt(changes, i, p));
    if c.path == p && c.before.Some? {
      assert LastStart(longer, n, p) && RecordsStart(Recorded(c), longer[n]);
    } else if p in base {
      var i :| LastStart(changes, i, p) && RecordsStart(base[p], changes[i]);
      assert LastStart(longer, i, p) && longer[i] == changes[i];
    }
  }

  method CollectPaths(changes: seq<TreeChange>) returns (paths: set<Path>)
    ensures paths == PathsOf(changes)
  {
    paths := {};
    for i := 0 to |changes|
      invariant paths == PathsOf(changes[..i])
    {
      assert changes[..i + 1] == changes[..i] + [changes[i]];
      paths := paths + {changes[i].path};
    }
    assert changes[..|changes|] == changes;
  }

  method ReconcileChanges(localChanges: seq<TreeChange>, remoteChanges: seq<TreeChange>, local: View, remote: View)
    returns (r: Reconciliation)
    ensures r.base == BaseOf(localChanges + remoteChanges) && BaseFrom(r.base, localChanges + remoteChanges)
    ensures InOrder(r.response) && (Keyed(remote) ==> Distinct(r.response.download))
    ensures Decides(r.response, PathsOf(localChanges) + PathsOf(remoteChanges),
                    PathsOf(localChanges), PathsOf(remoteChanges), local, remote)
  {
    var localChanged := CollectPaths(localChanges);
    var remoteChanged := CollectPaths(remoteChanges);
    var changes := localChanges + remoteChanges;
    var base: View := map[];
    for i := 0 to |changes|
      invariant base == BaseOf(changes[..i])
    {
      assert changes[..i + 1][..i] == changes[..i];
      if changes[i].before.Some? {
        base := base[changes[i].path := Recorded(changes[i])];
      }
    }
    assert changes[..|changes|] == changes;
    forall p
      ensures RecordsLast(BaseOf(changes), changes, p)
    {
      BaseOfRecords(changes, p);
    }
    r := ReconcileSets(base, localChanged, remoteChanged, local, remote);
  }

  /** The differ lists exactly the paths whose content differs, each with the
      agreed content it started from. */
  ghost predicate ExactDiff(changes: seq<TreeChange>, base: View, view: View) {
    && (forall p :: p in PathsOf(changes) <==> Content(base, p) != Content(view, p))
    && (forall c :: c in changes ==> StartsFrom(c, base))
  }

  ghost predicate StartsFrom(c: TreeChange, base: View) {
    match c.before
    case None => Content(base, c.path) == None
    case Some(e) => Content(base, c.path) == Some((e.hash, e.mode))
  }

  // ----- the whole operation

  predicate RestoredHub(formatVersion: nat, serverHead: Option<Id>, remote: View) {
    if formatVersion >= 3 then serverHead.None? else remote == map[]
  }

  method LivePaths(v: View) returns (paths: seq<Path>)
    ensures forall p :: p in paths <==> IsFile(v, p)
    ensures Sorted(paths, PathLe) && Distinct(paths)
  {
    paths := [];
    var left := v.Keys;
    while left != {}
      invariant left <= v.Keys
      invariant forall p :: p in paths <==> p !in left && IsFile(v, p)
      invariant Distinct(paths)
      decreases left
    {
      var p := TakeAny(left);
      if !v[p].deleted {
        paths := paths + [p];
      }
      left := left - {p};
    }
    PathLeOrders();
    SortBySorted(paths, PathLe);
    Rearranged(paths, SortBy(paths, PathLe));
    paths := SortBy(paths, PathLe);
  }

  /** The hub came back empty: from format 3 on it then names no head, before
      that it lists nothing. */
  ghost predicate LostItsState(formatVersion: nat, serverHead: Option<Id>, remote: View) {
    (formatVersion >= 3 && serverHead == None) || (formatVersion < 3 && forall p :: p !in remote)
  }

  /** Which of the three ways reconciliation goes, and its outcome. */
  ghost predicate Reconciled(
    r: Reconciliation, agreed: Option<View>, localChanges: seq<TreeChange>, remoteChanges: seq<TreeChange>,
    formatVersion: nat, serverHead: Option<Id>, local: View, remote: View)
  {
    if agreed.None? then
      r.base == map[]
      && Decides(r.response, local.Keys + remote.Keys, local.Keys, remote.Keys, local, remote)
    else if LostItsState(formatVersion, serverHead, remote) && agreed.value != map[] then
      r.base == agreed.value && r.response.download == [] && r.response.deleteLocal == []
      && forall p :: p in r.response.upload <==> IsFile(local, p)
    else
      r.base == BaseOf(localChanges + remoteChanges) && BaseFrom(r.base, localChanges + remoteChanges)
      && Decides(r.response, PathsOf(localChanges) + PathsOf(remoteChanges),
                 PathsOf(localChanges), PathsOf(remoteChanges), local, remote)
  }

  /** `agreed` holds the files of the last synced snapshot, if there is one;
      the change lists are what the differ answers for it. */
  method ReconcileViews(
    agreed: Option<View>, localChanges: seq<TreeChange>, remoteChanges: seq<TreeChange>,
    formatVersion: nat, serverHead: Option<Id>, local: View, remote: View)
    returns (r: Reconciliation)
    ensures InOrder(r.response) && (Keyed(remote) ==> Distinct(r.response.download))
    ensures Reconciled(r, agreed, localChanges, remoteChanges, formatVersion, serverHead, local, remote)
  {
    if agreed.None? {
      r := ReconcileSets(map[], local.Keys, remote.Keys, local, remote);
      return;
    }
    if RestoredHub(formatVersion, serverHead, remote) && agreed.value != map[] {
      var upload := LivePaths(local);
      return Reconciliation(agreed.value, Response(upload, [], []));
    }
    r := ReconcileChanges(localChanges, remoteChanges, local, remote);
  }

  // ----- carrying the response out

  function Fetched(downloads: seq<FileState>, p: Path): Option<FileState> {
    if downloads == [] then None
    else if downloads[0].path == p then Some(downloads[0])
    else Fetched(downloads[1..], p)
  }

  /** The record at `p` once deletions and downloads were carried out. */
  function LocalAfter(local: View, r: Response, p: Path): Option<FileState> {
    if p in r.deleteLocal then None
    else if Fetched(r.download, p).Some? then Fetched(r.download, p)
    else Live(local, p)
  }

  /** An uploaded path publishes the local state, which may be a deletion. */
  function RemoteAfter(local: View, remote: View, r: Response, p: Path): Option<FileState> {
    if p in r.upload then Live(local, p) else Live(remote, p)
  }

  lemma {:induction false} FetchedFinds(downloads: seq<FileState>, p: Path)
    ensures Fetched(downloads, p).Some? ==> Fetched(downloads, p).value in downloads && Fetched(downloads, p).value.path == p
    ensures Fetched(downloads, p).None? ==> forall s :: s in downloads ==> s.path != p
  {
    if downloads != [] && downloads[0].path != p {
      FetchedFinds(downloads[1..], p);
    }
  }

  /** What one path looks like on both sides afterwards. */
  lemma AfterPath(
    r: Response, lc: set<Path>, rc: set<Path>, local: View, remote: View, p: Path)
    requires Keyed(local) && Keyed(remote) && Decides(r, lc + rc, lc, rc, local, remote)
    ensures Uploads(lc, rc, local, remote, p) ==>
              LocalAfter(local, r, p) == Live(local, p) == RemoteAfter(local, remote, r, p)
    ensures p !in lc && p in rc && Content(local, p) != Content(remote, p) ==>
              LocalAfter(local, r, p) == Live(remote, p) == RemoteAfter(local, remote, r, p)
    ensures (p in lc <==> p in rc) || Content(local, p) == Content(remote, p) ==>
              LocalAfter(local, r, p) == Live(local, p) && RemoteAfter(local, remote, r, p) == Live(remote, p)
  {
    FetchedFinds(r.download, p);
    var got := Fetched(r.download, p);
    if got.Some? {
      var q :| q in lc + rc && Downloads(lc, rc, local, remote, q, got.value);
      assert q == p;
    }
    if p !in lc && p in rc && Content(local, p) != Content(remote, p) && Live(remote, p).Some? {
      assert Downloads(lc, rc, local, remote, p, Live(remote, p).value);
      assert Live(remote, p).value in r.download;
    }
  }

  /**
   * Three-way merge: against exact change lists, a path changed on one side
   * only takes that side's content on both; a path changed on both keeps
   * each side's own content.
   */
  function Merge(base: Option<(Id, nat)>, local: Option<(Id, nat)>, remote: Option<(Id, nat)>)
    : (Option<(Id, nat)>, Option<(Id, nat)>)
  {
    if local == base then (remote, remote)
    else if remote == base then (local, local)
    else (local, remote)
  }

  lemma ReconcileIsThreeWayMerge(
    r: Response, base: View, localChanges: seq<TreeChange>, remoteChanges: seq<TreeChange>,
    local: View, remote: View, p: Path)
    requires Keyed(local) && Keyed(remote)
    requires ExactDiff(localChanges, base, local) && ExactDiff(remoteChanges, base, remote)
    requires Decides(r, PathsOf(localChanges) + PathsOf(remoteChanges),
                     PathsOf(localChanges), PathsOf(remoteChanges), local, remote)
    ensures (ContentOf(LocalAfter(local, r, p)), ContentOf(RemoteAfter(local, remote, r, p)))
            == Merge(Content(base, p), Content(local, p), Content(remote, p))
  {
    AfterPath(r, PathsOf(localChanges), PathsOf(remoteChanges), local, remote, p);
  }

  /** The two sides agree afterwards exactly on the paths that were not
      changed differently on both, and those stay as they were. */
  lemma AgreementAfter(
    r: Response, base: View, localChanges: seq<TreeChange>, remoteChanges: seq<TreeChange>,
    local: View, remote: View, p: Path)
    requires Keyed(local) && Keyed(remote)
    requires ExactDiff(localChanges, base, local) && ExactDiff(remoteChanges, base, remote)
    requires Decides(r, PathsOf(localChanges) + PathsOf(remoteChanges),
                     PathsOf(localChanges), PathsOf(remoteChanges), local, remote)
    ensures var b, l, q := Content(base, p), Content(local, p), Content(remote, p);
            ContentOf(LocalAfter(local, r, p)) == ContentOf(RemoteAfter(local, remote, r, p))
            <==> !(l != b && q != b && l != q)
    ensures Content(local, p) != Content(base, p) && Content(remote, p) != Content(base, p) ==>
              LocalAfter(local, r, p) == Live(local, p) && RemoteAfter(local, remote, r, p) == Live(remote, p)
    ensures Content(local, p) != Content(base, p) ==> LocalAfter(local, r, p) == Live(local, p)
    ensures Content(remote, p) != Content(base, p) ==> RemoteAfter(local, remote, r, p) == Live(remote, p)
  {
    AfterPath(r, PathsOf(localChanges), PathsOf(remoteChanges), local, remote, p);
  }

  /** The returned base holds the agreed content of exactly the changed paths
      that were agreed on. */
  lemma {:induction false} BaseOfPrefix(changes: seq<TreeChange>, base: View, p: Path)
    requires forall c :: c in changes ==> StartsFrom(c, base)
    ensures Content(BaseOf(changes), p) == if p in PathsOf(changes) then Content(base, p) else None
    ensures p in BaseOf(changes) <==> Content(BaseOf(changes), p).Some?
  {
    if changes != [] {
      var c, rest := changes[|changes| - 1], changes[..|changes| - 1];
      assert changes == rest + [c];
      BaseOfPrefix(rest, base, p);
      assert StartsFrom(c, base);
      assert PathsOf(changes) == PathsOf(rest) + {c.path};
    }
  }

  lemma BaseIsAgreedContent(
    base: View, localChanges: seq<TreeChange>, remoteChanges: seq<TreeChange>, local: View, remote: View, p: Path)
    requires ExactDiff(localChanges, base, local) && ExactDiff(remoteChanges, base, remote)
    ensures Content(BaseOf(localChanges + remoteChanges), p) ==
            if Content(local, p) == Content(base, p) == Content(remote, p) then None else Content(base, p)
  {
    BaseOfPrefix(localChanges + remoteChanges, base, p);
    assert PathsOf(localChanges + remoteChanges) == PathsOf(localChanges) + PathsOf(remoteChanges);
  }

  /** A restored hub never costs a local file, and gets all of them. */
  lemma RestoredHubIsRefilled(
    r: Reconciliation, agreed: View, localChanges: seq<TreeChange>, remoteChanges: seq<TreeChange>,
    formatVersion: nat, serverHead: Option<Id>, local: View, remote: View, p: Path)
    requires Reconciled(r, Some(agreed), localChanges, remoteChanges, formatVersion, serverHead, local, remote)
    requires LostItsState(formatVersion, serverHead, remote) && agreed != map[]
    ensures LocalAfter(local, r.response, p) == Live(local, p)
    ensures IsFile(local, p) || remote == map[] ==> RemoteAfter(local, remote, r.response, p) == Live(local, p)
  {
  }

  /** With nothing agreed yet, a side wins a path only where the other side
      has no record of it at all: a tombstone counts as a record, so a
      locally deleted file is not fetched again and both sides keep what
      they have. */
  lemma NothingAgreedYet(
    r: Reconciliation, localChanges: seq<TreeChange>, remoteChanges: seq<TreeChange>,
    formatVersion: nat, serverHead: Option<Id>, local: View, remote: View, p: Path)
    requires Keyed(local) && Keyed(remote)
    requires Reconciled(r, None, localChanges, remoteChanges, formatVersion, serverHead, local, remote)
    ensures p in local ==> LocalAfter(local, r.response, p) == Live(local, p)
    ensures p in remote ==> RemoteAfter(local, remote, r.response, p) == Live(remote, p)
    ensures p !in local ==> LocalAfter(local, r.response, p) == Live(remote, p)
    ensures ContentOf(LocalAfter(local, r.response, p)) == ContentOf(RemoteAfter(local, remote, r.response, p))
            <==> !(p in local && p in remote && Content(local, p) != Content(remote, p))
    ensures p !in r.response.deleteLocal
  {
    AfterPath(r.response, local.Keys, remote.Keys, local, remote, p);
    assert !Deletes(local.Keys, remote.Keys, local, remote, p);
  }
}
