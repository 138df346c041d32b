/** Flattening a stored directory closure with an explicit work stack. */
module TreeReader {
  import opened Base
  import opened Trees

  datatype FileState = FileState(path: seq<string>, hash: Id, size: nat, mode: nat)

  datatype ConcurrentEdit = ConcurrentEdit(
    path: seq<string>,
    base: Option<FileState>,
    ours: Option<FileState>,
    theirs: Option<FileState>)

  datatype LoadedTree = LoadedTree(files: map<seq<string>, FileState>, conflicts: seq<ConcurrentEdit>)

  datatype LoadError =
    | TooDeep | Cycle(id: Id) | TooManyObjects | Unreadable(id: Id) | TooMuchWork
    | UnsafePath | PathsTooLong | TooManyPaths

  /** One entry of the unfolded tree at its full path. */
  datatype Item = Item(path: seq<string>, entry: Entry)

  datatype Work = Enter(id: Id, prefix: seq<string>, depth: nat) | Exit(id: Id)

  type Stack = seq<Work>

  /** Sibling names are unique; anything else does not decode. */
  predicate Readable(trees: Store, id: Id) {
    id in trees &&
    forall i, k :: 0 <= i < k < |trees[id].entries| ==> trees[id].entries[i].name != trees[id].entries[k].name
  }

  // ----- what one entry contributes

  function Leg(path: seq<string>, e: Entry, hash: Option<Id>, mode: nat): Option<FileState>
    requires e.kind.Conflict?
  {
    var visible := if e.kind.theirs.Some? then e.kind.theirs
                   else if e.kind.ours.Some? then e.kind.ours else e.kind.base;
    if hash.None? then None
    else Some(FileState(path, hash.value, if hash == visible then e.size else 0, mode))
  }

  function EditOf(i: Item): ConcurrentEdit
    requires i.entry.kind.Conflict?
  {
    var k := i.entry.kind;
    ConcurrentEdit(i.path, Leg(i.path, i.entry, k.base, k.modes.base),
                   Leg(i.path, i.entry, k.ours, k.modes.ours), Leg(i.path, i.entry, k.theirs, k.modes.theirs))
  }

  function FileOf(i: Item): FileState {
    FileState(i.path, i.entry.hash, i.entry.size, i.entry.mode)
  }

  function FilesOf(items: seq<Item>): map<seq<string>, FileState> {
    if items == [] then map[] else
      var last := items[|items| - 1];
      var before := FilesOf(items[..|items| - 1]);
      if last.entry.kind.Dir? then before else before[last.path := FileOf(last)]
  }

  function ConflictsOf(items: seq<Item>): seq<ConcurrentEdit> {
    if items == [] then [] else
      var last := items[|items| - 1];
      ConflictsOf(items[..|items| - 1]) + if last.entry.kind.Conflict? then [EditOf(last)] else []
  }

  /** Length of the joined path, one separator between two names; a name
      counts one per element, as it does when names are sequences of bytes. */
  function PathBytes(path: seq<string>): nat {
    if path == [] then 0
    else if |path| == 1 then |path[0]|
    else |path[0]| + 1 + PathBytes(path[1..])
  }

  /** The joined path, built up a name at a time. */
  function Joined(path: seq<string>): string {
    if path == [] then ""
    else if |path| == 1 then path[0]
    else Joined(path[..|path| - 1]) + "/" + path[|path| - 1]
  }

  lemma {:induction false} PathBytesOfLonger(path: seq<string>, name: string)
    requires path != []
    ensures PathBytes(path + [name]) == PathBytes(path) + 1 + |name|
  {
    var longer := path + [name];
    assert longer[0] == path[0] && longer[1..] == path[1..] + [name];
    if |path| > 1 {
      PathBytesOfLonger(path[1..], name);
    }
  }

  lemma {:induction false} PathBytesIsJoinedLength(path: seq<string>)
    ensures PathBytes(path) == |Joined(path)|
    decreases |path|
  {
    if |path| > 1 {
      var n := |path| - 1;
      assert path == path[..n] + [path[n]];
      PathBytesIsJoinedLength(path[..n]);
      PathBytesOfLonger(path[..n], path[n]);
    }
  }

  function BytesOf(items: seq<Item>): nat {
    if items == [] then 0
    else BytesOf(items[..|items| - 1]) + PathBytes(items[|items| - 1].path)
  }

  function DirCount(items: seq<Item>): nat {
    if items == [] then 0
    else DirCount(items[..|items| - 1]) + if items[|items| - 1].entry.kind.Dir? then 1 else 0
  }

  // ----- the recursive flattening

  /** A directory's own entries, last one first. */
  function Own(entries: seq<Entry>, prefix: seq<string>): (r: seq<Item>)
    ensures |r| == |entries|
  {
    if entries == [] then []
    else Own(entries[1..], prefix) + [Item(prefix + [entries[0].name], entries[0])]
  }

  /** Everything below a directory: its entries, then each subdirectory. */
  function Flat(trees: Store, id: Id, prefix: seq<string>, depth: nat): seq<Item>
    decreases if depth > MAX_TREE_DEPTH then 0 else MAX_TREE_DEPTH + 1 - depth, 1, 0
  {
    if depth > MAX_TREE_DEPTH || id !in trees then []
    else Own(trees[id].entries, prefix) + FlatDirs(trees, trees[id].entries, prefix, depth)
  }

  function FlatDirs(trees: Store, entries: seq<Entry>, prefix: seq<string>, depth: nat): seq<Item>
    requires depth <= MAX_TREE_DEPTH
    decreases MAX_TREE_DEPTH + 1 - depth, 0, |entries|
  {
    if entries == [] then []
    else
      (if entries[0].kind.Dir? then Flat(trees, entries[0].hash, prefix + [entries[0].name], depth + 1) else []) +
      FlatDirs(trees, entries[1..], prefix, depth)
  }

  // ----- the work stack, top first

  function Enters(entries: seq<Entry>, prefix: seq<string>, depth: nat): Stack {
    if entries == [] then [] else FirstEnter(entries[0], prefix, depth) + Enters(entries[1..], prefix, depth)
  }

  /** What the stack still stands for. */
  ghost function FlatStack(trees: Store, stack: Stack): seq<Item> {
    if stack == [] then [] else FlatWork(trees, stack[0]) + FlatStack(trees, stack[1..])
  }

  function FlatWork(trees: Store, w: Work): seq<Item> {
    if w.Enter? then Flat(trees, w.id, w.prefix, w.depth) else []
  }

  lemma FlatStackPush(trees: Store, w: Work, rest: Stack)
    ensures FlatStack(trees, [w] + rest) == FlatWork(trees, w) + FlatStack(trees, rest)
  {
    assert ([w] + rest)[1..] == rest;
  }

  lemma {:induction false} FlatStackConcat(trees: Store, a: Stack, b: Stack)
    ensures FlatStack(trees, a + b) == FlatStack(trees, a) + FlatStack(trees, b)
  {
    if a == [] {
      assert a + b == b;
    } else {
      FlatStackConcat(trees, a[1..], b);
      assert a + b == [a[0]] + (a[1..] + b);
      FlatStackPush(trees, a[0], a[1..] + b);
    }
  }

  function FirstEnter(e: Entry, prefix: seq<string>, depth: nat): Stack {
    if e.kind.Dir? then [Enter(e.hash, prefix + [e.name], depth + 1)] else []
  }

  lemma FlatFirst(trees: Store, entries: seq<Entry>, prefix: seq<string>, depth: nat)
    requires depth <= MAX_TREE_DEPTH && entries != []
    ensures FlatDirs(trees, entries, prefix, depth) ==
            FlatStack(trees, FirstEnter(entries[0], prefix, depth)) + FlatDirs(trees, entries[1..], prefix, depth)
  {
    if entries[0].kind.Dir? {
      var w := FirstEnter(entries[0], prefix, depth)[0];
      assert FirstEnter(entries[0], prefix, depth) == [w] + [];
      FlatStackPush(trees, w, []);
    }
  }

  lemma {:induction false} FlatStackEnters(trees: Store, entries: seq<Entry>, prefix: seq<string>, depth: nat)
    requires depth <= MAX_TREE_DEPTH
    ensures FlatStack(trees, Enters(entries, prefix, depth)) == FlatDirs(trees, entries, prefix, depth)
  {
    if entries != [] {
      FlatStackEnters(trees, entries[1..], prefix, depth);
      FlatFirst(trees, entries, prefix, depth);
      FlatStackConcat(trees, FirstEnter(entries[0], prefix, depth), Enters(entries[1..], prefix, depth));
    }
  }

  /** Ids that are open: the ancestors of whatever is on top, nearest first. */
  ghost function Open(stack: Stack): seq<Id> {
    if stack == [] then []
    else if stack[0].Exit? then [stack[0].id] + Open(stack[1..])
    else Open(stack[1..])
  }

  predicate IsChild(trees: Store, parent: Id, child: Id) {
    parent in trees && child in Children(trees[parent])
  }

  /** `up` climbs from a directory to the root, parent by parent. */
  ghost predicate Climbs(trees: Store, up: seq<Id>, root: Id) {
    && up != []
    && if |up| == 1 then up[0] == root else IsChild(trees, up[1], up[0]) && Climbs(trees, up[1..], root)
  }

  ghost predicate StackOk(trees: Store, root: Id, stack: Stack) {
    stack == [] ||
    (&& StackOk(trees, root, stack[1..])
     && Climbs(trees, [stack[0].id] + Open(stack[1..]), root)
     && (stack[0].Enter? ==> stack[0].depth == |Open(stack[1..])|)
     && (stack[0].Exit? ==> stack[0].id !in Open(stack[1..])))
  }

  /** A directory repeats on a path from the root. */
  ghost predicate Repeats(trees: Store, root: Id, id: Id) {
    exists up, i, k :: Climbs(trees, up, root) && 0 <= i < k < |up| && up[i] == id && up[k] == id
  }

  ghost predicate Below(trees: Store, root: Id, id: Id) {
    exists up :: Climbs(trees, up, root) && up[0] == id
  }

  lemma {:induction false} OpenOfEnters(entries: seq<Entry>, prefix: seq<string>, depth: nat, rest: Stack)
    ensures Open(Enters(entries, prefix, depth) + rest) == Open(rest)
  {
    var stack := Enters(entries, prefix, depth) + rest;
    if entries == [] {
      assert stack == rest;
    } else {
      OpenOfEnters(entries[1..], prefix, depth, rest);
      if entries[0].kind.Dir? {
        assert stack[1..] == Enters(entries[1..], prefix, depth) + rest;
      } else {
        assert stack == Enters(entries[1..], prefix, depth) + rest;
      }
    }
  }

  lemma ClimbsDown(trees: Store, up: seq<Id>, root: Id, c: Id)
    requires Climbs(trees, up, root) && IsChild(trees, up[0], c)
    ensures Climbs(trees, [c] + up, root)
  {
    assert ([c] + up)[1..] == up;
  }

  lemma {:induction false} StackOkEnters(
    trees: Store, root: Id, entries: seq<Entry>, prefix: seq<string>, depth: nat, rest: Stack)
    requires StackOk(trees, root, rest) && rest != [] && rest[0].Exit? && rest[0].id in trees
    requires depth + 1 == |Open(rest)|
    requires forall e :: e in entries && e.kind.Dir? ==> e.hash in Children(trees[rest[0].id])
    ensures StackOk(trees, root, Enters(entries, prefix, depth) + rest)
  {
    var stack := Enters(entries, prefix, depth) + rest;
    if entries == [] {
      assert stack == rest;
    } else {
      StackOkEnters(trees, root, entries[1..], prefix, depth, rest);
      if entries[0].kind.Dir? {
        assert stack[1..] == Enters(entries[1..], prefix, depth) + rest;
        OpenOfEnters(entries[1..], prefix, depth, rest);
        assert Open(rest) == [rest[0].id] + Open(rest[1..]);
        assert entries[0] in entries;
        ClimbsDown(trees, Open(rest), root, entries[0].hash);
      } else {
        assert stack == Enters(entries[1..], prefix, depth) + rest;
      }
    }
  }

  // ----- clean trees

  /** Below `id`, reached through `above`, every directory is readable, none
      repeats on its path, and none is deeper than the limit. */
  ghost predicate Clean(trees: Store, id: Id, above: seq<Id>)
    decreases if |above| > MAX_TREE_DEPTH then 0 else MAX_TREE_DEPTH + 1 - |above|
  {
    && |above| <= MAX_TREE_DEPTH && Readable(trees, id) && id !in above
    && forall c :: c in Children(trees[id]) ==> Clean(trees, c, [id] + above)
  }

  ghost predicate StackClean(trees: Store, stack: Stack) {
    stack == [] ||
    (StackClean(trees, stack[1..]) && (stack[0].Enter? ==> Clean(trees, stack[0].id, Open(stack[1..]))))
  }

  lemma {:induction false} StackCleanEnters(
    trees: Store, entries: seq<Entry>, prefix: seq<string>, depth: nat, rest: Stack, c: Id)
    requires StackClean(trees, Enters(entries, prefix, depth) + rest)
    ensures StackClean(trees, rest)
    ensures c in DirTargets(entries) ==> Clean(trees, c, Open(rest))
  {
    var stack := Enters(entries, prefix, depth) + rest;
    if entries == [] {
      assert stack == rest;
    } else if entries[0].kind.Dir? {
      assert stack[1..] == Enters(entries[1..], prefix, depth) + rest;
      OpenOfEnters(entries[1..], prefix, depth, rest);
      StackCleanEnters(trees, entries[1..], prefix, depth, rest, c);
    } else {
      assert stack == Enters(entries[1..], prefix, depth) + rest;
      StackCleanEnters(trees, entries[1..], prefix, depth, rest, c);
    }
  }

  /** Entering a directory: if all that is then pending is clean, so was it. */
  lemma EnterKeepsClean(trees: Store, id: Id, prefix: seq<string>, depth: nat, rest: Stack)
    requires Readable(trees, id) && id !in Open(rest) && |Open(rest)| <= MAX_TREE_DEPTH
    requires StackClean(trees, Enters(trees[id].entries, prefix, depth) + [Exit(id)] + rest)
    ensures StackClean(trees, [Enter(id, prefix, depth)] + rest)
  {
    var entries, below := trees[id].entries, [Exit(id)] + rest;
    assert Enters(entries, prefix, depth) + [Exit(id)] + rest == Enters(entries, prefix, depth) + below;
    assert below[1..] == rest && Open(below) == [id] + Open(rest);
    forall c | c in Children(trees[id])
      ensures Clean(trees, c, [id] + Open(rest))
    {
      StackCleanEnters(trees, entries, prefix, depth, below, c);
    }
    StackCleanEnters(trees, entries, prefix, depth, below, 0);
    assert ([Enter(id, prefix, depth)] + rest)[1..] == rest;
  }

  lemma {:induction false} CleanAlongPath(trees: Store, root: Id, up: seq<Id>)
    requires Clean(trees, root, []) && Climbs(trees, up, root)
    ensures Clean(trees, up[0], up[1..])
  {
    if |up| > 1 {
      CleanAlongPath(trees, root, up[1..]);
      assert [up[1]] + up[1..][1..] == up[1..];
    } else {
      assert up[1..] == [];
    }
  }

  lemma {:induction false} ClimbsSuffix(trees: Store, root: Id, up: seq<Id>, i: nat)
    requires Climbs(trees, up, root) && i < |up|
    ensures Climbs(trees, up[i..], root)
  {
    if i > 0 {
      ClimbsSuffix(trees, root, up[1..], i - 1);
      assert up[1..][i - 1..] == up[i..];
    }
  }

  /** In a clean tree no directory repeats on a path from the root. */
  lemma CleanNeverRepeats(trees: Store, root: Id, id: Id)
    requires Clean(trees, root, [])
    ensures !Repeats(trees, root, id)
  {
    forall up, i, k | Climbs(trees, up, root) && 0 <= i < k < |up| && up[i] == id && up[k] == id
      ensures false
    {
      ClimbsSuffix(trees, root, up, i);
      assert up[i..][1..][k - i - 1] == id;
      CleanAlongPath(trees, root, up[i..]);
    }
  }

  // ----- bounded progress

  function LeafCount(items: seq<Item>): int {
    |items| - DirCount(items)
  }

  /** Work of a whole unfolding: one per entry and one per visited directory. */
  function WorkOf(items: seq<Item>): nat {
    |items| + 1 + DirCount(items)
  }

  lemma {:induction false} CountsMonotone(part: seq<Item>, all: seq<Item>)
    requires part <= all
    ensures BytesOf(part) <= BytesOf(all)
    ensures DirCount(part) <= DirCount(all) && LeafCount(part) <= LeafCount(all)
    decreases |all|
  {
    if |part| < |all| {
      CountsMonotone(part, all[..|all| - 1]);
    } else {
      assert part == all;
    }
  }

  lemma {:induction false} FilesAtMostLeaves(items: seq<Item>)
    ensures |FilesOf(items)| <= LeafCount(items)
  {
    if items != [] {
      FilesAtMostLeaves(items[..|items| - 1]);
    }
  }

  lemma {:induction false} OwnSuffixFirst(entries: seq<Entry>, prefix: seq<string>, i: nat)
    requires i <= |entries|
    ensures Own(entries[i..], prefix) <= Own(entries, prefix)
  {
    if i > 0 {
      OwnSuffixFirst(entries[1..], prefix, i - 1);
      assert entries[1..][i - 1..] == entries[i..];
    } else {
      assert entries[0..] == entries;
    }
  }

  datatype Progress = Progress(files: map<seq<string>, FileState>, conflicts: seq<ConcurrentEdit>, pathBytes: nat)

  ghost predicate Records(p: Progress, items: seq<Item>) {
    p.files == FilesOf(items) && p.conflicts == ConflictsOf(items) && p.pathBytes == BytesOf(items)
  }

  /** Every path is safe and not too deep, and the totals fit. */
  ghost predicate Within(items: seq<Item>, safe: seq<string> -> bool) {
    && (forall i :: i in items ==> safe(i.path) && |i.path| <= MAX_TREE_DEPTH)
    && BytesOf(items) <= MAX_TREE_PATH_BYTES_TOTAL
    && |FilesOf(items)| <= MAX_TREE_OUTPUT_PATHS
  }

  lemma WithinEmpty(safe: seq<string> -> bool)
    ensures Within([], safe)
  {
  }

  /** Why an unfolding cannot be returned, per error. */
  ghost predicate Justified(error: LoadError, safe: seq<string> -> bool, all: seq<Item>) {
    match error
    case UnsafePath => exists i :: i in all && (!safe(i.path) || |i.path| > MAX_TREE_DEPTH)
    case PathsTooLong => BytesOf(all) > MAX_TREE_PATH_BYTES_TOTAL
    case TooManyPaths => LeafCount(all) > MAX_TREE_OUTPUT_PATHS
    case TooMuchWork => WorkOf(all) > MAX_TREE_WORK_ITEMS
    case _ => false
  }

  /** Adds one entry at its path; directories only count their path. */
  method AddItem(item: Item, p0: Progress, safe: seq<string> -> bool, ghost done: seq<Item>, ghost all: seq<Item>)
    returns (error: Option<LoadError>, p: Progress)
    requires Records(p0, done) && done + [item] <= all && Within(done, safe)
    ensures error.Some? ==> Justified(error.value, safe, all)
    ensures error.None? ==> Records(p, done + [item]) && Within(done + [item], safe)
  {
    p := p0;
    ghost var done' := done + [item];
    assert done'[..|done'| - 1] == done;
    assert done'[|done|] == item && item in all;
    if !safe(item.path) || |item.path| > MAX_TREE_DEPTH {
      return Some(UnsafePath), p;
    }
    CountsMonotone(done', all);
    p := p.(pathBytes := p.pathBytes + PathBytes(item.path));
    if p.pathBytes > MAX_TREE_PATH_BYTES_TOTAL {
      return Some(PathsTooLong), p;
    }
    if !item.entry.kind.Dir? {
      if |p.files| >= MAX_TREE_OUTPUT_PATHS {
        FilesAtMostLeaves(done);
        return Some(TooManyPaths), p;
      }
      KeysOfUpdate(p.files, item.path, FileOf(item));
      p := p.(files := p.files[item.path := FileOf(item)]);
      if item.entry.kind.Conflict? {
        p := p.(conflicts := p.conflicts + [EditOf(item)]);
      }
    }
    error := None;
  }

  lemma OwnStep(entries: seq<Entry>, prefix: seq<string>, i: nat, done: seq<Item>, all: seq<Item>)
    requires i < |entries| && done + Own(entries, prefix) <= all
    ensures var item := Item(prefix + [entries[i].name], entries[i]);
            && done + Own(entries[i + 1..], prefix) + [item] == done + Own(entries[i..], prefix)
            && done + Own(entries[i + 1..], prefix) + [item] <= all
  {
    assert entries[i..][1..] == entries[i + 1..];
    OwnSuffixFirst(entries, prefix, i);
  }

  method AddEntry(
    entries: seq<Entry>, prefix: seq<string>, i: nat, p0: Progress, safe: seq<string> -> bool,
    ghost done: seq<Item>, ghost all: seq<Item>)
    returns (error: Option<LoadError>, p: Progress)
    requires i < |entries| && done + Own(entries, prefix) <= all
    requires Records(p0, done + Own(entries[i + 1..], prefix)) && Within(done + Own(entries[i + 1..], prefix), safe)
    ensures error.Some? ==> Justified(error.value, safe, all)
    ensures error.None? ==>
              Records(p, done + Own(entries[i..], prefix)) && Within(done + Own(entries[i..], prefix), safe)
  {
    OwnStep(entries, prefix, i, done, all);
    error, p := AddItem(Item(prefix + [entries[i].name], entries[i]), p0, safe, done + Own(entries[i + 1..], prefix), all);
  }

  /** One directory's entries, last one first, so the first subdirectory ends
      up on top of the stack. */
  method Expand(
    entries: seq<Entry>, prefix: seq<string>, depth: nat, p0: Progress, safe: seq<string> -> bool,
    ghost done: seq<Item>, ghost all: seq<Item>)
    returns (error: Option<LoadError>, p: Progress, enters: Stack)
    requires Records(p0, done) && done + Own(entries, prefix) <= all && Within(done, safe)
    ensures error.Some? ==> Justified(error.value, safe, all)
    ensures error.None? ==> Records(p, done + Own(entries, prefix)) && enters == Enters(entries, prefix, depth)
    ensures error.None? ==> Within(done + Own(entries, prefix), safe)
  {
    p, enters := p0, [];
    assert done + Own(entries[|entries|..], prefix) == done;
    for i := |entries| downto 0
      invariant Records(p, done + Own(entries[i..], prefix)) && Within(done + Own(entries[i..], prefix), safe)
      invariant enters == Enters(entries[i..], prefix, depth)
    {
      assert entries[i..][1..] == entries[i + 1..];
      error, p := AddEntry(entries, prefix, i, p, safe, done, all);
      if error.Some? {
        return;
      }
      if entries[i].kind.Dir? {
        enters := [Enter(entries[i].hash, prefix + [entries[i].name], depth + 1)] + enters;
      }
    }
    assert entries[0..] == entries;
    error := None;
  }

  // ----- the loop

  function EnterCount(stack: Stack): nat {
    if stack == [] then 0 else (if stack[0].Enter? then 1 else 0) + EnterCount(stack[1..])
  }

  lemma {:induction false} EnterCountConcat(a: Stack, b: Stack)
    ensures EnterCount(a + b) == EnterCount(a) + EnterCount(b)
  {
    if a == [] {
      assert a + b == b;
    } else {
      assert (a + b)[1..] == a[1..] + b;
      EnterCountConcat(a[1..], b);
    }
  }

  lemma {:induction false} DirCountConcat(a: seq<Item>, b: seq<Item>)
    ensures DirCount(a + b) == DirCount(a) + DirCount(b)
  {
    if b == [] {
      assert a + b == a;
    } else {
      assert (a + b)[..|a + b| - 1] == a + b[..|b| - 1];
      DirCountConcat(a, b[..|b| - 1]);
    }
  }

  lemma {:induction false} EntersAreDirs(entries: seq<Entry>, prefix: seq<string>, depth: nat)
    ensures EnterCount(Enters(entries, prefix, depth)) == DirCount(Own(entries, prefix))
  {
    if entries != [] {
      EntersAreDirs(entries[1..], prefix, depth);
      EnterCountConcat(FirstEnter(entries[0], prefix, depth), Enters(entries[1..], prefix, depth));
      DirCountConcat(Own(entries[1..], prefix), [Item(prefix + [entries[0].name], entries[0])]);
      assert DirCount([Item(prefix + [entries[0].name], entries[0])]) == EnterCount(FirstEnter(entries[0], prefix, depth));
    }
  }

  ghost predicate LoopInv(trees: Store, root: Id, stack: Stack, done: seq<Item>) {
    && StackOk(trees, root, stack)
    && done + FlatStack(trees, stack) == Flat(trees, root, [], 0)
    && (StackClean(trees, stack) ==> Clean(trees, root, []))
  }

  lemma LoopStart(trees: Store, root: Id)
    ensures LoopInv(trees, root, [Enter(root, [], 0)], [])
  {
    var stack := [Enter(root, [], 0)];
    assert stack == [Enter(root, [], 0)] + [] && stack[1..] == [];
    FlatStackPush(trees, Enter(root, [], 0), []);
    assert Open(stack[1..]) == [];
    assert [stack[0].id] + Open(stack[1..]) == [root];
    assert Climbs(trees, [root], root);
    assert StackOk(trees, root, stack[1..]);
    assert StackOk(trees, root, stack);
    assert StackClean(trees, stack) ==> Clean(trees, root, []);
  }

  /** Leaving a directory closes exactly it. */
  lemma ExitStep(trees: Store, root: Id, id: Id, rest: Stack, done: seq<Item>)
    requires LoopInv(trees, root, [Exit(id)] + rest, done)
    ensures LoopInv(trees, root, rest, done)
    ensures id !in Open(rest) && Open([Exit(id)] + rest) == [id] + Open(rest)
    ensures EnterCount([Exit(id)] + rest) == EnterCount(rest)
  {
    var stack := [Exit(id)] + rest;
    assert stack[1..] == rest;
    FlatStackPush(trees, Exit(id), rest);
  }

  function Entered(trees: Store, id: Id, prefix: seq<string>, depth: nat, rest: Stack): Stack
    requires id in trees
  {
    Enters(trees[id].entries, prefix, depth) + ([Exit(id)] + rest)
  }

  /** What entering a directory knows before it reads it. */
  lemma EnterFacts(trees: Store, root: Id, id: Id, prefix: seq<string>, depth: nat, rest: Stack, done: seq<Item>)
    requires LoopInv(trees, root, [Enter(id, prefix, depth)] + rest, done)
    ensures Climbs(trees, [id] + Open(rest), root) && depth == |Open(rest)| && StackOk(trees, root, rest)
    ensures Open([Enter(id, prefix, depth)] + rest) == Open(rest)
    ensures EnterCount([Enter(id, prefix, depth)] + rest) == 1 + EnterCount(rest)
    ensures id in Open(rest) ==> Repeats(trees, root, id)
    ensures Below(trees, root, id)
    ensures depth > MAX_TREE_DEPTH ==> DeepBelow(trees, root)
  {
    var stack := [Enter(id, prefix, depth)] + rest;
    assert stack[1..] == rest;
    ClimbFacts(trees, root, id, Open(rest));
  }

  lemma ClimbFacts(trees: Store, root: Id, id: Id, above: seq<Id>)
    requires Climbs(trees, [id] + above, root)
    ensures Below(trees, root, id)
    ensures id in above ==> Repeats(trees, root, id)
    ensures |above| > MAX_TREE_DEPTH ==> DeepBelow(trees, root)
  {
    var up := [id] + above;
    assert up[0] == id;
    if id in above {
      var k :| 0 <= k < |above| && above[k] == id;
      assert up[k + 1] == id;
    }
  }

  lemma EnterFlattens(trees: Store, id: Id, prefix: seq<string>, depth: nat, rest: Stack)
    requires id in trees && depth <= MAX_TREE_DEPTH
    ensures FlatStack(trees, [Enter(id, prefix, depth)] + rest) ==
            Own(trees[id].entries, prefix) + FlatStack(trees, Entered(trees, id, prefix, depth, rest))
  {
    var entries := trees[id].entries;
    FlatStackPush(trees, Enter(id, prefix, depth), rest);
    FlatStackPush(trees, Exit(id), rest);
    FlatStackConcat(trees, Enters(entries, prefix, depth), [Exit(id)] + rest);
    FlatStackEnters(trees, entries, prefix, depth);
  }

  lemma EnterKeepsStack(trees: Store, root: Id, id: Id, prefix: seq<string>, depth: nat, rest: Stack)
    requires id in trees && id !in Open(rest) && depth == |Open(rest)|
    requires StackOk(trees, root, rest) && Climbs(trees, [id] + Open(rest), root)
    ensures StackOk(trees, root, Entered(trees, id, prefix, depth, rest))
    ensures Open(Entered(trees, id, prefix, depth, rest)) == [id] + Open(rest)
    ensures EnterCount(Entered(trees, id, prefix, depth, rest)) ==
            DirCount(Own(trees[id].entries, prefix)) + EnterCount(rest)
  {
    var entries, below := trees[id].entries, [Exit(id)] + rest;
    assert below[1..] == rest;
    forall e | e in entries && e.kind.Dir?
      ensures e.hash in Children(trees[id])
    {
      DirTargetOf(entries, e);
    }
    StackOkEnters(trees, root, entries, prefix, depth, below);
    OpenOfEnters(entries, prefix, depth, below);
    EnterCountConcat(Enters(entries, prefix, depth), below);
    EntersAreDirs(entries, prefix, depth);
  }

  lemma EnterStep(trees: Store, root: Id, id: Id, prefix: seq<string>, depth: nat, rest: Stack, done: seq<Item>)
    requires LoopInv(trees, root, [Enter(id, prefix, depth)] + rest, done)
    requires Readable(trees, id) && id !in Open(rest) && depth <= MAX_TREE_DEPTH
    ensures LoopInv(trees, root, Entered(trees, id, prefix, depth, rest), done + Own(trees[id].entries, prefix))
    ensures done + Own(trees[id].entries, prefix) <= Flat(trees, root, [], 0)
  {
    EnterFacts(trees, root, id, prefix, depth, rest, done);
    EnterKeepsStack(trees, root, id, prefix, depth, rest);
    EnterKeepsFlat(trees, root, id, prefix, depth, rest, done);
    EnterCleanBack(trees, id, prefix, depth, rest);
  }

  lemma EnterCleanBack(trees: Store, id: Id, prefix: seq<string>, depth: nat, rest: Stack)
    requires Readable(trees, id) && id !in Open(rest) && |Open(rest)| <= MAX_TREE_DEPTH
    ensures StackClean(trees, Entered(trees, id, prefix, depth, rest)) ==>
              StackClean(trees, [Enter(id, prefix, depth)] + rest)
  {
    assert Entered(trees, id, prefix, depth, rest) == Enters(trees[id].entries, prefix, depth) + [Exit(id)] + rest;
    if StackClean(trees, Entered(trees, id, prefix, depth, rest)) {
      EnterKeepsClean(trees, id, prefix, depth, rest);
    }
  }

  lemma EnterKeepsFlat(trees: Store, root: Id, id: Id, prefix: seq<string>, depth: nat, rest: Stack, done: seq<Item>)
    requires id in trees && depth <= MAX_TREE_DEPTH
    requires done + FlatStack(trees, [Enter(id, prefix, depth)] + rest) == Flat(trees, root, [], 0)
    ensures done + Own(trees[id].entries, prefix) + FlatStack(trees, Entered(trees, id, prefix, depth, rest))
            == Flat(trees, root, [], 0)
  {
    EnterFlattens(trees, id, prefix, depth, rest);
    var own, left := Own(trees[id].entries, prefix), FlatStack(trees, Entered(trees, id, prefix, depth, rest));
    assert done + (own + left) == done + own + left;
  }

  lemma WorkBound(done: seq<Item>, own: seq<Item>, all: seq<Item>, visits: nat, entersLeft: nat)
    requires done + own <= all && visits + 1 + entersLeft == 1 + DirCount(done)
    ensures |done| + visits + |own| + 1 <= WorkOf(all)
  {
    CountsMonotone(done + own, all);
    DirCountConcat(done, own);
  }

  ghost predicate ManyBelow(trees: Store, root: Id) {
    exists s: set<Id> :: |s| > MAX_TREE_OBJECTS && forall x :: x in s ==> Below(trees, root, x)
  }

  ghost predicate DeepBelow(trees: Store, root: Id) {
    exists up :: Climbs(trees, up, root) && |up| > MAX_TREE_DEPTH + 1
  }

  /** Every error names something that is really wrong with the tree. */
  ghost predicate ErrorIsReal(trees: Store, root: Id, safe: seq<string> -> bool, error: LoadError) {
    match error
    case Cycle(id) => Repeats(trees, root, id)
    case Unreadable(id) => Below(trees, root, id) && !Readable(trees, id)
    case TooDeep => DeepBelow(trees, root)
    case TooManyObjects => ManyBelow(trees, root)
    case _ => Justified(error, safe, Flat(trees, root, [], 0))
  }

  /** The local variables of the loop. */
  datatype Reader = Reader(
    stack: Stack,
    progress: Progress,
    active: set<Id>,
    objects: set<Id>,
    work: nat)

  ghost predicate ReaderOk(trees: Store, root: Id, s: Reader, done: seq<Item>, visits: nat) {
    && LoopInv(trees, root, s.stack, done) && Records(s.progress, done)
    && (forall x :: x in s.active <==> x in Open(s.stack))
    && (forall x :: x in s.objects ==> Below(trees, root, x))
    && s.work == |done| + visits <= MAX_TREE_WORK_ITEMS
    && visits + EnterCount(s.stack) == 1 + DirCount(done)
  }

  /** Opens one directory: the checks in the program's order, then its entries. */
  method EnterDirectory(
    trees: Store, root: Id, top: Work, s: Reader, safe: seq<string> -> bool, ghost done: seq<Item>, ghost visits: nat)
    returns (error: Option<LoadError>, s': Reader, ghost done': seq<Item>)
    requires top.Enter? && ReaderOk(trees, root, s.(stack := [top] + s.stack), done, visits) && Within(done, safe)
    ensures error.Some? ==> ErrorIsReal(trees, root, safe, error.value)
    ensures error.None? ==> ReaderOk(trees, root, s', done', visits + 1) && s'.work > s.work && Within(done', safe)
  {
    s', done' := s, done;
    var id, rest := top.id, s.stack;
    EnterFacts(trees, root, id, top.prefix, top.depth, rest, done);
    if top.depth > MAX_TREE_DEPTH {
      return Some(TooDeep), s', done';
    }
    if id in s.active {
      return Some(Cycle(id)), s', done';
    }
    var objects := s.objects + {id};
    if |objects| > MAX_TREE_OBJECTS {
      return Some(TooManyObjects), s', done';
    }
    if !Readable(trees, id) {
      return Some(Unreadable(id)), s', done';
    }
    var entries := trees[id].entries;
    ghost var all := Flat(trees, root, [], 0);
    EnterStep(trees, root, id, top.prefix, top.depth, rest, done);
    WorkBound(done, Own(entries, top.prefix), all, visits, EnterCount(rest));
    var work := s.work + |entries| + 1;
    if work > MAX_TREE_WORK_ITEMS {
      return Some(TooMuchWork), s', done';
    }
    var progress, enters;
    error, progress, enters := Expand(entries, top.prefix, top.depth, s.progress, safe, done, all);
    if error.Some? {
      return;
    }
    EnterKeepsStack(trees, root, id, top.prefix, top.depth, rest);
    DirCountConcat(done, Own(entries, top.prefix));
    done' := done + Own(entries, top.prefix);
    s' := Reader(enters + ([Exit(id)] + rest), progress, s.active + {id}, objects, work);
  }

  /**
   * Reads a whole directory closure. Success returns exactly the recursive
   * flattening and only for a tree in which no directory repeats on a path
   * from the root; a cycle error is raised only when one does.
   */
  method GetTreeState(trees: Store, root: Id, safe: seq<string> -> bool) returns (r: Result<LoadedTree, LoadError>)
    ensures r.Ok? ==> Clean(trees, root, []) && forall id :: !Repeats(trees, root, id)
    ensures r.Ok? ==> r.value.files == FilesOf(Flat(trees, root, [], 0))
    ensures r.Ok? ==> r.value.conflicts == ConflictsOf(Flat(trees, root, [], 0))
    ensures r.Ok? ==> Within(Flat(trees, root, [], 0), safe) && WorkOf(Flat(trees, root, [], 0)) <= MAX_TREE_WORK_ITEMS
    ensures r.Err? ==> ErrorIsReal(trees, root, safe, r.error)
  {
    var s := Reader([Enter(root, [], 0)], Progress(map[], [], 0), {}, {}, 0);
    ghost var done: seq<Item> := [];
    ghost var visits := 0;
    LoopStart(trees, root);
    WithinEmpty(safe);
    assert s.stack[1..] == [];
    while s.stack != []
      invariant ReaderOk(trees, root, s, done, visits) && Within(done, safe)
      decreases MAX_TREE_WORK_ITEMS - s.work, |s.stack|
    {
      var top, rest := s.stack[0], s.stack[1..];
      assert s.stack == [top] + rest;
      if top.Exit? {
        ExitStep(trees, root, top.id, rest, done);
        s := s.(stack := rest, active := s.active - {top.id});
      } else {
        var error, next;
        assert s.(stack := rest).(stack := [top] + rest) == s;
        error, next, done := EnterDirectory(trees, root, top, s.(stack := rest), safe, done, visits);
        if error.Some? {
          return Err(error.value);
        }
        s, visits := next, visits + 1;
      }
    }
    assert done + [] == done;
    forall id
      ensures !Repeats(trees, root, id)
    {
      CleanNeverRepeats(trees, root, id);
    }
    return Ok(LoadedTree(s.progress.files, s.progress.conflicts));
  }
}
