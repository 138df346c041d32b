/** One pass over held profiles, seen from the entry they are held for. */
module ProtocolPass {
  import opened Base
  import opened Sorting
  import opened Protocol
  import opened ProtocolRuns

  // ----- held profiles are kept in order

  /** Ids ascend, and assignments are never held. */
  ghost predicate TidyList(items: seq<Held>) {
    && (forall i, j :: 0 <= i < j < |items| ==> items[i].message.id < items[j].message.id)
    && (forall i :: 0 <= i < |items| ==> !items[i].profile.Assignment?)
  }

  ghost predicate Tidy(p: Projection) {
    forall fp :: fp in p.pending ==> p.pending[fp] != [] && TidyList(p.pending[fp])
  }

  lemma TidyInsert(held: seq<Held>, item: Held)
    requires TidyList(held) && !AlreadyHeld(held, item.message.id) && !item.profile.Assignment?
    ensures TidyList(SortBy(held + [item], HeldBefore)) && SortBy(held + [item], HeldBefore) != []
    ensures |SortBy(held + [item], HeldBefore)| == |held| + 1
  {
    var longer := held + [item];
    SortBySorted(longer, HeldBefore);
    TidyArrangement(held, item, SortBy(longer, HeldBefore));
  }

  lemma TidyArrangement(held: seq<Held>, item: Held, order: seq<Held>)
    requires TidyList(held) && !AlreadyHeld(held, item.message.id) && !item.profile.Assignment?
    requires multiset(held + [item]) == multiset(order) && Sorted(order, HeldBefore)
    ensures TidyList(order) && |order| == |held| + 1
  {
    var longer := held + [item];
    assert Distinct(longer);
    Rearranged(longer, order);
    forall i, j | 0 <= i < j < |order|
      ensures order[i].message.id < order[j].message.id
    {
      SameIdSameItem(held, item, order[i], order[j]);
    }
    forall i | 0 <= i < |order|
      ensures !order[i].profile.Assignment?
    {
      assert order[i] in longer;
    }
  }

  lemma SameIdSameItem(held: seq<Held>, item: Held, x: Held, y: Held)
    requires TidyList(held) && !AlreadyHeld(held, item.message.id)
    requires x in held + [item] && y in held + [item]
    ensures x.message.id == y.message.id ==> x == y
  {
  }

  lemma TidyAppend(held: seq<Held>, item: Held)
    requires TidyList(held + [item])
    ensures SortBy(held + [item], HeldBefore) == held + [item]
  {
    SortOfSorted(held + [item], HeldBefore);
  }

  lemma HoldTidy(p: Projection, fp: Id, item: Held)
    requires Tidy(p) && !item.profile.Assignment?
    ensures Tidy(HoldMessage(p, fp, item))
  {
    var held := HeldFor(p, fp);
    assert TidyList(held);
    if !AlreadyHeld(held, item.message.id) {
      TidyInsert(held, item);
      PutTidy(p.(incomplete := p.incomplete || PendingFull(p, fp)), fp, SortBy(held + [item], HeldBefore));
    }
  }

  lemma PutTidy(p: Projection, fp: Id, items: seq<Held>)
    requires Tidy(p) && items != [] && TidyList(items)
    ensures Tidy(p.(pending := p.pending[fp := items]))
  {
  }

  // ----- the pass

  /** The entry after the pass, and what stays held. */
  datatype Passed = Passed(entry: Entry, kept: seq<Held>)

  function ApplyHeld(e: Entry, h: Held): Result<Outcome, ProtocolError> {
    ApplyProfile(e, h.profile, h.message.id, h.message.sender)
  }

  function Pass(e: Entry, items: seq<Held>): Result<Passed, ProtocolError>
    decreases |items|
  {
    if items == [] then Ok(Passed(e, []))
    else
      match ApplyHeld(e, items[0])
      case Err(error) => Err(error)
      case Ok(o) => Before(Kept(o, items[0]), Pass(o.entry, items[1..]))
  }

  function Before(kept: seq<Held>, rest: Result<Passed, ProtocolError>): Result<Passed, ProtocolError> {
    match rest
    case Err(error) => Err(error)
    case Ok(q) => Ok(Passed(q.entry, kept + q.kept))
  }

  /** `q` is `p` with the entry and the held profiles of `fp` replaced. */
  ghost predicate Replaced(p: Projection, q: Projection, fp: Id, e: Entry, held: seq<Held>) {
    && q.entries == p.entries[fp := e]
    && HeldFor(q, fp) == held && (fp in q.pending <==> held != [])
    && (forall f :: f != fp ==> (f in q.pending <==> f in p.pending))
    && (forall f :: f != fp && f in p.pending ==> q.pending[f] == p.pending[f])
  }

  /** Every id of `a` comes before every id of `b`. */
  ghost predicate Precedes(a: seq<Held>, b: seq<Held>) {
    forall i, j :: 0 <= i < |a| && 0 <= j < |b| ==> a[i].message.id < b[j].message.id
  }

  lemma TidyConcat(a: seq<Held>, b: seq<Held>)
    ensures TidyList(a + b) <==> TidyList(a) && TidyList(b) && Precedes(a, b)
  {
    var c := a + b;
    assert forall i :: 0 <= i < |a| ==> a[i] == c[i];
    assert forall j :: 0 <= j < |b| ==> b[j] == c[|a| + j];
    if TidyList(a) && TidyList(b) && Precedes(a, b) {
      forall i, j | 0 <= i < j < |c|
        ensures c[i].message.id < c[j].message.id
      {
        if i < |a| <= j {
          assert a[i].message.id < b[j - |a|].message.id;
        } else if |a| <= i {
          assert b[i - |a|].message.id < b[j - |a|].message.id;
        }
      }
    }
  }

  lemma TidySplit(before: seq<Held>, items: seq<Held>)
    requires items != [] && TidyList(before + items)
    ensures TidyList(before + [items[0]]) && TidyList((before + [items[0]]) + items[1..])
    ensures TidyList(before + items[1..]) && TidyList(items) && TidyList(items[1..]) && Precedes([items[0]], items[1..])
  {
    assert items == [items[0]] + items[1..];
    assert (before + [items[0]]) + items[1..] == before + items;
    TidyConcat(before, items);
    TidyConcat([items[0]], items[1..]);
    TidyConcat(before + [items[0]], items[1..]);
    TidyConcat(before, items[1..]);
    assert forall j :: 0 <= j < |items[1..]| ==> items[1..][j] == items[j + 1];
  }

  function Kept(o: Outcome, h: Held): seq<Held> {
    if o.held then [h] else []
  }

  lemma DrainOneReplaces(r: Reduced, fp: Id, h: Held)
    requires fp in r.p.entries && TidyList(HeldFor(r.p, fp) + [h]) && DrainOne(r, fp, h).Ok?
    requires fp in r.p.pending <==> HeldFor(r.p, fp) != []
    ensures var o, next := ApplyHeld(r.p.entries[fp], h).value, DrainOne(r, fp, h).value;
            next.imports == r.imports && Replaced(r.p, next.p, fp, o.entry, HeldFor(r.p, fp) + Kept(o, h))
  {
    var held, o := HeldFor(r.p, fp), ApplyHeld(r.p.entries[fp], h).value;
    assert h == (held + [h])[|held|];
    if o.held {
      TidyAppend(held, h);
      HeldKeepsEntry(r.p.entries[fp], h);
      assert r.p.entries == r.p.entries[fp := r.p.entries[fp]];
    } else {
      NoImports(r.p.entries[fp], h);
      assert held + [] == held;
    }
  }

  lemma ReplacedTwice(p: Projection, q: Projection, r: Projection, fp: Id, e: Entry, held: seq<Held>, e': Entry, held': seq<Held>)
    requires Replaced(p, q, fp, e, held) && Replaced(q, r, fp, e', held')
    ensures Replaced(p, r, fp, e', held')
  {
    assert p.entries[fp := e][fp := e'] == p.entries[fp := e'];
  }

  /** `out` is what `pass` says, with `held` in front of what it keeps. */
  ghost predicate Agrees(
    r: Reduced, fp: Id, held: seq<Held>, out: Result<Reduced, ProtocolError>, pass: Result<Passed, ProtocolError>)
  {
    match (out, pass)
    case (Err(a), Err(b)) => a == b
    case (Ok(x), Ok(y)) => x.imports == r.imports && Replaced(r.p, x.p, fp, y.entry, held + y.kept)
    case _ => false
  }

  /** One more item in front. */
  lemma AgreesStep(
    r: Reduced, next: Reduced, fp: Id, held: seq<Held>, e: Entry, kept: seq<Held>,
    out: Result<Reduced, ProtocolError>, pass: Result<Passed, ProtocolError>)
    requires next.imports == r.imports && Replaced(r.p, next.p, fp, e, held + kept)
    requires Agrees(next, fp, held + kept, out, pass)
    ensures Agrees(r, fp, held, out, Before(kept, pass))
  {
    if pass.Ok? {
      ReplacedTwice(r.p, next.p, out.value.p, fp, e, held + kept, pass.value.entry, (held + kept) + pass.value.kept);
      assert (held + kept) + pass.value.kept == held + (kept + pass.value.kept);
    }
  }

  /** Draining is the pass. */
  lemma {:induction false} DrainAllIsPass(r: Reduced, fp: Id, items: seq<Held>)
    requires fp in r.p.entries && TidyList(HeldFor(r.p, fp) + items)
    requires fp in r.p.pending <==> HeldFor(r.p, fp) != []
    ensures Agrees(r, fp, HeldFor(r.p, fp), DrainAll(r, fp, items), Pass(r.p.entries[fp], items))
    decreases |items|
  {
    var held := HeldFor(r.p, fp);
    if items == [] {
      assert held + [] == held;
      assert r.p.entries == r.p.entries[fp := r.p.entries[fp]];
    } else {
      TidySplit(held, items);
      var o := ApplyHeld(r.p.entries[fp], items[0]);
      if o.Ok? {
        DrainOneReplaces(r, fp, items[0]);
        var next := DrainOne(r, fp, items[0]).value;
        var kept := Kept(o.value, items[0]);
        assert TidyList((held + kept) + items[1..]) by {
          assert held + [] == held;
        }
        DrainAllIsPass(next, fp, items[1..]);
        AgreesStep(r, next, fp, held, o.value.entry, kept,
                   DrainAll(next, fp, items[1..]), Pass(o.value.entry, items[1..]));
      }
    }
  }

  lemma HeldKeepsEntry(e: Entry, h: Held)
    requires ApplyHeld(e, h).Ok? && ApplyHeld(e, h).value.held
    ensures ApplyHeld(e, h).value.entry == e
  {
  }

  lemma NoImports(e: Entry, h: Held)
    requires !h.profile.Assignment? && ApplyHeld(e, h).Ok?
    ensures ApplyHeld(e, h).value.job.None?
  {
  }

  lemma DrainIsPass(r: Reduced, fp: Id)
    requires fp in r.p.entries && Tidy(r.p)
    ensures Agrees(r, fp, [], Drain(r, fp), Pass(r.p.entries[fp], HeldFor(r.p, fp)))
  {
    if fp in r.p.pending {
      var without := r.(p := r.p.(pending := r.p.pending - {fp}));
      assert [] + r.p.pending[fp] == r.p.pending[fp];
      DrainAllIsPass(without, fp, r.p.pending[fp]);
    } else {
      assert r.p.entries == r.p.entries[fp := r.p.entries[fp]];
    }
  }

  /** `part` keeps some of `items`, in order. */
  ghost predicate TidyPart(part: seq<Held>, items: seq<Held>) {
    |part| <= |items| && TidyList(part) && forall h :: h in part ==> h in items
  }

  lemma PartGrows(items: seq<Held>, kept: seq<Held>, rest: seq<Held>)
    requires items != [] && TidyList(items) && TidyPart(rest, items[1..]) && (kept == [] || kept == [items[0]])
    ensures TidyPart(kept + rest, items)
  {
    PartInOrder(items, kept, rest);
    PartMembers(items, kept, rest);
  }

  lemma PartInOrder(items: seq<Held>, kept: seq<Held>, rest: seq<Held>)
    requires items != [] && TidyList(items) && TidyPart(rest, items[1..]) && (kept == [] || kept == [items[0]])
    ensures TidyList(kept + rest)
  {
    if kept == [] {
      assert kept + rest == rest;
    } else {
      forall j | 0 <= j < |rest|
        ensures items[0].message.id < rest[j].message.id
      {
        assert rest[j] in items[1..];
        var k :| 0 <= k < |items[1..]| && items[1..][k] == rest[j];
        assert items[k + 1] == rest[j];
      }
      FrontTidy(items[0], rest);
    }
  }

  lemma FrontTidy(h: Held, rest: seq<Held>)
    requires TidyList(rest) && !h.profile.Assignment? && forall j :: 0 <= j < |rest| ==> h.message.id < rest[j].message.id
    ensures TidyList([h] + rest)
  {
  }

  lemma PartMembers(items: seq<Held>, kept: seq<Held>, rest: seq<Held>)
    requires items != [] && (forall h :: h in rest ==> h in items[1..]) && (kept == [] || kept == [items[0]])
    ensures forall h :: h in kept + rest ==> h in items
  {
    assert forall h :: h in kept + rest ==> h == items[0] || h in items[1..];
  }

  /** What stays held is part of what was held, in order. */
  lemma {:induction false} KeptIsPart(e: Entry, items: seq<Held>)
    requires TidyList(items) && Pass(e, items).Ok?
    ensures TidyPart(Pass(e, items).value.kept, items)
    decreases |items|
  {
    if items != [] {
      assert [] + items == items;
      TidySplit([], items);
      var o := ApplyHeld(e, items[0]).value;
      KeptIsPart(o.entry, items[1..]);
      PartGrows(items, Kept(o, items[0]), Pass(o.entry, items[1..]).value.kept);
    }
  }

  lemma ReplacedTidy(p: Projection, q: Projection, fp: Id, e: Entry, held: seq<Held>)
    requires Tidy(p) && Replaced(p, q, fp, e, held) && TidyList(held)
    ensures Tidy(q)
  {
  }

  lemma DrainTidy(r: Reduced, fp: Id)
    requires fp in r.p.entries && Tidy(r.p) && Drain(r, fp).Ok?
    ensures Tidy(Drain(r, fp).value.p)
  {
    DrainIsPass(r, fp);
    KeptIsPart(r.p.entries[fp], HeldFor(r.p, fp));
    var pass := Pass(r.p.entries[fp], HeldFor(r.p, fp)).value;
    assert [] + pass.kept == pass.kept;
    ReplacedTidy(r.p, Drain(r, fp).value.p, fp, pass.entry, pass.kept);
  }

  lemma HeldIsNoAssignment(e: Entry, profile: Profile, id: Id, sender: string)
    requires ApplyProfile(e, profile, id, sender).Ok? && ApplyProfile(e, profile, id, sender).value.held
    ensures !profile.Assignment? && ApplyProfile(e, profile, id, sender).value.entry == e
  {
  }

  lemma StepTidy(r: Reduced, m: Message, parse: Parser)
    requires Tidy(r.p) && Step(r, m, parse).Ok?
    ensures Tidy(Step(r, m, parse).value.p)
  {
    if parse(m.body).Some? {
      var profile := parse(m.body).value;
      var fp := FingerprintOf(profile);
      if fp in r.p.entries {
        var o := ApplyProfile(r.p.entries[fp], profile, m.id, m.sender).value;
        if o.held {
          HeldIsNoAssignment(r.p.entries[fp], profile, m.id, m.sender);
          HoldTidy(r.p, fp, Held(m, profile));
        } else {
          DrainTidy(Applied(r, fp, o, m.id), fp);
        }
      } else if profile.Assignment? {
        FirstAssignmentTidy(r, profile.job, profile.generation, m.id);
      } else if m.id !in r.p.applied {
        HoldTidy(r.p, fp, Held(m, profile));
      }
    }
  }

  /** The projection a first assignment drains, once it has room. */
  ghost function Started(p: Projection, job: Job, generation: Option<nat>, id: Id): Projection {
    var registered := RegisterApplied(MakeRoom(p), id);
    registered.(entries := registered.entries[job.fingerprint := Assigning(job, generation, id)])
  }

  lemma FirstAssignmentTidy(r: Reduced, job: Job, generation: Option<nat>, id: Id)
    requires Tidy(r.p) && FirstAssignment(r, job, generation, id).Ok?
    ensures Tidy(FirstAssignment(r, job, generation, id).value.p)
  {
    if |MakeRoom(r.p).entries| < MAX_ENTRIES {
      DrainTidy(Reduced(Started(r.p, job, generation, id), r.imports + [job]), job.fingerprint);
    }
  }

  lemma {:induction false} FoldTidy(r: Reduced, ms: seq<Message>, parse: Parser)
    requires Tidy(r.p) && Fold(r, ms, parse).Ok?
    ensures Tidy(Fold(r, ms, parse).value.p)
    decreases |ms|
  {
    if ms != [] {
      StepTidy(r, ms[0], parse);
      FoldTidy(Step(r, ms[0], parse).value, ms[1..], parse);
    }
  }

  /** Over every run, held profiles stay in order and are never assignments. */
  lemma {:induction false} RunTidy(batches: seq<seq<Message>>, parse: Parser)
    ensures Tidy(Project(batches, parse))
    decreases |batches|
  {
    if batches != [] {
      var earlier, last := batches[..|batches| - 1], batches[|batches| - 1];
      RunTidy(earlier, parse);
      if Batch(Reduced(Project(earlier, parse), []), last, parse).Ok? {
        FoldTidy(Reduced(Project(earlier, parse), []), SortBy(last, ById), parse);
      }
    }
  }
}
