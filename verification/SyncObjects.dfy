/** `diff`, `push` and `pull` of adl_lite/sync_manager.py on chain objects. `push` copies the events; `pull` appends
    the sender's own event objects and thereby relinks them. */
module SyncObjects {
  import opened Basics
  import opened Events
  import opened DerivedState
  import opened EventChains
  import opened SyncManagers
  import opened PullEffects

  function EventIds(es: seq<Event>): set<string>
    reads es
  {
    set e | e in es :: e.body.id
  }

  lemma EventIdsAreIds(es: seq<Event>)
    ensures EventIds(es) == IdSet(Views(es))
  {
    forall id | id in EventIds(es) ensures id in IdSet(Views(es)) {
      var i :| 0 <= i < |es| && es[i].body.id == id;
      assert Views(es)[i] in Views(es);
    }
    forall id | id in IdSet(Views(es)) ensures id in EventIds(es) {
      var i :| 0 <= i < |es| && Views(es)[i].Id() == id;
      assert es[i] in es;
    }
  }

  /** The comprehension of `diff`. */
  function DiffEvents(known: set<string>, es: seq<Event>): seq<Event>
    reads es
  {
    if es == [] then []
    else
      var rest := DiffEvents(known, es[..|es| - 1]);
      var e := es[|es| - 1];
      if e.body.id in known then rest else rest + [e]
  }

  lemma ViewsOfParts(es: seq<Event>, e: Event)
    ensures Views(es + [e]) == Views(es) + [e.View()]
  {
  }

  lemma ViewsOfConcat(es: seq<Event>, fs: seq<Event>)
    ensures Views(es + fs) == Views(es) + Views(fs)
  {
  }

  lemma ViewsOfPrefix(es: seq<Event>, n: nat)
    requires n <= |es|
    ensures Views(es[..n]) == Views(es)[..n]
  {
  }

  lemma {:induction false} DiffOfViews(known: set<string>, es: seq<Event>)
    ensures Views(DiffEvents(known, es)) == Diff(known, Views(es))
    ensures forall e :: e in DiffEvents(known, es) ==> e in es && e.body.id !in known
    ensures DistinctObjects(es) ==> DistinctObjects(DiffEvents(known, es))
  {
    if es == [] {
    } else {
      var n := |es| - 1;
      DiffOfViews(known, es[..n]);
      ViewsOfPrefix(es, n);
      ViewsOfParts(DiffEvents(known, es[..n]), es[n]);
      var rest := DiffEvents(known, es[..n]);
      if DistinctObjects(es) {
        forall i | 0 <= i < |rest| ensures rest[i] != es[n] {
          assert rest[i] in es[..n];
        }
      }
    }
  }

  /** `sorted(events, key=(timestamp, hash))` */
  method SortByTimeHash(es: seq<Event>) returns (sorted: seq<Event>)
    ensures Views(sorted) == SortBy(Views(es), ByTimeHash)
    ensures multiset(sorted) == multiset(es)
  {
    var pairs: seq<(Record, Event)> := [];
    for i := 0 to |es|
      invariant |pairs| == i
      invariant forall k :: 0 <= k < i ==> pairs[k] == (es[k].View(), es[k])
    {
      pairs := pairs + [(es[i].View(), es[i])];
    }
    var arranged := SortBy(pairs, OnFirst(ByTimeHash));
    sorted := Seconds(arranged);
    SortKeepsElements(pairs, OnFirst(ByTimeHash));
    SortOnFirst(pairs, ByTimeHash);
    assert Firsts(pairs) == Views(es);
    assert Seconds(pairs) == es;
    SecondsKeepElements(pairs, arranged);
    SameElements(pairs, arranged);
    forall k | 0 <= k < |arranged| ensures arranged[k].0 == arranged[k].1.View() {
      assert arranged[k] in pairs;
    }
    assert Firsts(arranged) == Views(sorted);
  }

  /** The events new to a receiver that knows the ids `known`, in the order they will be appended. */
  method NewEvents(known: set<string>, es: seq<Event>) returns (sorted: seq<Event>)
    ensures Views(sorted) == NewFor(known, Views(es))
    ensures multiset(sorted) == multiset(DiffEvents(known, es))
  {
    var ds := DiffEvents(known, es);
    sorted := SortByTimeHash(ds);
    DiffOfViews(known, es);
  }

  lemma NewEventsMeaning(known: set<string>, es: seq<Event>, sorted: seq<Event>)
    requires multiset(sorted) == multiset(DiffEvents(known, es))
    ensures forall i :: 0 <= i < |sorted| ==> sorted[i] in es && sorted[i].body.id !in known
    ensures forall e :: e in es && e.body.id !in known ==> e in sorted
    ensures DistinctObjects(es) ==> DistinctObjects(sorted)
  {
    DiffOfViews(known, es);
    NewAreIn(known, es);
    SameElements(sorted, DiffEvents(known, es));
    forall i | 0 <= i < |sorted| ensures sorted[i] in DiffEvents(known, es) { assert sorted[i] in sorted; }
    if DistinctObjects(es) {
      DistinctKeysRearranged(DiffEvents(known, es), sorted, (e: Event) => e);
    }
  }

  lemma {:induction false} NewAreIn(known: set<string>, es: seq<Event>)
    ensures forall e :: e in es && e.body.id !in known ==> e in DiffEvents(known, es)
  {
    if es == [] {
    } else {
      var n := |es| - 1;
      NewAreIn(known, es[..n]);
      TakeSnoc(es, n);
      assert es[..n + 1] == es;
    }
  }

  /** `sorted(diff(own, other))`: objects of the other list, none of which is among `own`. */
  method NewFrom(own: seq<Event>, other: seq<Event>) returns (sorted: seq<Event>)
    ensures Views(sorted) == NewFor(IdSet(Views(own)), Views(other))
    ensures multiset(sorted) == multiset(DiffEvents(EventIds(own), other))
    ensures forall i :: 0 <= i < |sorted| ==> sorted[i] in other
    ensures DistinctObjects(own) && DistinctObjects(other) ==> DistinctObjects(own + sorted)
  {
    EventIdsAreIds(own);
    sorted := NewEvents(EventIds(own), other);
    NewEventsMeaning(EventIds(own), other, sorted);
    forall i | 0 <= i < |sorted| ensures sorted[i] in other && sorted[i] !in own {
      NotAmong(own, sorted[i]);
    }
    if DistinctObjects(own) && DistinctObjects(other) { TwoDistinctLists(own, sorted); }
  }

  lemma NotAmong(own: seq<Event>, e: Event)
    requires e.body.id !in EventIds(own)
    ensures e !in own
  {
  }

  lemma TwoDistinctLists(one: seq<Event>, two: seq<Event>)
    requires DistinctObjects(one) && DistinctObjects(two) && forall e :: e in two ==> e !in one
    ensures DistinctObjects(one + two)
  {
    forall i, j | 0 <= i < j < |one + two| ensures (one + two)[i] != (one + two)[j] {
      if i < |one| <= j { assert one[i] in one && two[j - |one|] in two; }
    }
  }

  /** `[e.model_copy() for e in events]` */
  method CopyEvents(es: seq<Event>) returns (cs: seq<Event>)
    ensures Views(cs) == Views(es) && DistinctObjects(cs)
    ensures forall i :: 0 <= i < |cs| ==> fresh(cs[i])
  {
    cs := [];
    for i := 0 to |es|
      invariant |cs| == i && DistinctObjects(cs)
      invariant forall k :: 0 <= k < i ==> fresh(cs[k])
      invariant forall k :: 0 <= k < i ==> cs[k].View() == es[k].View()
    {
      var c := new Event.Copy(es[i]);
      cs := cs + [c];
    }
  }

  method CopyBoth(es: seq<Event>, fs: seq<Event>) returns (first: seq<Event>, second: seq<Event>)
    ensures Views(first) == old(Views(es)) && Views(second) == old(Views(fs)) && DistinctObjects(first + second)
    ensures forall i :: 0 <= i < |first| ==> fresh(first[i])
    ensures forall i :: 0 <= i < |second| ==> fresh(second[i])
  {
    first := CopyEvents(es);
    second := CopyEvents(fs);
    TwoDistinctLists(first, second);
  }

  /** A new chain over `first` and then `second`; both lists of objects are relinked. */
  method BuildChain(H: Hasher, concept: string, first: seq<Event>, second: seq<Event>) returns (r: Result<EventChain, ChainError>)
    requires DistinctObjects(first + second)
    modifies first + second
    ensures forall e :: e in first + second ==> e.body == old(e.body)
    ensures r.Ok? <==> Appendable(concept, old(Views(first))) && Appendable(concept, old(Views(second)))
    ensures r.Ok? ==>
              && fresh(r.value) && r.value.events == first + second
              && JustBuilt(r.value, H, concept, AppendAll(H, AppendAll(H, [], Facts(old(Views(first)))), Facts(old(Views(second)))))
  {
    ghost var one, two := Views(first), Views(second);
    AppendableParts(concept, one, two);
    AppendedInParts(H, one, two);
    ViewsOfConcat(first, second);
    r := Reanchor(H, concept, first + second);
  }

  lemma AppendedInParts(H: Hasher, one: seq<Record>, two: seq<Record>)
    ensures AppendAll(H, [], Facts(one + two)) == AppendAll(H, AppendAll(H, [], Facts(one)), Facts(two))
  {
    FactsOfConcat(one, two);
    AppendAllSplit(H, [], Facts(one), Facts(two));
  }

  lemma FactsOfConcat(one: seq<Record>, two: seq<Record>)
    ensures Facts(one + two) == Facts(one) + Facts(two)
  {
  }

  lemma AppendableParts(concept: string, one: seq<Record>, two: seq<Record>)
    ensures Appendable(concept, one + two) <==> Appendable(concept, one) && Appendable(concept, two)
  {
    assert forall i :: 0 <= i < |one| ==> (one + two)[i] == one[i];
    assert forall i :: 0 <= i < |two| ==> (one + two)[|one| + i] == two[i];
    if Appendable(concept, one + two) {
      forall i | 0 <= i < |two| ensures two[i].fact.body.concept == concept && Readable(two[i].fact.body) {
        assert (one + two)[|one| + i] == two[i];
      }
    }
  }

  /** Push new events from edge to center. Neither chain nor any of their events is touched. */
  method Push(edge: EventChain, center: EventChain) returns (r: Result<EventChain, ChainError>)
    requires edge.H == center.H
    ensures r.Ok? <==> Appendable(center.conceptId, old(center.Records()))
                       && Appendable(center.conceptId, NewFor(IdSet(old(center.Records())), old(edge.Records())))
    ensures r.Ok? ==>
              && fresh(r.value) && (forall e :: e in r.value.events ==> fresh(e))
              && JustBuilt(r.value, center.H, center.conceptId, Received(center.H, old(center.Records()), old(edge.Records())))
  {
    var first, second := CopyForPush(edge, center);
    r := BuildChain(center.H, center.conceptId, first, second);
  }

  /** Copies of the receiver's events and of what is new to it. */
  method CopyForPush(edge: EventChain, center: EventChain) returns (first: seq<Event>, second: seq<Event>)
    ensures Views(first) == old(center.Records()) && Views(second) == NewFor(IdSet(old(center.Records())), old(edge.Records()))
    ensures DistinctObjects(first + second) && forall i :: 0 <= i < |first + second| ==> fresh((first + second)[i])
  {
    var new' := NewFrom(center.events, edge.events);
    first, second := CopyBoth(center.events, new');
  }

  /** The ids of two lists on which what a pull does to the sender is determined. */
  ghost predicate PullableLists(H: Hasher, edge: seq<Record>, center: seq<Record>) { AppendBuilt(H, edge) && Axiom5(edge) && Axiom5(center) }

  lemma PulledIds(H: Hasher, edge: seq<Record>, center: seq<Record>)
    requires PullableLists(H, edge, center)
    ensures Axiom5(Received(H, edge, center)) && IdSet(center) <= IdSet(Received(H, edge, center))
    ensures forall k :: 0 <= k < |edge| ==> Received(H, edge, center)[k] == edge[k]
  {
    ReceivedIds(H, edge, center);
    ReceivedShape(H, edge, center);
    forall k | 0 <= k < |edge| ensures Received(H, edge, center)[k] == edge[k] {
      assert Received(H, edge, center)[..|edge|][k] == edge[k];
    }
  }

  /** One object of the sender after the pull: relinked when it was taken, and as it was otherwise -- also when it stood in the
      receiver's chain, whose objects are relinked to the links they had. */
  lemma PulledObject(H: Hasher, es: seq<Event>, taken: seq<Event>, e: Event, i: nat, edge: seq<Record>, center: seq<Record>)
    requires PullableLists(H, edge, center) && |es| == |edge| && i < |center|
    requires Views(es + taken) == Received(H, edge, center) && e.body.id == center[i].Id()
    requires e in taken <==> center[i].Id() !in IdSet(edge)
    requires forall k :: 0 <= k < |es| && es[k] == e ==> edge[k] == center[i]
    requires e !in es + taken ==> e.View() == center[i]
    ensures IdSet(center) <= IdSet(Received(H, edge, center)) && e.View() == AfterPull(H, edge, center)[i]
  {
    var out := Received(H, edge, center);
    PulledIds(H, edge, center);
    RelinkedAt(IdSet(edge), out, center, i);
    if e in taken {
      var k :| 0 <= k < |taken| && taken[k] == e;
      assert (es + taken)[|es| + k] == e && Views(es + taken)[|es| + k] == e.View();
      UniqueById(out, |es| + k, AfterPull(H, edge, center)[i]);
    } else if e in es {
      var k :| 0 <= k < |es| && es[k] == e;
      assert (es + taken)[k] == e && Views(es + taken)[k] == e.View();
    }
  }

  /** The sender's objects `ces` held `center`: each new one was taken, and one that is in neither list is as it was. */
  ghost predicate TakenOrKept(es: seq<Event>, taken: seq<Event>, ces: seq<Event>, known: set<string>, center: seq<Record>)
    reads ces
  {
    |ces| == |center| && forall i :: 0 <= i < |ces| ==> ObjectTakenOrKept(es, taken, ces[i], known, center[i])
  }

  ghost predicate ObjectTakenOrKept(es: seq<Event>, taken: seq<Event>, e: Event, known: set<string>, r: Record)
    reads e
  {
    && e.body.id == r.Id() && (e in taken <==> r.Id() !in known)
    && (e !in es && e !in taken ==> e.View() == r)
  }

  /** An object in both chains held the same record in both. */
  ghost predicate SharedAlike(es: seq<Event>, edge: seq<Record>, ces: seq<Event>, center: seq<Record>) {
    && |es| == |edge| && |ces| == |center|
    && forall k, i :: 0 <= k < |es| && 0 <= i < |ces| && es[k] == ces[i] ==> edge[k] == center[i]
  }

  /** What the sender's chain holds after a pull. */
  ghost predicate SenderAfter(H: Hasher, edge: seq<Record>, center: seq<Record>, after: seq<Record>) {
    PullableLists(H, edge, center) ==>
      IdSet(center) <= IdSet(Received(H, edge, center)) && after == AfterPull(H, edge, center)
  }

  lemma AllPulled(H: Hasher, es: seq<Event>, taken: seq<Event>, ces: seq<Event>, edge: seq<Record>, center: seq<Record>)
    requires SharedAlike(es, edge, ces, center)
    requires Views(es + taken) == Received(H, edge, center) && TakenOrKept(es, taken, ces, IdSet(edge), center)
    ensures SenderAfter(H, edge, center, Views(ces))
  {
    if PullableLists(H, edge, center) {
      PulledIds(H, edge, center);
      forall i | 0 <= i < |center| ensures ces[i].View() == AfterPull(H, edge, center)[i] {
        assert ObjectTakenOrKept(es, taken, ces[i], IdSet(edge), center[i]);
        PulledObject(H, es, taken, ces[i], i, edge, center);
      }
    }
  }

  /** What `pull` will append: the sender's own objects. */
  method NewForPull(edge: EventChain, center: EventChain) returns (new': seq<Event>)
    requires DistinctObjects(edge.events) && DistinctObjects(center.events)
    ensures Views(new') == NewFor(IdSet(edge.Records()), center.Records()) && DistinctObjects(edge.events + new')
    ensures multiset(new') == multiset(DiffEvents(EventIds(edge.events), center.events))
    ensures forall i :: 0 <= i < |new'| ==> new'[i] in center.events
    ensures TakenOrKept(edge.events, new', center.events, IdSet(edge.Records()), center.Records())
    ensures SharedAlike(edge.events, edge.Records(), center.events, center.Records())
  {
    EventIdsAreIds(edge.events);
    new' := NewFrom(edge.events, center.events);
    NewEventsMeaning(EventIds(edge.events), center.events, new');
    forall i | 0 <= i < |new'| ensures new'[i].body.id !in EventIds(edge.events) {}
    forall i | 0 <= i < |center.events|
      ensures ObjectTakenOrKept(edge.events, new', center.events[i], IdSet(edge.Records()), center.Records()[i])
    {
    }
  }

  /** `BuildChain`, watching a list of objects that held `center`. */
  method BuildBeside(H: Hasher, concept: string, first: seq<Event>, second: seq<Event>, ghost ces: seq<Event>, ghost known: set<string>,
                     ghost center: seq<Record>) returns (r: Result<EventChain, ChainError>)
    requires DistinctObjects(first + second) && TakenOrKept(first, second, ces, known, center)
    modifies first + second
    ensures r.Ok? <==> Appendable(concept, old(Views(first))) && Appendable(concept, old(Views(second)))
    ensures r.Ok? ==>
              && fresh(r.value) && r.value.events == first + second
              && JustBuilt(r.value, H, concept, AppendAll(H, AppendAll(H, [], Facts(old(Views(first)))), Facts(old(Views(second)))))
    ensures TakenOrKept(first, second, ces, known, center)
  {
    r := BuildChain(H, concept, first, second);
    forall i | 0 <= i < |ces| ensures ObjectTakenOrKept(first, second, ces[i], known, center[i]) {
      assert old(ObjectTakenOrKept(first, second, ces[i], known, center[i]));
    }
  }

  /** Pull new events from center to edge. The edge's event objects and the center's new ones (`taken`) go into the result and
      are relinked there, so the center's own list changes with them; its other events stay as they were. */
  method Pull(edge: EventChain, center: EventChain) returns (r: Result<EventChain, ChainError>, ghost taken: seq<Event>)
    requires edge.H == center.H && DistinctObjects(edge.events) && DistinctObjects(center.events)
    modifies edge.events, center.events
    ensures r.Ok? <==> Appendable(edge.conceptId, old(edge.Records()))
                       && Appendable(edge.conceptId, NewFor(IdSet(old(edge.Records())), old(center.Records())))
    ensures multiset(taken) == multiset(old(DiffEvents(EventIds(edge.events), center.events)))
    ensures r.Ok? ==>
              && fresh(r.value) && r.value.events == edge.events + taken
              && JustBuilt(r.value, edge.H, edge.conceptId, Received(edge.H, old(edge.Records()), old(center.Records())))
    ensures r.Ok? ==> SenderAfter(edge.H, old(edge.Records()), old(center.Records()), center.Records())
  {
    ghost var mine, theirs := edge.Records(), center.Records();
    var new' := NewForPull(edge, center);
    taken := new';
    assert forall i :: 0 <= i < |edge.events| ==> edge.events[i] in edge.events;
    r := BuildBeside(edge.H, edge.conceptId, edge.events, new', center.events, IdSet(mine), theirs);
    if r.Ok? { AllPulled(edge.H, edge.events, taken, center.events, mine, theirs); }
  }
}
