/** `_merge_two_chains` and `merge_event_chains` (adl_lite/crdt.py) on chain objects. The merged chain takes
    over the event objects of its inputs and relinks them in place. */
module ReplicaMerge {
  import opened Basics
  import opened Events
  import opened DerivedState
  import opened EventChains
  import opened Crdt
  import opened CrdtStates

  datatype MergeError = NoChains | DifferentConcepts | AppendFailed(cause: ChainError)

  function FactsOf(es: seq<Event>): seq<Fact>
    reads es
  {
    Facts(Views(es))
  }

  lemma FactsAt(es: seq<Event>, i: nat)
    requires i < |es|
    ensures |FactsOf(es)| == |es| && FactsOf(es)[i] == es[i].View().fact
  {
  }

  /** Dictionary lookup. */
  method FindEvent(es: seq<Event>, id: string) returns (i: nat)
    ensures i == Find(FactsOf(es), id)
  {
    i := 0;
    while i < |es| && es[i].body.id != id
      invariant i <= |es|
      invariant Find(FactsOf(es), id) == i + Find(FactsOf(es)[i..], id)
    {
      assert FactsOf(es)[i..][1..] == FactsOf(es)[i + 1..];
      i := i + 1;
    }
  }

  lemma FactsOfUpdate(es: seq<Event>, i: nat, e: Event)
    requires i <= |es|
    ensures i < |es| ==> FactsOf(es[i := e]) == FactsOf(es)[i := e.View().fact]
    ensures FactsOf(es + [e]) == FactsOf(es) + [e.View().fact]
  {
  }

  /** `event_map[event.event_id] = event` */
  method PutEvent(es: seq<Event>, e: Event) returns (d: seq<Event>)
    ensures FactsOf(d) == Put(FactsOf(es), e.View().fact)
    ensures var i := Find(FactsOf(es), e.body.id); d == if i < |es| then es[i := e] else es + [e]
    ensures forall x :: x in d ==> x in es || x == e
  {
    var i := FindEvent(es, e.body.id);
    FactsOfUpdate(es, i, e);
    if i < |es| {
      d := es[i := e];
    } else {
      d := es + [e];
    }
  }

  /** `PutLater` on the objects themselves. */
  function PutLaterObject(es: seq<Event>, e: Event): seq<Event>
    reads es, e
  {
    var i := Find(FactsOf(es), e.body.id);
    if i < |es| then if e.timestamp < es[i].timestamp then es else es[i := e]
    else es + [e]
  }

  method PutLaterEvent(es: seq<Event>, e: Event) returns (d: seq<Event>)
    ensures FactsOf(d) == PutLater(FactsOf(es), e.View().fact)
    ensures d == PutLaterObject(es, e)
    ensures forall x :: x in d ==> x in es || x == e
  {
    var i := FindEvent(es, e.body.id);
    if i < |es| {
      FactsAt(es, i);
      if e.timestamp >= es[i].timestamp {
        d := PutEvent(es, e);
      } else {
        d := es;
      }
    } else {
      d := PutEvent(es, e);
    }
  }

  /** Which objects the union takes: those of `b` of which `a` has no later version, and those of `a` of which `b` has no
      version at least as late. */
  ghost predicate Takes(e: Event, a: seq<Event>, b: seq<Event>)
    reads e, a, b
  {
    || (e in b && forall x :: x in a && x.body.id == e.body.id ==> x.timestamp <= e.timestamp)
    || (e in a && forall y :: y in b && y.body.id == e.body.id ==> y.timestamp < e.timestamp)
  }

  ghost predicate TakesExactly(d: seq<Event>, a: seq<Event>, b: seq<Event>)
    reads d, a, b
  {
    && (forall e :: e in d ==> Takes(e, a, b))
    && (forall e :: e in a && Takes(e, a, b) ==> e in d)
    && forall e :: e in b && Takes(e, a, b) ==> e in d
  }

  lemma SameIdSameEvent(es: seq<Event>, x: Event, y: Event)
    requires DistinctIds(FactsOf(es)) && x in es && y in es && x.body.id == y.body.id
    ensures x == y
  {
    var i :| 0 <= i < |es| && es[i] == x;
    var j :| 0 <= j < |es| && es[j] == y;
    FactsAt(es, i);
    FactsAt(es, j);
  }

  lemma FoundEvent(es: seq<Event>, e: Event)
    ensures var i := Find(FactsOf(es), e.body.id);
      if i < |es| then es[i] in es && es[i].body.id == e.body.id else forall x :: x in es ==> x.body.id != e.body.id
  {
    var i := Find(FactsOf(es), e.body.id);
    if i < |es| {
      FactsAt(es, i);
    } else {
      forall x | x in es ensures x.body.id != e.body.id {
        var k :| 0 <= k < |es| && es[k] == x;
        FactsAt(es, k);
      }
    }
  }

  /** One more event of the second chain. */
  lemma TakesNext(d: seq<Event>, a: seq<Event>, b: seq<Event>, z: Event)
    requires DistinctIds(FactsOf(d)) && DistinctIds(FactsOf(a)) && DistinctIds(FactsOf(b + [z])) && TakesExactly(d, a, b)
    ensures TakesExactly(PutLaterObject(d, z), a, b + [z])
  {
    FoundEvent(d, z);
    assert (b + [z])[|b|] == z;
    forall y | y in b ensures y.body.id != z.body.id {
      var k :| 0 <= k < |b| && b[k] == y;
      FactsAt(b + [z], k);
      FactsAt(b + [z], |b|);
    }
    if Find(FactsOf(d), z.body.id) < |d| {
      TakesOverKnown(d, a, b, z, Find(FactsOf(d), z.body.id));
    } else {
      forall x | x in a ensures x.body.id != z.body.id {
        if x.body.id == z.body.id { assert Takes(x, a, b); }
      }
    }
  }

  /** Whether an event is taken does not depend on events of other ids. */
  lemma TakesAside(e: Event, a: seq<Event>, b: seq<Event>, z: Event)
    requires e.body.id != z.body.id
    ensures Takes(e, a, b + [z]) <==> Takes(e, a, b)
  {
    assert forall y :: y in b + [z] <==> y in b || y == z;
  }

  lemma TakesOverKnown(d: seq<Event>, a: seq<Event>, b: seq<Event>, z: Event, i: nat)
    requires DistinctIds(FactsOf(d)) && DistinctIds(FactsOf(a)) && TakesExactly(d, a, b)
    requires i < |d| && d[i].body.id == z.body.id && forall y :: y in b ==> y.body.id != z.body.id
    ensures TakesExactly(if z.timestamp < d[i].timestamp then d else d[i := z], a, b + [z])
  {
    var x := d[i];
    var after := if z.timestamp < x.timestamp then d else d[i := z];
    assert Takes(x, a, b) && x in a;
    forall e | e in a && e.body.id == z.body.id ensures e == x { SameIdSameEvent(a, e, x); }
    assert (b + [z])[|b|] == z;
    forall e | (e in a || e in b + [z]) ensures e in after <==> Takes(e, a, b + [z]) {
      if e.body.id != z.body.id {
        TakesAside(e, a, b, z);
        OthersStay(d, i, z, e);
      } else {
        OneOfId(d, i, z, e);
      }
    }
    forall e | e in after ensures e in a || e in b + [z] { if e != z { assert e in d && Takes(e, a, b); } }
  }

  lemma OthersStay(d: seq<Event>, i: nat, z: Event, e: Event)
    requires i < |d| && d[i].body.id == z.body.id != e.body.id
    ensures e in d[i := z] <==> e in d
  {
    if e in d {
      var k :| 0 <= k < |d| && d[k] == e;
      assert d[i := z][k] == e;
    }
  }

  lemma OneOfId(d: seq<Event>, i: nat, z: Event, e: Event)
    requires DistinctIds(FactsOf(d)) && i < |d| && d[i].body.id == z.body.id == e.body.id
    ensures (e in d <==> e == d[i]) && (e in d[i := z] <==> e == z)
  {
    if e in d { SameIdSameEvent(d, e, d[i]); }
    assert d[i := z][i] == z;
    forall k | 0 <= k < |d| && k != i ensures d[k] != e {
      FactsAt(d, k);
      FactsAt(d, i);
    }
  }

  /** What the first loop has made of `a`. */
  ghost predicate PutTo(d: seq<Event>, a: seq<Event>)
    reads d, a
  {
    && FactsOf(d) == PutAll([], FactsOf(a)) && (forall x :: x in d ==> x in a)
    && (DistinctIds(FactsOf(a)) ==> d == a)
  }

  lemma PutNext(d: seq<Event>, a: seq<Event>, z: Event, after: seq<Event>)
    requires PutTo(d, a) && FactsOf(after) == Put(FactsOf(d), z.View().fact) && forall x :: x in after ==> x in d || x == z
    requires after == var i := Find(FactsOf(d), z.body.id); if i < |d| then d[i := z] else d + [z]
    ensures PutTo(after, a + [z])
  {
    FactsOfUpdate(a, 0, z);
    assert (a + [z])[|a|] == z;
    assert FactsOf(a + [z])[..|a|] == FactsOf(a);
    if DistinctIds(FactsOf(a + [z])) {
      DistinctFront(a, z);
      NotFoundBefore(a, z);
    }
  }

  /** The first loop: the last event of every id. */
  method PutEvents(a: seq<Event>) returns (d: seq<Event>)
    ensures PutTo(d, a)
  {
    d := [];
    assert FactsOf([]) == [];
    for i := 0 to |a|
      invariant PutTo(d, a[..i])
    {
      TakeSnoc(a, i);
      ghost var before := d;
      d := PutEvent(d, a[i]);
      PutNext(before, a[..i], a[i], d);
    }
    assert a[..|a|] == a;
  }

  /** What the second loop has made of `a` and the first events of `b`. */
  ghost predicate UnitedTo(d: seq<Event>, a: seq<Event>, b: seq<Event>)
    reads d, a, b
  {
    && FactsOf(d) == UnionById(FactsOf(a), FactsOf(b))
    && (forall x :: x in d ==> x in a || x in b)
    && (DistinctIds(FactsOf(a)) && DistinctIds(FactsOf(b)) ==> TakesExactly(d, a, b))
  }

  lemma UnitedNext(d: seq<Event>, a: seq<Event>, b: seq<Event>, z: Event)
    requires UnitedTo(d, a, b)
    requires FactsOf(PutLaterObject(d, z)) == PutLater(FactsOf(d), z.View().fact)
    ensures UnitedTo(PutLaterObject(d, z), a, b + [z])
  {
    FactsOfUpdate(b, 0, z);
    assert (b + [z])[|b|] == z;
    assert FactsOf(b + [z])[..|b|] == FactsOf(b);
    if DistinctIds(FactsOf(a)) && DistinctIds(FactsOf(b + [z])) {
      DistinctFront(b, z);
      UnionHasDistinctIds(FactsOf(a), FactsOf(b));
      TakesNext(d, a, b, z);
    }
  }

  method PutOneLater(d: seq<Event>, a: seq<Event>, b: seq<Event>, i: nat) returns (after: seq<Event>)
    requires i < |b| && UnitedTo(d, a, b[..i])
    ensures UnitedTo(after, a, b[..i + 1])
  {
    TakeSnoc(b, i);
    after := PutLaterEvent(d, b[i]);
    UnitedNext(d, a, b[..i], b[i]);
  }

  /** The union of two event lists by id. */
  method UnionEvents(a: seq<Event>, b: seq<Event>) returns (d: seq<Event>)
    ensures FactsOf(d) == UnionById(FactsOf(a), FactsOf(b))
    ensures forall x :: x in d ==> x in a || x in b
    ensures DistinctIds(FactsOf(a)) && DistinctIds(FactsOf(b)) ==> TakesExactly(d, a, b)
  {
    d := PutEvents(a);
    StartsUnited(d, a);
    for i := 0 to |b|
      invariant UnitedTo(d, a, b[..i])
    {
      d := PutOneLater(d, a, b, i);
    }
    assert b[..|b|] == b;
  }

  lemma StartsUnited(d: seq<Event>, a: seq<Event>)
    requires PutTo(d, a)
    ensures UnitedTo(d, a, [])
  {
    assert FactsOf([]) == [];
  }

  lemma NotFoundBefore(a: seq<Event>, z: Event)
    requires DistinctIds(FactsOf(a + [z]))
    ensures Find(FactsOf(a), z.body.id) == |a|
  {
    FactsAt(a + [z], |a|);
    forall k | 0 <= k < |a| ensures FactsOf(a)[k].body.id != z.body.id { FactsAt(a + [z], k); }
  }

  lemma DistinctFront(b: seq<Event>, z: Event)
    requires DistinctIds(FactsOf(b + [z]))
    ensures DistinctIds(FactsOf(b))
  {
    forall i, j | 0 <= i < j < |b| ensures FactsOf(b)[i].body.id != FactsOf(b)[j].body.id {
      assert FactsOf(b + [z])[i] == FactsOf(b)[i] && FactsOf(b + [z])[j] == FactsOf(b)[j];
    }
  }

  /** `sorted(events, key=timestamp)` */
  method SortEvents(es: seq<Event>) returns (sorted: seq<Event>)
    ensures FactsOf(sorted) == SortBy(FactsOf(es), Earlier)
    ensures multiset(sorted) == multiset(es)
  {
    var pairs: seq<(Fact, Event)> := [];
    for i := 0 to |es|
      invariant |pairs| == i
      invariant forall k :: 0 <= k < i ==> pairs[k] == (es[k].View().fact, es[k])
    {
      pairs := pairs + [(es[i].View().fact, es[i])];
    }
    var arranged := SortBy(pairs, OnFirst(Earlier));
    sorted := Seconds(arranged);
    SortKeepsElements(pairs, OnFirst(Earlier));
    SortOnFirst(pairs, Earlier);
    assert Firsts(pairs) == FactsOf(es);
    assert Seconds(pairs) == es;
    SecondsKeepElements(pairs, arranged);
    forall k | 0 <= k < |arranged| ensures arranged[k].0 == arranged[k].1.View().fact {
      assert arranged[k] in multiset(pairs);
    }
    assert Firsts(arranged) == FactsOf(sorted);
  }

  lemma DistinctIdsDistinctObjects(es: seq<Event>)
    requires DistinctIds(FactsOf(es))
    ensures DistinctObjects(es)
  {
    forall i, j | 0 <= i < j < |es| ensures es[i] != es[j] {
      FactsAt(es, i);
      FactsAt(es, j);
    }
  }

  lemma FactsOfMerged(H: Hasher, a: seq<Fact>, b: seq<Fact>)
    ensures Facts(AppendAll(H, [], MergeFacts(a, b))) == MergeFacts(a, b)
  {
    EarlierIsTotalPreorder();
    SortSorts(UnionById(a, b), Earlier);
    forall i, j | 0 <= i < j < |MergeFacts(a, b)| ensures MergeFacts(a, b)[i].ts <= MergeFacts(a, b)[j].ts {
      assert Earlier(MergeFacts(a, b)[i], MergeFacts(a, b)[j]);
    }
    AppendAllFacts(H, MergeFacts(a, b));
  }

  /** What `append` accepts from a chain of this concept. */
  predicate Fine(concept: string, f: Fact) { f.body.concept == concept && Readable(f.body) }

  ghost predicate MergeAppendable(concept: string, a: seq<Fact>, b: seq<Fact>) {
    forall f :: f in MergeFacts(a, b) ==> Fine(concept, f)
  }

  lemma AppendableFacts(concept: string, rs: seq<Record>)
    ensures Appendable(concept, rs) <==> forall f :: f in Facts(rs) ==> Fine(concept, f)
  {
    assert forall i :: 0 <= i < |rs| ==> Facts(rs)[i] == rs[i].fact && Facts(rs)[i] in Facts(rs);
    if Appendable(concept, rs) {
      forall f | f in Facts(rs) ensures Fine(concept, f) {
        var i :| 0 <= i < |rs| && Facts(rs)[i] == f;
      }
    }
    if forall f :: f in Facts(rs) ==> Fine(concept, f) {
      forall i | 0 <= i < |rs| ensures Fine(concept, rs[i].fact) { assert Facts(rs)[i] in Facts(rs); }
    }
  }

  /** Union and sort: the event objects of the merged chain, in order. */
  method GatherMerged(a: seq<Event>, b: seq<Event>) returns (sorted: seq<Event>)
    ensures FactsOf(sorted) == MergeFacts(FactsOf(a), FactsOf(b))
    ensures DistinctObjects(sorted)
    ensures forall i :: 0 <= i < |sorted| ==> sorted[i] in a || sorted[i] in b
    ensures DistinctIds(FactsOf(a)) && DistinctIds(FactsOf(b)) ==> TakesExactly(sorted, a, b)
  {
    var union := UnionEvents(a, b);
    sorted := SortEvents(union);
    SortedEventsAreDistinct(sorted, FactsOf(a), FactsOf(b));
    forall i | 0 <= i < |sorted| ensures sorted[i] in a || sorted[i] in b {
      assert sorted[i] in multiset(union);
    }
    SameElements(union, sorted);
  }

  /** A chain just built from the facts `fs`. */
  ghost predicate Built(c: EventChain, fs: seq<Fact>)
    reads c, c.events
  {
    c.CachesExact() && c.verifiedIds == [] && c.VerifierInv() && c.Records() == AppendAll(c.H, [], fs)
  }

  /** Re-anchoring objects that are already in time order: their links change, their facts do not. */
  method ReanchorSorted(H: Hasher, concept: string, es: seq<Event>, ghost fs: seq<Fact>) returns (r: Result<EventChain, ChainError>)
    requires DistinctObjects(es) && fs == FactsOf(es)
    requires Facts(AppendAll(H, [], fs)) == fs
    modifies es
    ensures r.Ok? <==> forall f :: f in fs ==> Fine(concept, f)
    ensures forall e :: e in es ==> e.body == old(e.body)
    ensures r.Ok? ==>
              && fresh(r.value) && r.value.H == H && r.value.conceptId == concept && r.value.events == es
              && Built(r.value, fs) && FactsOf(es) == fs
              && forall e :: e in es ==> e.timestamp == old(e.timestamp)
  {
    ghost var vs := Views(es);
    AppendableFacts(concept, vs);
    r := Reanchor(H, concept, es);
    if r.Ok? {
      TimesKept(r.value.Records(), vs);
      assert forall i :: 0 <= i < |es| ==> es[i].timestamp == vs[i].fact.ts;
    }
  }

  /** The gathered events of both chains, appended to a new one. */
  method JoinEvents(H: Hasher, concept: string, a: seq<Event>, b: seq<Event>, sorted: seq<Event>) returns (r: Result<EventChain, ChainError>)
    requires FactsOf(sorted) == MergeFacts(FactsOf(a), FactsOf(b)) && DistinctObjects(sorted)
    requires forall i :: 0 <= i < |sorted| ==> sorted[i] in a || sorted[i] in b
    modifies sorted
    ensures r.Ok? <==> MergeAppendable(concept, old(FactsOf(a)), old(FactsOf(b)))
    ensures r.Ok? ==>
              && fresh(r.value) && r.value.H == H && r.value.conceptId == concept && r.value.events == sorted
              && Built(r.value, MergeFacts(old(FactsOf(a)), old(FactsOf(b))))
              && FactsOf(sorted) == MergeFacts(old(FactsOf(a)), old(FactsOf(b)))
              && forall e :: e in a || e in b ==> e.body == old(e.body) && e.timestamp == old(e.timestamp)
  {
    FactsOfMerged(H, FactsOf(a), FactsOf(b));
    r := ReanchorSorted(H, concept, sorted, MergeFacts(FactsOf(a), FactsOf(b)));
  }

  /** The merge of two chains: the merged facts, appended from scratch. The facts of the input objects
      stay. The objects that are taken carry the links and hashes of the merged chain from then on, the
      others are left as they were. */
  method MergeTwo(a: EventChain, b: EventChain) returns (r: Result<EventChain, MergeError>)
    requires a.H == b.H
    modifies a.events, b.events
    ensures r.Ok? <==> a.conceptId == b.conceptId && MergeAppendable(a.conceptId, old(FactsOf(a.events)), old(FactsOf(b.events)))
    ensures a.conceptId != b.conceptId ==> r == Err(DifferentConcepts)
    ensures r.Ok? ==>
              && fresh(r.value) && r.value.H == a.H && r.value.conceptId == a.conceptId
              && Built(r.value, MergeFacts(old(FactsOf(a.events)), old(FactsOf(b.events))))
              && FactsOf(r.value.events) == MergeFacts(old(FactsOf(a.events)), old(FactsOf(b.events)))
              && (forall e :: e in r.value.events ==> e in a.events || e in b.events)
              && (forall e :: e in a.events || e in b.events ==> e.body == old(e.body) && e.timestamp == old(e.timestamp))
    ensures r.Ok? ==> forall e :: (e in a.events || e in b.events) && e !in r.value.events ==> e.View() == old(e.View())
    ensures r.Ok? && DistinctIds(old(FactsOf(a.events))) && DistinctIds(old(FactsOf(b.events))) ==>
              forall e :: e in a.events || e in b.events ==> (e in r.value.events <==> old(Takes(e, a.events, b.events)))
  {
    if a.conceptId != b.conceptId {
      return Err(DifferentConcepts);
    }
    var sorted := GatherMerged(a.events, b.events);
    var merged := JoinEvents(a.H, a.conceptId, a.events, b.events, sorted);
    match merged
    case Err(e) => r := Err(AppendFailed(e));
    case Ok(chain) => r := Ok(chain);
  }

  lemma SortedEventsAreDistinct(sorted: seq<Event>, a: seq<Fact>, b: seq<Fact>)
    requires FactsOf(sorted) == MergeFacts(a, b)
    ensures DistinctObjects(sorted)
  {
    UnionHasDistinctIds(a, b);
    SortedUnion(UnionById(a, b));
    DistinctIdsDistinctObjects(sorted);
  }

  lemma TimesKept(rs: seq<Record>, vs: seq<Record>)
    requires Facts(rs) == Facts(vs)
    ensures |rs| == |vs| && forall i :: 0 <= i < |rs| ==> rs[i].fact == vs[i].fact
  {
    assert |rs| == |Facts(rs)| && |vs| == |Facts(vs)|;
    forall i | 0 <= i < |rs| ensures rs[i].fact == vs[i].fact {
      assert Facts(rs)[i] == Facts(vs)[i];
    }
  }

  // ----- N chains -----

  ghost function AllEvents(chains: seq<EventChain>): set<Event>
    reads chains
  {
    set c, e | c in chains && e in c.events :: e
  }

  /** What the events hold, written down once. */
  ghost function Noted(all: set<Event>): map<Event, Fact>
    reads all
  {
    map e | e in all :: e.View().fact
  }

  /** The events still hold what was noted. */
  ghost predicate Kept(all: set<Event>, notes: map<Event, Fact>)
    reads all
  {
    all <= notes.Keys && forall e :: e in all ==> e.View().fact == notes[e]
  }

  ghost function Recall(es: seq<Event>, notes: map<Event, Fact>): seq<Fact>
    requires forall e :: e in es ==> e in notes
  {
    seq(|es|, i requires 0 <= i < |es| => notes[es[i]])
  }

  lemma RecallKept(es: seq<Event>, all: set<Event>, notes: map<Event, Fact>)
    requires Kept(all, notes) && forall e :: e in es ==> e in all
    ensures FactsOf(es) == Recall(es, notes)
  {
    assert forall i :: 0 <= i < |es| ==> es[i] in es;
  }

  /** The facts of every chain, in the order of the chains. */
  ghost function FactLists(chains: seq<EventChain>, notes: map<Event, Fact>): (fss: seq<seq<Fact>>)
    reads chains
    requires AllEvents(chains) <= notes.Keys
    ensures |fss| == |chains|
    ensures forall i :: 0 <= i < |chains| ==>
      (forall e :: e in chains[i].events ==> e in notes) && fss[i] == Recall(chains[i].events, notes)
  {
    assert forall i :: 0 <= i < |chains| ==> chains[i] in chains;
    assert forall i :: 0 <= i < |chains| ==> forall e :: e in chains[i].events ==> e in AllEvents(chains);
    seq(|chains|, i requires 0 <= i < |chains| && (forall e :: e in chains[i].events ==> e in notes) reads chains =>
      Recall(chains[i].events, notes))
  }

  lemma MergeOfFine(concept: string, a: seq<Fact>, b: seq<Fact>)
    requires (forall f :: f in a ==> Fine(concept, f)) && (forall f :: f in b ==> Fine(concept, f))
    ensures forall f :: f in MergeFacts(a, b) ==> Fine(concept, f)
  {
    var u := UnionById(a, b);
    UnionCovers(a, b);
    SortKeepsElements(u, Earlier);
    forall f | f in MergeFacts(a, b) ensures Fine(concept, f) {
      assert f in multiset(u);
      assert f in Set(u);
      assert f in Set(a) + Set(b);
    }
  }

  /** The chain's events are among `all`, and their noted facts are `fs`. */
  ghost predicate Carries(c: EventChain, H: Hasher, concept: string, all: set<Event>, notes: map<Event, Fact>, fs: seq<Fact>)
    requires all <= notes.Keys
    reads c
  {
    c.H == H && c.conceptId == concept && (forall e :: e in c.events ==> e in all) && Recall(c.events, notes) == fs
  }

  /** One step of the fold, from chains whose facts are `fa` and `fc`. */
  method MergeNext(acc: EventChain, c: EventChain, ghost all: set<Event>, ghost notes: map<Event, Fact>,
                   ghost fa: seq<Fact>, ghost fc: seq<Fact>)
    returns (r: Result<EventChain, MergeError>)
    requires Kept(all, notes)
    requires Carries(acc, acc.H, acc.conceptId, all, notes, fa) && Carries(c, acc.H, acc.conceptId, all, notes, fc)
    modifies all
    ensures r.Ok? <==> MergeAppendable(acc.conceptId, fa, fc)
    ensures r.Ok? ==>
              && Kept(all, notes)
              && fresh(r.value) && Built(r.value, MergeFacts(fa, fc))
              && Carries(r.value, acc.H, acc.conceptId, all, notes, MergeFacts(fa, fc))
  {
    RecallKept(acc.events, all, notes);
    RecallKept(c.events, all, notes);
    r := MergeTwo(acc, c);
    if r.Ok? {
      forall e | e in all ensures e.View().fact == notes[e] {
        assert e.body == old(e.body) && e.timestamp == old(e.timestamp);
        assert old(e.View().fact) == notes[e];
      }
      RecallKept(r.value.events, all, notes);
    }
  }

  /** The merge that brings in the `n`-th list appends nothing unacceptable. Versions that are superseded later count too. */
  ghost predicate StepAppendable(concept: string, fss: seq<seq<Fact>>, n: nat)
    requires 2 <= n <= |fss|
  {
    MergeAppendable(concept, FoldFacts(fss[..n - 1]), fss[n - 1])
  }

  /** No append of the whole fold raises. */
  ghost predicate FoldAppendable(concept: string, fss: seq<seq<Fact>>)
    requires fss != []
  {
    if |fss| == 1 then forall f :: f in fss[0] ==> Fine(concept, f)
    else forall n :: 2 <= n <= |fss| ==> StepAppendable(concept, fss, n)
  }

  ghost predicate ListFine(concept: string, fs: seq<Fact>) { forall f :: f in fs ==> Fine(concept, f) }

  lemma {:induction false} FoldOfFine(concept: string, fss: seq<seq<Fact>>)
    requires fss != [] && forall i :: 0 <= i < |fss| ==> ListFine(concept, fss[i])
    ensures ListFine(concept, FoldFacts(fss))
  {
    var n := |fss| - 1;
    if n > 0 {
      FoldOfFine(concept, fss[..n]);
      assert ListFine(concept, fss[n]);
      MergeOfFine(concept, FoldFacts(fss[..n]), fss[n]);
    }
  }

  /** When every event is acceptable, every merge is. */
  lemma FineFolds(concept: string, fss: seq<seq<Fact>>)
    requires fss != [] && forall i :: 0 <= i < |fss| ==> ListFine(concept, fss[i])
    ensures FoldAppendable(concept, fss)
  {
    assert ListFine(concept, fss[0]);
    forall n | 2 <= n <= |fss| ensures StepAppendable(concept, fss, n) {
      FoldOfFine(concept, fss[..n - 1]);
      assert ListFine(concept, fss[n - 1]);
      MergeOfFine(concept, FoldFacts(fss[..n - 1]), fss[n - 1]);
    }
  }

  /** The pairwise fold over at least two chains of one concept. */
  method FoldChains(chains: seq<EventChain>, ghost all: set<Event>, ghost notes: map<Event, Fact>, ghost fss: seq<seq<Fact>>)
    returns (r: Result<EventChain, MergeError>)
    requires |chains| >= 2 && Kept(all, notes) && |fss| == |chains|
    requires forall i :: 0 <= i < |chains| ==> Carries(chains[i], chains[0].H, chains[0].conceptId, all, notes, fss[i])
    modifies all
    ensures r.Ok? <==> FoldAppendable(chains[0].conceptId, fss)
    ensures r.Ok? ==> fresh(r.value) && r.value.H == chains[0].H && Built(r.value, FoldFacts(fss))
  {
    FoldStarts(fss);
    assert StepAppendable(chains[0].conceptId, fss, 2) <==> MergeAppendable(chains[0].conceptId, fss[0], fss[1]);
    r := MergeNext(chains[0], chains[1], all, notes, fss[0], fss[1]);
    if r.Ok? { r := FoldRest(r.value, chains, chains[0].H, chains[0].conceptId, all, notes, fss); }
    assert fss[..|fss|] == fss;
  }

  /** What the fold has made of the first `n` lists. */
  ghost predicate FoldedTo(c: EventChain, H: Hasher, concept: string, all: set<Event>, notes: map<Event, Fact>, fss: seq<seq<Fact>>, n: nat)
    requires 1 <= n <= |fss| && all <= notes.Keys
    reads c, c.events
  {
    Built(c, FoldFacts(fss[..n])) && Carries(c, H, concept, all, notes, FoldFacts(fss[..n]))
  }

  /** One more chain. */
  method FoldOne(acc: EventChain, c: EventChain, ghost H: Hasher, ghost concept: string, ghost all: set<Event>, ghost notes: map<Event, Fact>,
                 ghost fss: seq<seq<Fact>>, ghost i: nat)
    returns (r: Result<EventChain, MergeError>)
    requires 1 <= i < |fss| && Kept(all, notes) && FoldedTo(acc, H, concept, all, notes, fss, i) && Carries(c, H, concept, all, notes, fss[i])
    modifies all
    ensures r.Ok? <==> StepAppendable(concept, fss, i + 1)
    ensures r.Ok? ==> Kept(all, notes) && fresh(r.value) && FoldedTo(r.value, H, concept, all, notes, fss, i + 1)
  {
    FoldNext(fss, i);
    r := MergeNext(acc, c, all, notes, FoldFacts(fss[..i]), fss[i]);
  }

  ghost predicate StepsAppendable(concept: string, fss: seq<seq<Fact>>, n: nat)
    requires n <= |fss|
  {
    forall k :: 3 <= k <= n ==> StepAppendable(concept, fss, k)
  }

  method FoldRest(first: EventChain, chains: seq<EventChain>, ghost H: Hasher, ghost concept: string,
                  ghost all: set<Event>, ghost notes: map<Event, Fact>, ghost fss: seq<seq<Fact>>)
    returns (r: Result<EventChain, MergeError>)
    requires |chains| >= 2 && Kept(all, notes) && |fss| == |chains| && FoldedTo(first, H, concept, all, notes, fss, 2)
    requires forall i :: 2 <= i < |chains| ==> Carries(chains[i], H, concept, all, notes, fss[i])
    modifies all
    ensures r.Ok? <==> StepsAppendable(concept, fss, |fss|)
    ensures r.Ok? ==> (r.value == first || fresh(r.value)) && FoldedTo(r.value, H, concept, all, notes, fss, |fss|)
  {
    var merged := first;
    for i := 2 to |chains|
      invariant Kept(all, notes) && (merged == first || fresh(merged)) && FoldedTo(merged, H, concept, all, notes, fss, i)
      invariant StepsAppendable(concept, fss, i)
    {
      r := FoldOne(merged, chains[i], H, concept, all, notes, fss, i);
      if r.Err? { return; }
      merged := r.value;
    }
    r := Ok(merged);
  }

  lemma FoldNext(fss: seq<seq<Fact>>, i: nat)
    requires 1 <= i < |fss|
    ensures FoldFacts(fss[..i + 1]) == MergeFacts(FoldFacts(fss[..i]), fss[i])
  {
    TakeSnoc(fss, i);
  }

  lemma FoldStarts(fss: seq<seq<Fact>>)
    requires |fss| >= 2
    ensures FoldFacts(fss[..2]) == MergeFacts(fss[0], fss[1]) && FoldFacts(fss[..1]) == fss[0]
  {
    assert fss[..2][..1] == [fss[0]] == fss[..1];
  }

  method OneConcept(chains: seq<EventChain>) returns (same: bool)
    requires chains != []
    ensures same <==> forall c :: c in chains ==> c.conceptId == chains[0].conceptId
  {
    for i := 1 to |chains|
      invariant forall k :: 0 <= k < i ==> chains[k].conceptId == chains[0].conceptId
    {
      if chains[i].conceptId != chains[0].conceptId {
        assert chains[i] in chains;
        return false;
      }
    }
    same := true;
  }

  /** `merge_event_chains`: nothing, one chain (re-appended), or the pairwise fold. */
  method MergeEventChains(chains: seq<EventChain>) returns (r: Result<EventChain, MergeError>)
    requires forall c :: c in chains ==> c.H == chains[0].H
    requires |chains| == 1 ==> DistinctObjects(chains[0].events)
    modifies AllEvents(chains)
    ensures chains == [] ==> r == Err(NoChains)
    ensures (exists c :: c in chains && c.conceptId != chains[0].conceptId) ==> r == Err(DifferentConcepts)
    ensures chains != [] && (forall c :: c in chains ==> c.conceptId == chains[0].conceptId) ==>
              (r.Ok? <==> FoldAppendable(chains[0].conceptId, FactLists(chains, old(Noted(AllEvents(chains))))))
    ensures r.Ok? ==> chains != [] && fresh(r.value) && r.value.CachesExact() && r.value.verifiedIds == []
    ensures r.Ok? ==>
      r.value.Records() == AppendAll(chains[0].H, [], FoldFacts(FactLists(chains, old(Noted(AllEvents(chains))))))
  {
    if chains == [] {
      return Err(NoChains);
    }
    var same := OneConcept(chains);
    if !same {
      return Err(DifferentConcepts);
    }
    ghost var all := AllEvents(chains);
    ghost var notes := Noted(all);
    ghost var fss := FactLists(chains, notes);
    assert forall i :: 0 <= i < |chains| ==> chains[i] in chains;
    if |chains| == 1 {
      r := CopyChain(chains[0], all, notes);
      assert FoldFacts(fss) == fss[0];
    } else {
      r := FoldChains(chains, all, notes, fss);
    }
  }

  /** The single-chain case: the same event objects, appended again. */
  method CopyChain(c: EventChain, ghost all: set<Event>, ghost notes: map<Event, Fact>) returns (r: Result<EventChain, MergeError>)
    requires Kept(all, notes) && DistinctObjects(c.events) && forall e :: e in c.events ==> e in all
    modifies all
    ensures r.Ok? <==> ListFine(c.conceptId, Recall(c.events, notes))
    ensures r.Ok? ==>
              && fresh(r.value) && r.value.CachesExact() && r.value.verifiedIds == []
              && r.value.Records() == AppendAll(c.H, [], Recall(c.events, notes))
  {
    RecallKept(c.events, all, notes);
    AppendableFacts(c.conceptId, Views(c.events));
    assert Facts(Views(c.events)) == Recall(c.events, notes);
    var copy := Reanchor(c.H, c.conceptId, c.events);
    match copy
    case Err(e) => r := Err(AppendFailed(e));
    case Ok(chain) => r := Ok(chain);
  }
}
