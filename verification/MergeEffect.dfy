/** What `_merge_two_chains` does to the chains it merges (adl_lite/crdt.py): the event objects that are taken carry the links
    and hashes of the merged chain from then on, the superseded ones keep theirs, so an input may stop verifying. */
module MergeEffects {
  import opened Basics
  import opened Events
  import opened TailHash
  import opened Crdt
  import opened CrdtLaws
  import opened CrdtBrackets
  import opened SyncManagers
  import opened PullEffects
  import opened Relinking
  import opened EventChains
  import opened ReplicaMerge

  // ----- the two inputs of a merge -----

  /** The merged chain, from the records of its inputs. */
  function MergedRecords(H: Hasher, a: seq<Record>, b: seq<Record>): seq<Record> {
    AppendAll(H, [], MergeFacts(Facts(a), Facts(b)))
  }

  /** The events of the first chain that the second has in a version at least as late. */
  ghost function Superseded(a: seq<Record>, b: seq<Record>): set<string> {
    set r, s | r in a && s in b && s.Id() == r.Id() && r.Ts() <= s.Ts() :: r.Id()
  }

  /** The events of the second chain that the first has in a strictly later version. */
  ghost function Outdated(a: seq<Record>, b: seq<Record>): set<string> {
    set r, s | r in a && s in b && s.Id() == r.Id() && s.Ts() < r.Ts() :: s.Id()
  }

  lemma FactsDistinct(rs: seq<Record>)
    ensures Axiom5(rs) <==> DistinctIds(Facts(rs))
    ensures FactIds(Facts(rs)) == IdSet(rs)
  {
    assert forall i :: 0 <= i < |rs| ==> Facts(rs)[i].body.id == rs[i].Id();
    if DistinctIds(Facts(rs)) {
      forall i, j | 0 <= i < j < |rs| ensures rs[i].Id() != rs[j].Id() { assert Facts(rs)[i].body.id != Facts(rs)[j].body.id; }
    }
    forall f | f in Facts(rs) ensures f.body.id in IdSet(rs) {
      var i :| 0 <= i < |rs| && Facts(rs)[i] == f;
      assert rs[i] in rs;
    }
    forall r | r in rs ensures r.Id() in FactIds(Facts(rs)) {
      var i :| 0 <= i < |rs| && rs[i] == r;
      assert Facts(rs)[i] in Facts(rs);
    }
  }

  lemma MergedHolds(H: Hasher, a: seq<Record>, b: seq<Record>)
    requires Axiom5(a) && Axiom5(b)
    ensures var out := MergedRecords(H, a, b);
      AppendBuilt(H, out) && Axiom5(out) && IdSet(out) == IdSet(a) + IdSet(b) && Facts(out) == MergeFacts(Facts(a), Facts(b))
  {
    var out := MergedRecords(H, a, b);
    FactsDistinct(a);
    FactsDistinct(b);
    MergeIds(Facts(a), Facts(b));
    FactsOfMerged(H, Facts(a), Facts(b));
    FactsDistinct(out);
    AppendAllIsBuilt(H, [], MergeFacts(Facts(a), Facts(b)));
  }

  /** An event whose fact is in the merge was appended to it. */
  lemma FactTaken(H: Hasher, out: seq<Record>, own: seq<Record>, j: nat)
    requires AppendBuilt(H, out) && Axiom5(out) && j < |own| && own[j].fact in Facts(out)
    ensures AppendedAt(H, out, own, j) && out[Place(out, own[j].Id())].fact == own[j].fact
  {
    var p :| 0 <= p < |Facts(out)| && Facts(out)[p] == own[j].fact;
    assert out[p].fact == own[j].fact && out[p] in out;
    UniquePlace(out, p, Place(out, own[j].Id()));
    BuiltLinks(H, out, p);
  }

  /** All events of `own` but those `alone` are in the merge as they were. */
  ghost predicate FactsKept(alone: set<string>, out: seq<Record>, own: seq<Record>) {
    forall j :: 0 <= j < |own| && own[j].Id() !in alone ==> own[j].fact in Facts(out)
  }

  lemma FirstKept(H: Hasher, a: seq<Record>, b: seq<Record>)
    requires Axiom5(a) && Axiom5(b)
    ensures FactsKept(Superseded(a, b), MergedRecords(H, a, b), a)
  {
    var fa, fb := Facts(a), Facts(b);
    MergedHolds(H, a, b);
    FactsDistinct(a);
    FactsDistinct(b);
    MergeIds(fa, fb);
    forall j | 0 <= j < |a| && a[j].Id() !in Superseded(a, b) ensures a[j].fact in Facts(MergedRecords(H, a, b)) {
      KeepsVersion(a, b, j);
      assert Settled(fa, fb)[j] == fa[j];
    }
  }

  lemma KeepsVersion(a: seq<Record>, b: seq<Record>, j: nat)
    requires j < |a| && a[j].Id() !in Superseded(a, b)
    ensures Version(Facts(a)[j], Facts(b)) == Facts(a)[j]
  {
    var i := Find(Facts(b), a[j].Id());
    if i < |b| { assert a[j] in a && b[i] in b && b[i].Id() == a[j].Id(); }
  }

  lemma SecondKept(H: Hasher, a: seq<Record>, b: seq<Record>)
    requires Axiom5(a) && Axiom5(b)
    ensures FactsKept(Outdated(a, b), MergedRecords(H, a, b), b)
  {
    MergedHolds(H, a, b);
    forall j | 0 <= j < |b| && b[j].Id() !in Outdated(a, b) ensures b[j].fact in Facts(MergedRecords(H, a, b)) { NewcomerKept(a, b, j); }
  }

  lemma NewcomerKept(a: seq<Record>, b: seq<Record>, j: nat)
    requires Axiom5(a) && Axiom5(b) && j < |b| && b[j].Id() !in Outdated(a, b)
    ensures b[j].fact in MergeFacts(Facts(a), Facts(b))
  {
    var fa, fb := Facts(a), Facts(b);
    FactsDistinct(a);
    FactsDistinct(b);
    assert fb[j] in fb && b[j] in b;
    forall g | g in fa && g.body.id == fb[j].body.id ensures g.ts <= fb[j].ts {
      var i :| 0 <= i < |a| && fa[i] == g;
      assert a[i] in a;
    }
    NewcomerStays(fa, fb, fb[j]);
  }

  /** A merge moves no timestamps, so only the neighbours matter. */
  lemma InputVerifiesIff(H: Hasher, concept: string, alone: set<string>, out: seq<Record>, own: seq<Record>)
    requires WellFormed(H, concept, own) && AppendBuilt(H, out) && Axiom5(out) && IdSet(own) <= IdSet(out) && FactsKept(alone, out, own)
    ensures CollisionBetween(H, own, out) || (WellFormed(H, concept, Relinked(alone, out, own)) <==> StaysChained(alone, out, own))
  {
    var rs := Relinked(alone, out, own);
    BuiltIsHashed(H, out);
    forall j | 0 <= j < |own| && own[j].Id() !in alone ensures AppendedAt(H, out, own, j) { FactTaken(H, out, own, j); }
    forall j | 0 <= j < |own| ensures rs[j].fact == own[j].fact {
      AfterAt(H, alone, out, own, j);
      if own[j].Id() !in alone { FactTaken(H, out, own, j); }
    }
    assert Axiom7(rs);
    RelinkedVerifiesIff(H, concept, alone, out, own);
  }

  /** After a merge of verifying chains that share no event object: when each of them still verifies. */
  lemma MergeLeavesInputsIff(H: Hasher, concept: string, a: seq<Record>, b: seq<Record>)
    requires WellFormed(H, concept, a) && WellFormed(H, concept, b)
    ensures var out := MergedRecords(H, a, b);
      && IdSet(a) <= IdSet(out) && IdSet(b) <= IdSet(out)
      && (CollisionBetween(H, a, out) ||
          (WellFormed(H, concept, Relinked(Superseded(a, b), out, a)) <==> StaysChained(Superseded(a, b), out, a)))
      && (CollisionBetween(H, b, out) ||
          (WellFormed(H, concept, Relinked(Outdated(a, b), out, b)) <==> StaysChained(Outdated(a, b), out, b)))
  {
    MergedHolds(H, a, b);
    FirstKept(H, a, b);
    SecondKept(H, a, b);
    InputVerifiesIff(H, concept, Superseded(a, b), MergedRecords(H, a, b), a);
    InputVerifiesIff(H, concept, Outdated(a, b), MergedRecords(H, a, b), b);
  }

  // ----- on objects -----

  /** Of the events `es`, those with ids in `alone` hold what they held before, and exactly the others are in `d`. */
  ghost predicate LeftAs(es: seq<Event>, before: seq<Record>, d: seq<Event>, alone: set<string>)
    reads es
  {
    |before| == |es| && forall j :: 0 <= j < |es| ==> LeftAt(es[j], before[j], es[j] in d, alone)
  }

  ghost predicate LeftAt(e: Event, was: Record, taken: bool, alone: set<string>)
    reads e
  {
    e.body.id == was.Id() && (was.Id() in alone <==> !taken) && (!taken ==> e.View() == was)
  }

  lemma LeftWith(es: seq<Event>, before: seq<Record>, d: seq<Event>, out: seq<Record>, alone: set<string>)
    requires LeftAs(es, before, d, alone) && out == Views(d) && Axiom5(out) && IdSet(before) <= IdSet(out)
    ensures Views(es) == Relinked(alone, out, before)
  {
    forall j | 0 <= j < |es| ensures Views(es)[j] == Relinked(alone, out, before)[j] {
      RelinkedAt(alone, out, before, j);
      assert LeftAt(es[j], before[j], es[j] in d, alone);
      if es[j] in d {
        var k :| 0 <= k < |d| && d[k] == es[j];
        assert out[k] == es[j].View();
        UniqueById(out, k, Relinked(alone, out, before)[j]);
      }
    }
  }

  lemma SupersededIff(a: seq<Event>, b: seq<Event>, j: nat)
    requires j < |a| && a[j] !in b && Axiom5(Views(a))
    ensures Views(a)[j].Id() in Superseded(Views(a), Views(b)) <==> !Takes(a[j], a, b)
  {
    var ra, rb, e := Views(a), Views(b), a[j];
    assert ra[j] in ra;
    if ra[j].Id() in Superseded(ra, rb) {
      var r, s :| r in ra && s in rb && s.Id() == r.Id() && r.Ts() <= s.Ts() && r.Id() == ra[j].Id();
      UniqueById(ra, j, r);
      var k :| 0 <= k < |rb| && rb[k] == s;
      assert b[k] in b && b[k].body.id == e.body.id;
    }
    if !Takes(e, a, b) {
      var y :| y in b && y.body.id == e.body.id && y.timestamp >= e.timestamp;
      var k :| 0 <= k < |b| && b[k] == y;
      assert rb[k] in rb;
    }
  }

  lemma OutdatedIff(a: seq<Event>, b: seq<Event>, j: nat)
    requires j < |b| && b[j] !in a && Axiom5(Views(b))
    ensures Views(b)[j].Id() in Outdated(Views(a), Views(b)) <==> !Takes(b[j], a, b)
  {
    var ra, rb, e := Views(a), Views(b), b[j];
    assert rb[j] in rb;
    if rb[j].Id() in Outdated(ra, rb) {
      var r, s :| r in ra && s in rb && s.Id() == r.Id() && s.Ts() < r.Ts() && s.Id() == rb[j].Id();
      UniqueById(rb, j, s);
      var k :| 0 <= k < |ra| && ra[k] == r;
      assert a[k] in a && a[k].body.id == e.body.id;
    }
    if !Takes(e, a, b) {
      var x :| x in a && x.body.id == e.body.id && x.timestamp > e.timestamp;
      var k :| 0 <= k < |a| && a[k] == x;
      assert ra[k] in ra;
    }
  }

  /** The events of `es` that a merge does not take have the ids in `alone`. */
  ghost predicate LeavesAlone(es: seq<Event>, a: seq<Event>, b: seq<Event>, alone: set<string>)
    reads es, a, b
  {
    forall j :: 0 <= j < |es| ==> (es[j].body.id in alone <==> !Takes(es[j], a, b))
  }

  method MergeNoting(a: EventChain, b: EventChain, ghost one: set<string>, ghost two: set<string>) returns (r: Result<EventChain, MergeError>)
    requires a.H == b.H && DistinctIds(FactsOf(a.events)) && DistinctIds(FactsOf(b.events))
    requires LeavesAlone(a.events, a.events, b.events, one) && LeavesAlone(b.events, a.events, b.events, two)
    modifies a.events, b.events
    ensures r.Ok? <==> a.conceptId == b.conceptId && MergeAppendable(a.conceptId, old(FactsOf(a.events)), old(FactsOf(b.events)))
    ensures r.Ok? ==> r.value.Records() == MergedRecords(a.H, old(a.Records()), old(b.Records()))
    ensures r.Ok? ==> LeftAs(a.events, old(a.Records()), r.value.events, one) && LeftAs(b.events, old(b.Records()), r.value.events, two)
  {
    ghost var ra, rb := a.Records(), b.Records();
    r := MergeTwo(a, b);
    if r.Ok? {
      forall j | 0 <= j < |ra| ensures LeftAt(a.events[j], ra[j], a.events[j] in r.value.events, one) { assert a.events[j] in a.events; }
      forall j | 0 <= j < |rb| ensures LeftAt(b.events[j], rb[j], b.events[j] in r.value.events, two) { assert b.events[j] in b.events; }
    }
  }

  /** Merging two chain objects that share no event object: what the lists of both hold afterwards. */
  method MergeInputs(a: EventChain, b: EventChain) returns (r: Result<EventChain, MergeError>)
    requires a.H == b.H && Axiom5(a.Records()) && Axiom5(b.Records()) && forall e :: e in a.events ==> e !in b.events
    modifies a.events, b.events
    ensures r.Ok? <==> a.conceptId == b.conceptId && MergeAppendable(a.conceptId, old(FactsOf(a.events)), old(FactsOf(b.events)))
    ensures r.Ok? ==>
      var one, two := old(a.Records()), old(b.Records());
      var out := MergedRecords(a.H, one, two);
      && r.value.Records() == out && IdSet(one) <= IdSet(out) && IdSet(two) <= IdSet(out)
      && a.Records() == Relinked(Superseded(one, two), out, one)
      && b.Records() == Relinked(Outdated(one, two), out, two)
  {
    ghost var one, two := a.Records(), b.Records();
    FactsDistinct(one);
    FactsDistinct(two);
    MergedHolds(a.H, one, two);
    forall j | 0 <= j < |a.events| ensures a.events[j].body.id in Superseded(one, two) <==> !Takes(a.events[j], a.events, b.events) {
      SupersededIff(a.events, b.events, j);
    }
    forall j | 0 <= j < |b.events| ensures b.events[j].body.id in Outdated(one, two) <==> !Takes(b.events[j], a.events, b.events) {
      OutdatedIff(a.events, b.events, j);
    }
    r := MergeNoting(a, b, Superseded(one, two), Outdated(one, two));
    if r.Ok? {
      LeftWith(a.events, one, r.value.events, r.value.Records(), Superseded(one, two));
      LeftWith(b.events, two, r.value.events, r.value.Records(), Outdated(one, two));
    }
  }
}
