/** Edge and center synchronisation (adl_lite/sync_manager.py): `diff`, and what `push` and `pull`
    make of two lists of records. */
module SyncManagers {
  import opened Basics
  import opened Events
  import opened DerivedState
  import opened EventChains
  import opened Integrity

  // ----- on records -----

  /** The sort key (timestamp, hash). */
  predicate ByTimeHash(r: Record, s: Record) {
    r.Ts() < s.Ts() || (r.Ts() == s.Ts() && StringLe(r.hash, s.hash))
  }

  lemma ByTimeHashIsTotalPreorder()
    ensures TotalPreorder(ByTimeHash)
  {
    forall r, s ensures ByTimeHash(r, s) || ByTimeHash(s, r) { StringLeTotal(r.hash, s.hash); }
    forall r, s, t | ByTimeHash(r, s) && ByTimeHash(s, t) ensures ByTimeHash(r, t) {
      if StringLe(r.hash, s.hash) && StringLe(s.hash, t.hash) { StringLeTransitive(r.hash, s.hash, t.hash); }
    }
  }

  /** `diff`: what the receiver does not have yet, in the sender's order. */
  function Diff(known: set<string>, rs: seq<Record>): seq<Record> {
    if rs == [] then []
    else
      var rest := Diff(known, rs[..|rs| - 1]);
      var r := rs[|rs| - 1];
      if r.Id() in known then rest else rest + [r]
  }

  /** The receiver's list re-appended, followed by what is new to it in (timestamp, hash) order. */
  function Received(H: Hasher, own: seq<Record>, other: seq<Record>): seq<Record> {
    AppendAll(H, AppendAll(H, [], Facts(own)), Facts(NewFor(IdSet(own), other)))
  }

  lemma {:induction false} DiffIsFilter(known: set<string>, rs: seq<Record>)
    ensures forall r :: r in Diff(known, rs) <==> r in rs && r.Id() !in known
  {
    if rs == [] {
    } else {
      var n := |rs| - 1;
      DiffIsFilter(known, rs[..n]);
      TakeSnoc(rs, n);
      assert rs[..n + 1] == rs;
    }
  }

  lemma {:induction false} DiffDistinct(known: set<string>, rs: seq<Record>)
    requires Axiom5(rs)
    ensures Axiom5(Diff(known, rs))
  {
    if rs == [] {
    } else {
      var n := |rs| - 1;
      DiffDistinct(known, rs[..n]);
      DiffIsFilter(known, rs[..n]);
      var rest := Diff(known, rs[..n]);
      forall i | 0 <= i < |rest| ensures rest[i].Id() != rs[n].Id() {
        assert rest[i] in rest;
        var k :| 0 <= k < n && rs[..n][k] == rest[i];
        assert rs[k] == rest[i];
      }
    }
  }

  /** What is appended: the diff in (timestamp, hash) order. */
  function NewFor(known: set<string>, rs: seq<Record>): seq<Record> { SortBy(Diff(known, rs), ByTimeHash) }

  lemma NewForMeaning(known: set<string>, rs: seq<Record>)
    ensures forall r :: r in NewFor(known, rs) <==> r in rs && r.Id() !in known
    ensures Axiom5(rs) ==> Axiom5(NewFor(known, rs))
  {
    var ds := Diff(known, rs);
    DiffIsFilter(known, rs);
    SortKeepsElements(ds, ByTimeHash);
    SameElements(ds, NewFor(known, rs));
    if Axiom5(rs) {
      DiffDistinct(known, rs);
      DistinctKeysRearranged(ds, NewFor(known, rs), (r: Record) => r.Id());
    }
  }

  /** Only the last event may have an empty id: the others are named by the event after them. */
  ghost predicate NamedButLast(rs: seq<Record>) { forall i :: 0 <= i < |rs| - 1 ==> rs[i].Id() != "" }

  /** `out` is `own` followed by records with the bodies of `added`. */
  ghost predicate Extends(out: seq<Record>, own: seq<Record>, added: seq<Record>) {
    && |out| == |own| + |added| && out[..|own|] == own
    && forall i :: 0 <= i < |added| ==> out[|own| + i].fact.body == added[i].fact.body
  }

  /** The receiver keeps its old chain as an unchanged prefix, hashes included, and appends new bodies. */
  lemma ReceivedShape(H: Hasher, own: seq<Record>, other: seq<Record>)
    requires AppendBuilt(H, own)
    ensures AppendBuilt(H, Received(H, own, other))
    ensures Extends(Received(H, own, other), own, NewFor(IdSet(own), other))
  {
    Reappend(H, own);
    ExtendedBy(H, own, NewFor(IdSet(own), other));
  }

  lemma ExtendedBy(H: Hasher, own: seq<Record>, added: seq<Record>)
    requires AppendBuilt(H, own)
    ensures AppendBuilt(H, AppendAll(H, own, Facts(added)))
    ensures Extends(AppendAll(H, own, Facts(added)), own, added)
  {
    AppendAllIsBuilt(H, own, Facts(added));
    AppendAllKeepsBase(H, own, Facts(added));
    AppendAllBodies(H, own, Facts(added));
    assert forall i :: 0 <= i < |added| ==> Facts(added)[i].body == added[i].fact.body;
  }

  /** Afterwards the receiver has the union of the two id sets, each once. */
  lemma ReceivedIds(H: Hasher, own: seq<Record>, other: seq<Record>)
    requires AppendBuilt(H, own) && Axiom5(own) && Axiom5(other)
    ensures IdSet(Received(H, own, other)) == IdSet(own) + IdSet(other)
    ensures Axiom5(Received(H, own, other))
  {
    var out := Received(H, own, other);
    var added := NewFor(IdSet(own), other);
    ReceivedShape(H, own, other);
    NewForMeaning(IdSet(own), other);
    IdsOfParts(out, own, added);
    forall id | id in IdSet(other) && id !in IdSet(own) ensures id in IdSet(added) {
      var r :| r in other && r.Id() == id;
      assert r in added;
    }
    DistinctParts(out, own, added);
  }

  lemma NewForInOrder(known: set<string>, rs: seq<Record>, i: nat, j: nat)
    requires i < j < |NewFor(known, rs)|
    ensures var r, s := NewFor(known, rs)[i], NewFor(known, rs)[j];
      r.Ts() < s.Ts() || (r.Ts() == s.Ts() && StringLe(r.hash, s.hash))
  {
    ByTimeHashIsTotalPreorder();
    SortSorts(Diff(known, rs), ByTimeHash);
  }

  /** Behind records in time order the appended ones keep their times, lifted to that of the old tail where they are earlier. */
  lemma {:induction false} AppendedTime(H: Hasher, own: seq<Record>, added: seq<Record>, i: nat)
    requires i < |added| && forall j, k :: 0 <= j < k < |added| ==> added[j].Ts() <= added[k].Ts()
    ensures AppendAll(H, own, Facts(added))[|own| + i].Ts() ==
            if own != [] then Max(own[|own| - 1].Ts(), added[i].Ts()) else added[i].Ts()
    decreases |added|
  {
    var n := |added| - 1;
    var prior := AppendAll(H, own, Facts(added[..n]));
    FactsSnoc(added, n);
    AppendAllKeepsBase(H, own, Facts(added[..n]));
    if i < n {
      AppendedTime(H, own, added[..n], i);
    } else if n > 0 {
      AppendedTime(H, own, added[..n], n - 1);
    }
  }

  /** What is new to the receiver is appended in the order of the sender's timestamps, and of its hashes at one instant; each event
      keeps its time unless the receiver's old chain ends later. */
  lemma ReceivedInOrder(H: Hasher, own: seq<Record>, other: seq<Record>, r: Record, s: Record, i: nat, j: nat)
    requires AppendBuilt(H, own) && Axiom5(other) && r in other && s in other && r.Id() !in IdSet(own) && s.Id() !in IdSet(own)
    requires i < j < |Received(H, own, other)| && Received(H, own, other)[i].Id() == r.Id() && Received(H, own, other)[j].Id() == s.Id()
    ensures r.Ts() < s.Ts() || (r.Ts() == s.Ts() && StringLe(r.hash, s.hash))
    ensures Received(H, own, other)[i].Ts() == if own != [] then Max(own[|own| - 1].Ts(), r.Ts()) else r.Ts()
  {
    var x := PlaceOfNew(H, own, other, r, i);
    var y := PlaceOfNew(H, own, other, s, j);
    NewForInOrder(IdSet(own), other, x, y);
    TimeOfNew(H, own, other, x);
  }

  lemma TimeOfNew(H: Hasher, own: seq<Record>, other: seq<Record>, x: nat)
    requires AppendBuilt(H, own) && x < |NewFor(IdSet(own), other)|
    ensures |own| + x < |Received(H, own, other)|
    ensures Received(H, own, other)[|own| + x].Ts() ==
            if own != [] then Max(own[|own| - 1].Ts(), NewFor(IdSet(own), other)[x].Ts()) else NewFor(IdSet(own), other)[x].Ts()
  {
    var added := NewFor(IdSet(own), other);
    Reappend(H, own);
    forall k, l | 0 <= k < l < |added| ensures added[k].Ts() <= added[l].Ts() { NewForInOrder(IdSet(own), other, k, l); }
    AppendedTime(H, own, added, x);
  }

  lemma OwnId(own: seq<Record>, out: seq<Record>, i: nat)
    requires |own| <= |out| && out[..|own|] == own && i < |own|
    ensures out[i].Id() in IdSet(own)
  {
    assert out[i] == own[i] && own[i] in own;
  }

  lemma PlaceOfNew(H: Hasher, own: seq<Record>, other: seq<Record>, r: Record, i: nat) returns (x: nat)
    requires AppendBuilt(H, own) && Axiom5(other) && r in other && r.Id() !in IdSet(own)
    requires i < |Received(H, own, other)| && Received(H, own, other)[i].Id() == r.Id()
    ensures |own| <= i && x == i - |own| < |NewFor(IdSet(own), other)| && NewFor(IdSet(own), other)[x] == r
  {
    var out, added := Received(H, own, other), NewFor(IdSet(own), other);
    ReceivedShape(H, own, other);
    NewForMeaning(IdSet(own), other);
    if i < |own| { OwnId(own, out, i); }
    x := i - |own|;
    assert out[|own| + x].fact.body == added[x].fact.body && added[x] in added;
    var k, l :| 0 <= k < |other| && other[k] == r && 0 <= l < |other| && other[l] == added[x];
    assert k == l;
  }

  lemma DistinctParts(out: seq<Record>, own: seq<Record>, added: seq<Record>)
    requires Extends(out, own, added) && Axiom5(own) && Axiom5(added)
    requires forall r :: r in added ==> r.Id() !in IdSet(own)
    ensures Axiom5(out)
  {
    forall i, j | 0 <= i < j < |out| ensures out[i].Id() != out[j].Id() {
      if j < |own| {
        assert out[i] == own[i] && out[j] == own[j];
      } else {
        assert out[j].Id() == added[j - |own|].Id() && added[j - |own|] in added;
        if i < |own| {
          assert out[i] == own[i] && own[i] in own;
        } else {
          assert out[i].Id() == added[i - |own|].Id();
        }
      }
    }
  }

  lemma IdsOfParts(out: seq<Record>, own: seq<Record>, added: seq<Record>)
    requires Extends(out, own, added)
    ensures IdSet(out) == IdSet(own) + IdSet(added)
  {
    assert forall i :: 0 <= i < |own| ==> out[i] == own[i];
    forall id | id in IdSet(out) ensures id in IdSet(own) + IdSet(added) {
      var k :| 0 <= k < |out| && out[k].Id() == id;
      if k < |own| { assert own[k] in own; } else { assert added[k - |own|] in added; }
    }
    forall id | id in IdSet(own) ensures id in IdSet(out) {
      var k :| 0 <= k < |own| && own[k].Id() == id;
      assert out[k] in out;
    }
    forall id | id in IdSet(added) ensures id in IdSet(out) {
      var k :| 0 <= k < |added| && added[k].Id() == id;
      assert out[|own| + k] in out && out[|own| + k].Id() == id;
    }
  }

  /** What one event must satisfy for an append-built chain around it to verify, ids aside. */
  predicate EventOk(concept: string, b: Body) { b.concept == concept && BodyOk(b) }

  ghost predicate EachOk(concept: string, rs: seq<Record>) {
    forall r :: r in rs ==> EventOk(concept, r.fact.body)
  }

  lemma EachOkFromVerified(H: Hasher, concept: string, rs: seq<Record>)
    requires WellFormed(H, concept, rs)
    ensures EachOk(concept, rs) && Axiom5(rs)
  {
    forall r | r in rs ensures EventOk(concept, r.fact.body) {
      var i :| 0 <= i < |rs| && rs[i] == r;
    }
  }

  lemma VerifiesWhenNamed(H: Hasher, concept: string, rs: seq<Record>)
    requires AppendBuilt(H, rs) && EachOk(concept, rs) && Axiom5(rs)
    ensures WellFormed(H, concept, rs) <==> NamedButLast(rs)
  {
    forall i | 0 <= i < |rs| ensures EventOk(concept, rs[i].fact.body) { assert rs[i] in rs; }
    BuiltVerifiesIff(H, concept, rs);
  }

  lemma NamedAlike(out: seq<Record>, own: seq<Record>, added: seq<Record>)
    requires Extends(out, own, added)
    ensures NamedButLast(out) <==> NamedButLast(own + added)
  {
    forall i | 0 <= i < |out| ensures out[i].Id() == (own + added)[i].Id() {
      if i < |own| { assert out[i] == own[i]; } else { assert out[|own| + (i - |own|)].fact.body == added[i - |own|].fact.body; }
    }
  }

  lemma EachOkExtends(concept: string, out: seq<Record>, own: seq<Record>, added: seq<Record>)
    requires Extends(out, own, added) && EachOk(concept, own) && EachOk(concept, added)
    ensures EachOk(concept, out)
  {
    forall r | r in out ensures EventOk(concept, r.fact.body) {
      var i :| 0 <= i < |out| && out[i] == r;
      if i < |own| {
        assert out[i] == own[i] && own[i] in own;
      } else {
        assert added[i - |own|] in added;
      }
    }
  }

  /** What comes out of acceptable events verifies exactly when every event but the last, as appended, has an id. */
  lemma ReceivedAcceptable(H: Hasher, concept: string, own: seq<Record>, other: seq<Record>)
    requires AppendBuilt(H, own) && EachOk(concept, own) && Axiom5(own) && EachOk(concept, other) && Axiom5(other)
    ensures AppendBuilt(H, Received(H, own, other)) && EachOk(concept, Received(H, own, other)) && Axiom5(Received(H, own, other))
    ensures WellFormed(H, concept, Received(H, own, other)) <==> NamedButLast(own + NewFor(IdSet(own), other))
  {
    var out, added := Received(H, own, other), NewFor(IdSet(own), other);
    ReceivedShape(H, own, other);
    ReceivedIds(H, own, other);
    assert EachOk(concept, out) by {
      NewForMeaning(IdSet(own), other);
      EachOkExtends(concept, out, own, added);
    }
    VerifiesWhenNamed(H, concept, out);
    NamedAlike(out, own, added);
  }

  /** What comes out of two chains that verify: it verifies unless an event with an empty id, which only the last event of a
      verifying chain can be, ends up in front of another one. */
  lemma ReceivedVerifiesIff(H: Hasher, concept: string, own: seq<Record>, other: seq<Record>)
    requires AppendBuilt(H, own) && WellFormed(H, concept, own) && WellFormed(H, concept, other)
    ensures AppendBuilt(H, Received(H, own, other))
    ensures WellFormed(H, concept, Received(H, own, other)) <==> NamedButLast(own + NewFor(IdSet(own), other))
  {
    EachOkFromVerified(H, concept, own);
    EachOkFromVerified(H, concept, other);
    ReceivedAcceptable(H, concept, own, other);
  }

  /** Push, then pull: both sides end with the same ids and neither has anything new for the other. */
  lemma PushThenPullConverges(H: Hasher, edge: seq<Record>, center: seq<Record>)
    requires AppendBuilt(H, edge) && AppendBuilt(H, center) && Axiom5(edge) && Axiom5(center)
    ensures var pushed := Received(H, center, edge);
      var pulled := Received(H, edge, pushed);
      && IdSet(pushed) == IdSet(pulled) == IdSet(edge) + IdSet(center)
      && Diff(IdSet(pushed), pulled) == [] && Diff(IdSet(pulled), pushed) == []
  {
    var pushed := Received(H, center, edge);
    var pulled := Received(H, edge, pushed);
    ReceivedIds(H, center, edge);
    ReceivedIds(H, edge, pushed);
    NothingNew(IdSet(pushed), pulled);
    NothingNew(IdSet(pulled), pushed);
  }

  /** When each of the two results verifies, and each receiver's old chain survives in front of what it received. */
  lemma PushThenPullVerifiesIff(H: Hasher, concept: string, edge: seq<Record>, center: seq<Record>)
    requires AppendBuilt(H, edge) && AppendBuilt(H, center)
    requires WellFormed(H, concept, edge) && WellFormed(H, concept, center)
    ensures var pushed := Received(H, center, edge);
      var pulled := Received(H, edge, pushed);
      && (WellFormed(H, concept, pushed) <==> NamedButLast(center + NewFor(IdSet(center), edge)))
      && (WellFormed(H, concept, pulled) <==> NamedButLast(edge + NewFor(IdSet(edge), pushed)))
      && center <= pushed && edge <= pulled
  {
    var pushed := Received(H, center, edge);
    EachOkFromVerified(H, concept, edge);
    EachOkFromVerified(H, concept, center);
    ReceivedAcceptable(H, concept, center, edge);
    ReceivedAcceptable(H, concept, edge, pushed);
    ReceivedShape(H, center, edge);
    ReceivedShape(H, edge, pushed);
  }

  lemma NothingNew(known: set<string>, rs: seq<Record>)
    requires IdSet(rs) <= known
    ensures Diff(known, rs) == []
  {
    DiffIsFilter(known, rs);
    if Diff(known, rs) != [] {
      assert Diff(known, rs)[0] in rs;
      assert Diff(known, rs)[0].Id() in IdSet(rs);
    }
  }
}
