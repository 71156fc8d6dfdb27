/** A chain some of whose event objects were appended to another chain and so relinked in place (adl_lite/crdt.py,
    adl_lite/sync_manager.py): exactly when the chain still verifies, ARCHIVE events and trimmed chains included. */
module Relinking {
  import opened Basics
  import opened Events
  import opened TailHash
  import opened SyncManagers
  import opened PullEffects

  // ----- where the events went -----

  /** Where the event `id` stands in `out`. */
  ghost function Place(out: seq<Record>, id: string): (p: nat)
    requires id in IdSet(out)
    ensures p < |out| && out[p].Id() == id
  {
    var p :| 0 <= p < |out| && out[p].Id() == id; p
  }

  /** The event at `j` was appended to `out`. */
  ghost predicate AppendedAt(H: Hasher, out: seq<Record>, own: seq<Record>, j: nat)
    requires j < |own|
  {
    && own[j].Id() in IdSet(out)
    && var p := Place(out, own[j].Id());
       out[p].fact.body == own[j].fact.body && HashLinkedAt(H, out, p) && |out[p].hash| == 64
  }

  ghost predicate Hashed(H: Hasher, out: seq<Record>) { forall i :: 0 <= i < |out| ==> out[i].hash == ComputeHash(H, out[i]) }

  /** All events of `own` but those `alone` were appended to `out`. */
  ghost predicate TakenInto(H: Hasher, alone: set<string>, out: seq<Record>, own: seq<Record>) {
    && Axiom5(out) && IdSet(own) <= IdSet(out) && Hashed(H, out)
    && forall j :: 0 <= j < |own| && own[j].Id() !in alone ==> AppendedAt(H, out, own, j)
  }

  /** The record at `j` afterwards. */
  lemma AfterAt(H: Hasher, alone: set<string>, out: seq<Record>, own: seq<Record>, j: nat)
    requires TakenInto(H, alone, out, own) && j < |own|
    ensures own[j].Id() in IdSet(out) && Relinked(alone, out, own)[j].fact.body == own[j].fact.body
    ensures own[j].Id() in alone ==> Relinked(alone, out, own)[j] == own[j]
    ensures own[j].Id() !in alone ==>
              Relinked(alone, out, own)[j] == out[Place(out, own[j].Id())] && HashLinkedAt(H, out, Place(out, own[j].Id()))
  {
    RelinkedAt(alone, out, own, j);
    assert own[j] in own;
    if own[j].Id() !in alone {
      assert AppendedAt(H, out, own, j);
      UniqueById(out, Place(out, own[j].Id()), Relinked(alone, out, own)[j]);
    }
  }

  // ----- the condition -----

  /** Neighbours stay joined: both were left alone, both were taken one behind the other, or a taken one and one left alone meet
      where both lists hold the same content. */
  ghost predicate Joins(alone: set<string>, out: seq<Record>, own: seq<Record>, j: nat)
    requires 0 < j < |own| && IdSet(own) <= IdSet(out)
  {
    assert own[j] in own && own[j - 1] in own;
    var p, q := Place(out, own[j - 1].Id()), Place(out, own[j].Id());
    if own[j].Id() in alone then own[j - 1].Id() in alone || ContentOf(out[p]) == ContentOf(own[j - 1])
    else if own[j - 1].Id() in alone then q > 0 && ContentOf(out[q - 1]) == ContentOf(own[j - 1])
    else q == p + 1
  }

  /** The second event names the first one afterwards. */
  ghost predicate NamesFirst(alone: set<string>, out: seq<Record>, own: seq<Record>)
    requires |own| > 1 && IdSet(own) <= IdSet(out)
  {
    assert own[1] in own;
    var q := Place(out, own[1].Id());
    if own[1].Id() in alone then LinkedTo(own[1], own[0]) else q > 0 && out[q - 1].Id() == own[0].Id()
  }

  /** The second event may stand apart from the first when the list holds an ARCHIVE event, as in a trimmed chain. */
  ghost predicate SecondOk(alone: set<string>, out: seq<Record>, own: seq<Record>)
    requires |own| > 1 && IdSet(own) <= IdSet(out)
  {
    assert own[1] in own;
    var q := Place(out, own[1].Id());
    && (own[1].Id() in alone || (q > 0 && out[q - 1].Id() != ""))
    && (Joins(alone, out, own, 1) || (HasArchive(own) && !NamesFirst(alone, out, own)))
  }

  ghost predicate FirstOk(alone: set<string>, out: seq<Record>, own: seq<Record>)
    requires own != [] && IdSet(own) <= IdSet(out)
  {
    assert own[0] in own;
    own[0].Id() in alone || HasArchive(own) || Place(out, own[0].Id()) == 0
  }

  ghost predicate StaysChained(alone: set<string>, out: seq<Record>, own: seq<Record>)
    requires IdSet(own) <= IdSet(out)
  {
    && (own != [] ==> FirstOk(alone, out, own))
    && (|own| > 1 ==> SecondOk(alone, out, own))
    && forall j :: 2 <= j < |own| ==> Joins(alone, out, own, j)
  }

  // ----- one position -----

  lemma SameHashIff(H: Hasher, own: seq<Record>, i: nat, out: seq<Record>, k: nat)
    requires i < |own| && k < |out| && own[i].hash == ComputeHash(H, own[i]) && out[k].hash == ComputeHash(H, out[k])
    ensures CollisionBetween(H, own, out) || (own[i].hash == out[k].hash <==> ContentOf(own[i]) == ContentOf(out[k]))
  {
    assert Contents(own)[i] == ContentOf(own[i]) && Contents(out)[k] == ContentOf(out[k]);
    if own[i].hash == out[k].hash && ContentOf(own[i]) != ContentOf(out[k]) {
      assert Collision(H, ContentOf(own[i]), ContentOf(out[k]));
    }
  }

  predicate Linked(rs: seq<Record>, j: nat)
    requires 0 < j < |rs|
  {
    LinkedTo(rs[j], rs[j - 1]) && rs[j].prevHash == rs[j - 1].hash
  }

  /** In a list that was linked at `j`, the link holds afterwards exactly when the neighbours stay joined. */
  lemma LinkedIff(H: Hasher, alone: set<string>, out: seq<Record>, own: seq<Record>, j: nat)
    requires TakenInto(H, alone, out, own) && Hashed(H, own) && 0 < j < |own| && Linked(own, j)
    ensures CollisionBetween(H, own, out) || (Linked(Relinked(alone, out, own), j) <==> Joins(alone, out, own, j))
  {
    AfterAt(H, alone, out, own, j);
    AfterAt(H, alone, out, own, j - 1);
    var p, q := Place(out, own[j - 1].Id()), Place(out, own[j].Id());
    if own[j].Id() in alone {
      SameHashIff(H, own, j - 1, out, p);
    } else if own[j - 1].Id() in alone {
      if q > 0 { SameHashIff(H, own, j - 1, out, q - 1); }
    } else {
      OneBehind(H, out, p, q);
    }
  }

  lemma OneBehind(H: Hasher, out: seq<Record>, p: nat, q: nat)
    requires Axiom5(out) && p < |out| && q < |out| && HashLinkedAt(H, out, q)
    ensures out[q].prevId == Some(out[p].Id()) <==> q == p + 1
    ensures q == p + 1 ==> out[q].prevHash == out[p].hash
  {
    if q > 0 && out[q - 1].Id() == out[p].Id() { UniquePlace(out, q - 1, p); }
  }

  lemma UniquePlace(out: seq<Record>, i: nat, k: nat)
    requires Axiom5(out) && i < |out| && k < |out| && out[i].Id() == out[k].Id()
    ensures i == k
  {
  }

  // ----- the second event -----

  ghost predicate SecondLinkOk(rs: seq<Record>)
    requires |rs| > 1
  {
    Named(rs[1].prevId) && if LinkedTo(rs[1], rs[0]) then rs[1].prevHash == rs[0].hash else HasArchive(rs)
  }

  lemma NamesFirstIff(H: Hasher, alone: set<string>, out: seq<Record>, own: seq<Record>)
    requires TakenInto(H, alone, out, own) && |own| > 1
    ensures NamesFirst(alone, out, own) <==> LinkedTo(Relinked(alone, out, own)[1], Relinked(alone, out, own)[0])
  {
    AfterAt(H, alone, out, own, 1);
    AfterAt(H, alone, out, own, 0);
  }

  lemma SecondNamed(H: Hasher, alone: set<string>, out: seq<Record>, own: seq<Record>)
    requires TakenInto(H, alone, out, own) && |own| > 1 && Named(own[1].prevId)
    ensures Named(Relinked(alone, out, own)[1].prevId) <==>
              var q := Place(out, own[1].Id()); own[1].Id() in alone || (q > 0 && out[q - 1].Id() != "")
  {
    AfterAt(H, alone, out, own, 1);
  }

  lemma ArchiveKept(H: Hasher, alone: set<string>, out: seq<Record>, own: seq<Record>)
    requires TakenInto(H, alone, out, own)
    ensures HasArchive(Relinked(alone, out, own)) <==> HasArchive(own)
  {
    var rs := Relinked(alone, out, own);
    forall j | 0 <= j < |own| ensures rs[j].Kind() == own[j].Kind() { AfterAt(H, alone, out, own, j); }
  }

  /** Without a link between the first two there is no join but that of two events left alone or of a taken first event. */
  lemma NoJoin(H: Hasher, alone: set<string>, out: seq<Record>, own: seq<Record>)
    requires TakenInto(H, alone, out, own) && |own| > 1 && !NamesFirst(alone, out, own) && Joins(alone, out, own, 1)
    ensures own[1].Id() in alone && !LinkedTo(own[1], own[0])
  {
    AfterAt(H, alone, out, own, 1);
    AfterAt(H, alone, out, own, 0);
  }

  lemma SecondIff(H: Hasher, concept: string, alone: set<string>, out: seq<Record>, own: seq<Record>)
    requires TakenInto(H, alone, out, own) && WellFormed(H, concept, own) && |own| > 1
    ensures CollisionBetween(H, own, out) || (SecondLinkOk(Relinked(alone, out, own)) <==> SecondOk(alone, out, own))
  {
    NamesFirstIff(H, alone, out, own);
    SecondNamed(H, alone, out, own);
    ArchiveKept(H, alone, out, own);
    if NamesFirst(alone, out, own) {
      NamingIff(H, alone, out, own);
    } else if Joins(alone, out, own, 1) {
      NoJoin(H, alone, out, own);
    }
  }

  /** When the second event names the first, its hash link decides. */
  lemma NamingIff(H: Hasher, alone: set<string>, out: seq<Record>, own: seq<Record>)
    requires TakenInto(H, alone, out, own) && Hashed(H, own) && |own| > 1 && NamesFirst(alone, out, own)
    requires LinkedTo(own[1], own[0]) ==> own[1].prevHash == own[0].hash
    ensures CollisionBetween(H, own, out) ||
            (Relinked(alone, out, own)[1].prevHash == Relinked(alone, out, own)[0].hash <==> Joins(alone, out, own, 1))
  {
    AfterAt(H, alone, out, own, 1);
    AfterAt(H, alone, out, own, 0);
    var p, q := Place(out, own[0].Id()), Place(out, own[1].Id());
    if own[1].Id() in alone {
      SameHashIff(H, own, 0, out, p);
    } else if own[0].Id() in alone {
      SameHashIff(H, own, 0, out, q - 1);
    } else {
      OneBehind(H, out, p, q);
    }
  }

  // ----- the whole list -----

  lemma RecordsOk(H: Hasher, concept: string, alone: set<string>, out: seq<Record>, own: seq<Record>, j: nat)
    requires TakenInto(H, alone, out, own) && WellFormed(H, concept, own) && j < |own|
    ensures var r := Relinked(alone, out, own)[j];
      r.fact.body.concept == concept && BodyOk(r.fact.body) && r.hash == ComputeHash(H, r) && r.hash != "" && |r.hash| == 64
    ensures own[j].Id() in alone && j > 0 ==> Named(Relinked(alone, out, own)[j].prevId)
    ensures Relinked(alone, out, own)[j].Id() == own[j].Id()
  {
    AfterAt(H, alone, out, own, j);
    assert own[j].hash != "" && (own[j].hash == "" || |own[j].hash| == 64) && own[j].hash == ComputeHash(H, own[j]);
    if own[j].Id() !in alone { assert AppendedAt(H, out, own, j); }
  }

  /** The axioms that the links decide. */
  ghost predicate LinksOk(rs: seq<Record>) {
    && (rs != [] ==> rs[0].prevId.None? || HasArchive(rs))
    && (|rs| > 1 ==> SecondLinkOk(rs))
    && forall j :: 2 <= j < |rs| ==> Linked(rs, j)
  }

  ghost predicate RecordsFine(H: Hasher, concept: string, rs: seq<Record>) {
    forall j :: 0 <= j < |rs| ==>
      rs[j].fact.body.concept == concept && BodyOk(rs[j].fact.body) && rs[j].hash == ComputeHash(H, rs[j]) && rs[j].hash != "" && |rs[j].hash| == 64
  }

  lemma LinkedMeansVerified(H: Hasher, concept: string, rs: seq<Record>)
    requires RecordsFine(H, concept, rs) && Axiom5(rs) && forall j :: 1 <= j < |rs| - 1 ==> rs[j].Id() != ""
    requires Axiom7(rs) && LinksOk(rs)
    ensures WellFormed(H, concept, rs)
  {
    forall j | 0 <= j < |rs| ensures (j > 0 ==> Named(rs[j].prevId)) && rs[j].hash != "" {
      if j > 1 { assert Linked(rs, j) && rs[j].prevId == Some(rs[j - 1].Id()); }
    }
    forall j | 1 <= j < |rs| ensures if LinkedTo(rs[j], rs[j - 1]) then rs[j].prevHash == rs[j - 1].hash else j == 1 && HasArchive(rs) {
      if j > 1 { assert Linked(rs, j); }
    }
  }

  lemma VerifiedMeansLinked(H: Hasher, concept: string, rs: seq<Record>)
    requires WellFormed(H, concept, rs)
    ensures Axiom7(rs) && LinksOk(rs)
  {
    forall j | 2 <= j < |rs| ensures Linked(rs, j) { assert LinkedTo(rs[j], rs[j - 1]); }
  }

  lemma LinksIff(H: Hasher, concept: string, alone: set<string>, out: seq<Record>, own: seq<Record>)
    requires TakenInto(H, alone, out, own) && WellFormed(H, concept, own)
    ensures CollisionBetween(H, own, out) || (LinksOk(Relinked(alone, out, own)) <==> StaysChained(alone, out, own))
  {
    var rs := Relinked(alone, out, own);
    ArchiveKept(H, alone, out, own);
    if own != [] { AfterAt(H, alone, out, own, 0); }
    if |own| > 1 { SecondIff(H, concept, alone, out, own); }
    forall j | 2 <= j < |own| ensures CollisionBetween(H, own, out) || (Linked(rs, j) <==> Joins(alone, out, own, j)) {
      assert LinkedTo(own[j], own[j - 1]);
      LinkedIff(H, alone, out, own, j);
    }
  }

  /** A verifying list, some of whose events were appended to another one, still verifies exactly when its times are in order and
      all neighbours stay joined -- or two contents of the two lists collide. */
  lemma RelinkedVerifiesIff(H: Hasher, concept: string, alone: set<string>, out: seq<Record>, own: seq<Record>)
    requires TakenInto(H, alone, out, own) && WellFormed(H, concept, own)
    ensures CollisionBetween(H, own, out) ||
            (WellFormed(H, concept, Relinked(alone, out, own)) <==>
               Axiom7(Relinked(alone, out, own)) && StaysChained(alone, out, own))
  {
    var rs := Relinked(alone, out, own);
    forall j | 0 <= j < |own|
      ensures rs[j].fact.body.concept == concept && BodyOk(rs[j].fact.body) && rs[j].hash == ComputeHash(H, rs[j])
      ensures rs[j].hash != "" && |rs[j].hash| == 64 && rs[j].Id() == own[j].Id()
    {
      RecordsOk(H, concept, alone, out, own, j);
    }
    forall i, j | 0 <= i < j < |rs| ensures rs[i].Id() != rs[j].Id() { assert own[i].Id() != own[j].Id(); }
    forall j | 1 <= j < |rs| - 1 ensures rs[j].Id() != "" { assert Named(own[j + 1].prevId) && LinkedTo(own[j + 1], own[j]); }
    if WellFormed(H, concept, rs) { VerifiedMeansLinked(H, concept, rs); }
    if Axiom7(rs) && LinksOk(rs) { LinkedMeansVerified(H, concept, rs); }
    LinksIff(H, concept, alone, out, own);
  }

  // ----- the sender of a pull -----

  lemma BuiltIsHashed(H: Hasher, out: seq<Record>)
    requires AppendBuilt(H, out)
    ensures Hashed(H, out)
  {
    forall i | 0 <= i < |out| ensures out[i].hash == ComputeHash(H, out[i]) { BuiltLinks(H, out, i); }
  }

  /** What a receiver gets, whether or not its own list was only appended to. */
  lemma ReceivedHolds(H: Hasher, edge: seq<Record>, center: seq<Record>)
    requires Axiom5(edge) && Axiom5(center)
    ensures var out, added := Received(H, edge, center), NewFor(IdSet(edge), center);
      AppendBuilt(H, out) && Extends(out, AppendAll(H, [], Facts(edge)), added) && Axiom5(out) && IdSet(out) == IdSet(edge) + IdSet(center)
  {
    var base, added := AppendAll(H, [], Facts(edge)), NewFor(IdSet(edge), center);
    ExtendedBy(H, [], edge);
    ExtendedBy(H, base, added);
    NewForMeaning(IdSet(edge), center);
    SameIdsReappended(H, edge, base);
    IdsOfParts(Received(H, edge, center), base, added);
    DistinctParts(Received(H, edge, center), base, added);
    forall id | id in IdSet(center) && id !in IdSet(edge) ensures id in IdSet(added) {
      var r :| r in center && r.Id() == id;
      assert r in added;
    }
  }

  lemma SameIdsReappended(H: Hasher, edge: seq<Record>, base: seq<Record>)
    requires Axiom5(edge) && Extends(base, [], edge)
    ensures Axiom5(base) && IdSet(base) == IdSet(edge)
  {
    assert forall i :: 0 <= i < |edge| ==> base[0 + i].fact.body == edge[i].fact.body;
    IdsOfParts(base, [], edge);
    forall i, j | 0 <= i < j < |base| ensures base[i].Id() != base[j].Id() { assert edge[i].Id() != edge[j].Id(); }
  }

  lemma NewEventAppended(H: Hasher, edge: seq<Record>, center: seq<Record>, j: nat)
    requires Axiom5(edge) && Axiom5(center) && j < |center| && center[j].Id() !in IdSet(edge)
    ensures AppendedAt(H, Received(H, edge, center), center, j)
  {
    var out, added := Received(H, edge, center), NewFor(IdSet(edge), center);
    var base := AppendAll(H, [], Facts(edge));
    ReceivedHolds(H, edge, center);
    NewForMeaning(IdSet(edge), center);
    var m := NewIndex(IdSet(edge), center, added, j);
    ExtendsAt(out, base, added, m);
    assert out[|base| + m] in out;
    UniquePlace(out, |base| + m, Place(out, center[j].Id()));
    BuiltLinks(H, out, |base| + m);
  }

  /** After a pull from any verifying sender, trimmed ones included: when the sender's list still verifies. */
  lemma PullLeavesAnySenderIff(H: Hasher, concept: string, edge: seq<Record>, center: seq<Record>)
    requires Axiom5(edge) && WellFormed(H, concept, center)
    ensures var out := Received(H, edge, center);
      && IdSet(center) <= IdSet(out)
      && (CollisionBetween(H, center, out) ||
          (WellFormed(H, concept, AfterPull(H, edge, center)) <==>
             Axiom7(AfterPull(H, edge, center)) && StaysChained(IdSet(edge), out, center)))
  {
    var out := Received(H, edge, center);
    ReceivedHolds(H, edge, center);
    BuiltIsHashed(H, out);
    forall j | 0 <= j < |center| && center[j].Id() !in IdSet(edge) ensures AppendedAt(H, out, center, j) {
      NewEventAppended(H, edge, center, j);
    }
    RelinkedVerifiesIff(H, concept, IdSet(edge), out, center);
  }
}
