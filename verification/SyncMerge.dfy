/** `SyncManager.merge` (adl_lite/sync_manager.py): first occurrence of each id, in (timestamp, hash) order, copied
    into a new chain. */
module SyncMerges {
  import opened Basics
  import opened Events
  import opened DerivedState
  import opened EventChains
  import Integrity
  import opened Crdt
  import CrdtStates
  import opened SyncManagers
  import opened SyncObjects

  /** Taking what is not there yet from one more list. */
  function Collect(got: seq<Record>, rs: seq<Record>): seq<Record> {
    if rs == [] then got
    else
      var before, r := Collect(got, rs[..|rs| - 1]), rs[|rs| - 1];
      if r.Id() in IdSet(before) then before else before + [r]
  }

  function Concat(lists: seq<seq<Record>>): seq<Record> {
    if lists == [] then [] else Concat(lists[..|lists| - 1]) + lists[|lists| - 1]
  }

  /** The first record of each id, over all the lists in their order. */
  function Distinct(lists: seq<seq<Record>>): seq<Record> { Collect([], Concat(lists)) }

  function Merged(H: Hasher, lists: seq<seq<Record>>): seq<Record> {
    AppendAll(H, [], Facts(SortBy(Distinct(lists), ByTimeHash)))
  }

  lemma {:induction false} CollectSplit(got: seq<Record>, xs: seq<Record>, ys: seq<Record>)
    ensures Collect(got, xs + ys) == Collect(Collect(got, xs), ys)
  {
    if ys == [] {
      assert xs + ys == xs;
    } else {
      ConcatSnoc(xs, ys);
      CollectSplit(got, xs, ys[..|ys| - 1]);
    }
  }

  /** Every id once, every id there, every record from the list. */
  lemma {:induction false} CollectMeaning(rs: seq<Record>)
    ensures Axiom5(Collect([], rs)) && IdSet(Collect([], rs)) == IdSet(rs)
    ensures forall r :: r in Collect([], rs) ==> r in rs
  {
    if rs != [] {
      var front, r := rs[..|rs| - 1], rs[|rs| - 1];
      CollectMeaning(front);
      var before := Collect([], front);
      assert rs == front + [r];
      IdsSnoc(front, r);
      IdsSnoc(before, r);
      forall i | 0 <= i < |before| ensures before[i].Id() in IdSet(before) { assert before[i] in before; }
    }
  }

  /** `x` is the first record listed under its id. */
  ghost predicate FirstOfId(rs: seq<Record>, x: Record) {
    exists i :: 0 <= i < |rs| && rs[i] == x && forall j :: 0 <= j < i ==> rs[j].Id() != x.Id()
  }

  lemma FirstOfIdSnoc(rs: seq<Record>, r: Record, x: Record)
    ensures FirstOfId(rs + [r], x) <==> FirstOfId(rs, x) || (x == r && r.Id() !in IdSet(rs))
  {
    var all := rs + [r];
    assert all[|rs|] == r && forall j :: 0 <= j < |rs| ==> all[j] == rs[j];
    if FirstOfId(rs, x) {
      var i :| 0 <= i < |rs| && rs[i] == x && forall j :: 0 <= j < i ==> rs[j].Id() != x.Id();
      assert all[i] == x;
    }
    if x == r && r.Id() !in IdSet(rs) {
      forall j | 0 <= j < |rs| ensures all[j].Id() != x.Id() { assert rs[j] in rs; }
    }
  }

  /** Collecting keeps exactly the record listed first under each id. */
  lemma {:induction false} CollectIff(rs: seq<Record>, x: Record)
    ensures x in Collect([], rs) <==> FirstOfId(rs, x)
  {
    if rs != [] {
      var front, r := rs[..|rs| - 1], rs[|rs| - 1];
      assert rs == front + [r];
      CollectIff(front, x);
      CollectMeaning(front);
      FirstOfIdSnoc(front, r, x);
    }
  }

  /** The events of the merged chain are those listed first under their ids, over all the lists in their order. */
  lemma MergedFactsIff(H: Hasher, lists: seq<seq<Record>>, f: Fact)
    ensures f in Facts(Merged(H, lists)) <==> exists x :: FirstOfId(Concat(lists), x) && x.fact == f
  {
    var u := Distinct(lists);
    var sorted := SortBy(u, ByTimeHash);
    FactsOfMerged(H, lists);
    SortKeepsElements(u, ByTimeHash);
    SameElements(u, sorted);
    if f in Facts(Merged(H, lists)) {
      var i :| 0 <= i < |sorted| && Facts(sorted)[i] == f;
      assert sorted[i] in sorted;
      CollectIff(Concat(lists), sorted[i]);
    }
    if x :| FirstOfId(Concat(lists), x) && x.fact == f {
      CollectIff(Concat(lists), x);
      var i :| 0 <= i < |sorted| && sorted[i] == x;
      assert Facts(sorted)[i] == f;
    }
  }

  lemma {:induction false} FirstListInFront(lists: seq<seq<Record>>)
    requires lists != []
    ensures lists[0] <= Concat(lists)
  {
    if |lists| > 1 { FirstListInFront(lists[..|lists| - 1]); }
  }

  /** What the list given first has first under an id is taken. */
  lemma FirstListTaken(H: Hasher, lists: seq<seq<Record>>, x: Record)
    requires lists != [] && FirstOfId(lists[0], x)
    ensures x.fact in Facts(Merged(H, lists))
  {
    FirstListInFront(lists);
    FirstOfIdLonger(lists[0], Concat(lists), x);
    MergedFactsIff(H, lists, x.fact);
  }

  lemma FirstOfIdLonger(rs: seq<Record>, all: seq<Record>, x: Record)
    requires rs <= all && FirstOfId(rs, x)
    ensures FirstOfId(all, x)
  {
    var i :| 0 <= i < |rs| && rs[i] == x && forall j :: 0 <= j < i ==> rs[j].Id() != x.Id();
    assert all[i] == x && forall j :: 0 <= j < i ==> all[j] == rs[j];
  }

  lemma IdsSnoc(rs: seq<Record>, r: Record)
    ensures IdSet(rs + [r]) == IdSet(rs) + {r.Id()}
  {
    assert (rs + [r])[|rs|] == r;
    forall id | id in IdSet(rs) ensures id in IdSet(rs + [r]) {
      var x :| x in rs && x.Id() == id;
      assert x in rs + [r];
    }
  }

  // ----- the merged chain -----

  /** The merged chain has the union of the ids, each once. */
  lemma MergedIds(H: Hasher, lists: seq<seq<Record>>)
    ensures AppendBuilt(H, Merged(H, lists)) && Axiom5(Merged(H, lists))
    ensures IdSet(Merged(H, lists)) == IdSet(Concat(lists))
  {
    var ds := Distinct(lists);
    var sorted := SortBy(ds, ByTimeHash);
    var out := Merged(H, lists);
    CollectMeaning(Concat(lists));
    SortKeepsElements(ds, ByTimeHash);
    SameElements(ds, sorted);
    DistinctKeysRearranged(ds, sorted, (r: Record) => r.Id());
    ExtendedBy(H, [], sorted);
    IdsOfParts(out, [], sorted);
    DistinctParts(out, [], sorted);
  }

  /** A check from scratch decides the fifteen axioms. */
  lemma VerifyIsWellFormed(H: Hasher, concept: string, rs: seq<Record>)
    ensures Integrity.Verify(H, concept, rs, []).0 <==> WellFormed(H, concept, rs)
  {
    Integrity.InvHolds(H, concept, []);
    Integrity.ScanMeaning(Integrity.ChecksOf(H, concept, rs), |rs|, 0);
    Integrity.WellFormedStepwise(H, concept, rs);
  }

  /** Merging chains whose events are acceptable gives a chain that verifies exactly when every event but the last, in sorted
      order, has an id. */
  lemma MergedVerifiesIff(H: Hasher, concept: string, lists: seq<seq<Record>>)
    requires EachOk(concept, Concat(lists))
    ensures Integrity.Verify(H, concept, Merged(H, lists), []).0 <==> NamedButLast(SortBy(Distinct(lists), ByTimeHash))
  {
    var ds := Distinct(lists);
    var sorted := SortBy(ds, ByTimeHash);
    CollectMeaning(Concat(lists));
    SortKeepsElements(ds, ByTimeHash);
    SameElements(ds, sorted);
    ExtendedBy(H, [], sorted);
    EachOkExtends(concept, Merged(H, lists), [], sorted);
    MergedIds(H, lists);
    VerifiesWhenNamed(H, concept, Merged(H, lists));
    NamedAlike(Merged(H, lists), [], sorted);
    assert [] + sorted == sorted;
    VerifyIsWellFormed(H, concept, Merged(H, lists));
  }

  lemma MergedBodies(H: Hasher, lists: seq<seq<Record>>, r: Record) returns (s: Record)
    requires r in Merged(H, lists)
    ensures s in Concat(lists) && s.fact.body == r.fact.body
  {
    var sorted, out := SortBy(Distinct(lists), ByTimeHash), Merged(H, lists);
    AppendAllBodies(H, [], Facts(sorted));
    var i :| 0 <= i < |out| && out[i] == r;
    assert out[0 + i].fact.body == Facts(sorted)[i].body;
    s := sorted[i];
    CollectMeaning(Concat(lists));
    SortKeepsElements(Distinct(lists), ByTimeHash);
    SameElements(Distinct(lists), sorted);
    assert s in sorted;
  }

  /** The merged chain has the status and the confidence that all the events together have, when versions of one event agree on
      type and payload. */
  lemma StateOfMerged(H: Hasher, lists: seq<seq<Record>>)
    requires CrdtStates.SameMeaning(Concat(lists))
    ensures MaxOrder(Merged(H, lists)) == MaxOrder(Concat(lists)) && MaxConfidence(Merged(H, lists)) == MaxConfidence(Concat(lists))
  {
    var all, out := Concat(lists), Merged(H, lists);
    forall r | r in out ensures exists s :: s in all && CrdtStates.Alike(r, s) {
      var s := MergedBodies(H, lists, r);
    }
    CrdtStates.StateBelow(out, all);
    forall s | s in all ensures exists r :: r in out && CrdtStates.Alike(s, r) {
      var r := InMerged(H, lists, s);
    }
    CrdtStates.StateBelow(all, out);
  }

  lemma InMerged(H: Hasher, lists: seq<seq<Record>>, s: Record) returns (r: Record)
    requires CrdtStates.SameMeaning(Concat(lists)) && s in Concat(lists)
    ensures r in Merged(H, lists) && CrdtStates.Alike(s, r)
  {
    MergedIds(H, lists);
    assert s.Id() in IdSet(Merged(H, lists));
    r :| r in Merged(H, lists) && r.Id() == s.Id();
    var o := MergedBodies(H, lists, r);
  }

  // ----- when two merges are equal -----

  function FactSet(rs: seq<Record>): set<Fact> { set r | r in rs :: r.fact }

  /** Different events of one instant have different hashes. */
  ghost predicate HashesTellApart(rs: seq<Record>) {
    forall r, s :: r in rs && s in rs && r.Ts() == s.Ts() && r.hash == s.hash ==> r == s
  }

  predicate Tie(r: Record, x: Record) { r.Ts() == x.Ts() && r.hash == x.hash }

  ghost predicate ListedBefore(u: seq<Record>, r: Record, x: Record) { exists i, j :: 0 <= i <= j < |u| && u[i] == r && u[j] == x }

  /** At one instant the smaller hash comes first, and of equal hashes the event listed first: the sort is stable. */
  ghost predicate FirstOf(u: seq<Record>, r: Record, x: Record) {
    StringLe(r.hash, x.hash) && (r.hash == x.hash ==> ListedBefore(u, r, x))
  }

  /** Both lists put the events of one instant into the same order. */
  ghost predicate SameOrder(u: seq<Record>, v: seq<Record>) {
    forall r, s, x, y {:trigger OrderAgrees(u, v, r, s, x, y)} :: r in u && s in v && x in u && y in v ==> OrderAgrees(u, v, r, s, x, y)
  }

  ghost predicate OrderAgrees(u: seq<Record>, v: seq<Record>, r: Record, s: Record, x: Record, y: Record) {
    r.fact == s.fact && x.fact == y.fact && r.Ts() == x.Ts() ==> (FirstOf(u, r, x) <==> FirstOf(v, s, y))
  }

  ghost function RecordWith(rs: seq<Record>, f: Fact): (r: Record)
    requires f in FactSet(rs)
    ensures r in rs && r.fact == f
  {
    var r :| r in rs && r.fact == f; r
  }

  lemma OneRecordPerFact(rs: seq<Record>, r: Record, s: Record)
    requires Axiom5(rs) && r in rs && s in rs && r.Id() == s.Id()
    ensures r == s
  {
    var i :| 0 <= i < |rs| && rs[i] == r;
    var j :| 0 <= j < |rs| && rs[j] == s;
  }

  /** Facts before one another by instant, and at one instant by their records in `u`. */
  ghost function InOrderOf(u: seq<Record>): (Fact, Fact) -> bool {
    (f: Fact, g: Fact) =>
      f.ts < g.ts || (f.ts == g.ts && f in FactSet(u) && g in FactSet(u) && FirstOf(u, RecordWith(u, f), RecordWith(u, g)))
  }

  lemma ListedLater(h: Record, u: seq<Record>, r: Record, x: Record)
    requires ListedBefore(u, r, x) || (r == h && x in [h] + u)
    ensures ListedBefore([h] + u, r, x)
  {
    var all := [h] + u;
    if i, j :| 0 <= i <= j < |u| && u[i] == r && u[j] == x {
      assert all[i + 1] == r && all[j + 1] == x;
    } else {
      var j :| 0 <= j < |all| && all[j] == x;
      assert all[0] == r;
    }
  }

  /** Ties of `s` stand as they are listed in `u`. */
  ghost predicate TiesAsListed(s: seq<Record>, u: seq<Record>) {
    forall i, j :: 0 <= i < j < |s| && Tie(s[i], s[j]) ==> ListedBefore(u, s[i], s[j])
  }

  lemma TiesInFront(h: Record, s: seq<Record>, u: seq<Record>)
    requires TiesAsListed(s, u) && forall r :: r in s ==> r in u
    ensures TiesAsListed([h] + s, [h] + u)
  {
    var out := [h] + s;
    forall i, j | 0 <= i < j < |out| && Tie(out[i], out[j]) ensures ListedBefore([h] + u, out[i], out[j]) {
      assert out[j] == s[j - 1];
      if i > 0 { assert out[i] == s[i - 1]; }
      ListedLater(h, u, out[i], out[j]);
    }
  }

  lemma TiesBehind(first: Record, more: seq<Record>, u: seq<Record>)
    requires TiesAsListed(more, u) && forall x :: x in more && Tie(first, x) ==> ListedBefore(u, first, x)
    ensures TiesAsListed([first] + more, u)
  {
    var out := [first] + more;
    forall i, j | 0 <= i < j < |out| && Tie(out[i], out[j]) ensures ListedBefore(u, out[i], out[j]) {
      assert out[j] == more[j - 1];
      if i > 0 { assert out[i] == more[i - 1]; }
    }
  }

  lemma {:induction false} InsertKeepsTies(h: Record, s: seq<Record>, u: seq<Record>)
    requires TiesAsListed(s, u) && forall r :: r in s ==> r in u
    ensures TiesAsListed(Insert(h, s, ByTimeHash), [h] + u)
  {
    if s == [] || ByTimeHash(h, s[0]) {
      TiesInFront(h, s, u);
      assert Insert(h, s, ByTimeHash) == [h] + s;
    } else {
      var rest := s[1..];
      assert forall i :: 0 <= i < |rest| ==> rest[i] == s[i + 1];
      InsertKeepsTies(h, rest, u);
      var more := Insert(h, rest, ByTimeHash);
      InsertKeepsElements(h, rest, ByTimeHash);
      forall x | x in more && Tie(s[0], x) ensures ListedBefore([h] + u, s[0], x) {
        assert x in multiset(more);
        TiedBehind(h, s, u, x);
      }
      TiesBehind(s[0], more, [h] + u);
    }
  }

  lemma TiedBehind(h: Record, s: seq<Record>, u: seq<Record>, x: Record)
    requires TiesAsListed(s, u) && s != [] && !ByTimeHash(h, s[0]) && Tie(s[0], x) && (x in s[1..] || x == h)
    ensures ListedBefore([h] + u, s[0], x)
  {
    StringLeTotal(h.hash, h.hash);
    var k :| 0 <= k < |s[1..]| && s[1..][k] == x;
    assert s[k + 1] == x;
    ListedLater(h, u, s[0], x);
  }

  /** The sort leaves ties as they are listed. */
  lemma {:induction false} SortKeepsTies(u: seq<Record>)
    ensures TiesAsListed(SortBy(u, ByTimeHash), u)
  {
    if u != [] {
      var rest := u[1..];
      assert u == [u[0]] + rest;
      SortKeepsTies(rest);
      SortKeepsElements(rest, ByTimeHash);
      SameElements(rest, SortBy(rest, ByTimeHash));
      InsertKeepsTies(u[0], SortBy(rest, ByTimeHash), rest);
    }
  }

  lemma SortedRecords(u: seq<Record>)
    requires Axiom5(u)
    ensures var s := SortBy(u, ByTimeHash);
      SortedBy(s, ByTimeHash) && Axiom5(s) && (forall r :: r in s <==> r in u) && multiset(s) == multiset(u)
  {
    ByTimeHashIsTotalPreorder();
    SortSorts(u, ByTimeHash);
    SortKeepsElements(u, ByTimeHash);
    SameElements(u, SortBy(u, ByTimeHash));
    DistinctKeysRearranged(u, SortBy(u, ByTimeHash), (r: Record) => r.Id());
  }

  /** The merged chain keeps the facts that were sorted, for they are in time order. */
  lemma FactsOfMerged(H: Hasher, lists: seq<seq<Record>>)
    ensures Facts(Merged(H, lists)) == Facts(SortBy(Distinct(lists), ByTimeHash))
  {
    CollectMeaning(Concat(lists));
    SortedRecords(Distinct(lists));
    AppendAllFacts(H, Facts(SortBy(Distinct(lists), ByTimeHash)));
  }

  lemma FactsAsSet(rs: seq<Record>)
    requires Axiom5(rs)
    ensures DistinctIds(Facts(rs)) && Set(Facts(rs)) == FactSet(rs)
  {
    forall r | r in rs ensures r.fact in Facts(rs) {
      var i :| 0 <= i < |rs| && rs[i] == r;
      assert Facts(rs)[i] == r.fact;
    }
    forall f | f in Facts(rs) ensures f in FactSet(rs) {
      var i :| 0 <= i < |rs| && Facts(rs)[i] == f;
      assert rs[i] in rs;
    }
  }

  lemma OrderedPair(u: seq<Record>, v: seq<Record>, s: Record, y: Record)
    requires FactSet(u) == FactSet(v) && SameOrder(u, v) && s in v && y in v && ByTimeHash(s, y) && (Tie(s, y) ==> ListedBefore(v, s, y))
    ensures InOrderOf(u)(s.fact, y.fact)
  {
    assert s.fact in FactSet(v) && y.fact in FactSet(v);
    if s.Ts() == y.Ts() { assert OrderAgrees(u, v, RecordWith(u, s.fact), s, RecordWith(u, y.fact), y); }
  }

  lemma OrderedAs(u: seq<Record>, v: seq<Record>)
    requires Axiom5(v) && FactSet(u) == FactSet(v) && SameOrder(u, v)
    ensures SortedBy(Facts(SortBy(v, ByTimeHash)), InOrderOf(u))
  {
    var s := SortBy(v, ByTimeHash);
    SortedRecords(v);
    SortKeepsTies(v);
    forall i, j | 0 <= i < j < |s| ensures InOrderOf(u)(Facts(s)[i], Facts(s)[j]) {
      assert s[i] in s && s[j] in s;
      OrderedPair(u, v, s[i], s[j]);
    }
  }

  lemma SameArrangement(u: seq<Record>, v: seq<Record>)
    requires Axiom5(u) && Axiom5(v) && FactSet(u) == FactSet(v) && SameOrder(u, v)
    ensures Facts(SortBy(u, ByTimeHash)) == Facts(SortBy(v, ByTimeHash))
  {
    var x, y := SortBy(u, ByTimeHash), SortBy(v, ByTimeHash);
    SortedRecords(u);
    SortedRecords(v);
    assert SameOrder(u, u) by { OrderOfItself(u); }
    OrderedAs(u, u);
    OrderedAs(u, v);
    FactsAsSet(x);
    FactsAsSet(y);
    assert FactSet(x) == FactSet(u) && FactSet(y) == FactSet(v);
    SameSetSameElements(Facts(x), Facts(y));
    forall f, g | f in Facts(x) && g in Facts(x) && InOrderOf(u)(f, g) && InOrderOf(u)(g, f) ensures f == g {
      NoTieInOrder(u, f, g);
    }
    SortedArrangementIsUnique(Facts(x), Facts(y), InOrderOf(u));
  }

  lemma OrderOfItself(u: seq<Record>)
    requires Axiom5(u)
    ensures SameOrder(u, u)
  {
    forall r, s, x, y | r in u && s in u && x in u && y in u ensures OrderAgrees(u, u, r, s, x, y) {
      if r.fact == s.fact && x.fact == y.fact {
        OneRecordPerFact(u, r, s);
        OneRecordPerFact(u, x, y);
      }
    }
  }

  lemma NotBothFirst(u: seq<Record>, r: Record, x: Record)
    requires Axiom5(u) && FirstOf(u, r, x) && FirstOf(u, x, r)
    ensures r == x
  {
    StringLeTotal(r.hash, x.hash);
    var i, j :| 0 <= i <= j < |u| && u[i] == r && u[j] == x;
    var k, l :| 0 <= k <= l < |u| && u[k] == x && u[l] == r;
    SameIndex(u, i, l);
    SameIndex(u, j, k);
  }

  lemma SameIndex(u: seq<Record>, i: nat, j: nat)
    requires Axiom5(u) && i < |u| && j < |u| && u[i] == u[j]
    ensures i == j
  {
  }

  lemma NoTieInOrder(u: seq<Record>, f: Fact, g: Fact)
    requires Axiom5(u) && InOrderOf(u)(f, g) && InOrderOf(u)(g, f)
    ensures f == g
  {
    NotBothFirst(u, RecordWith(u, f), RecordWith(u, g));
  }

  lemma SameArrangementMeans(u: seq<Record>, v: seq<Record>)
    requires Axiom5(u) && Axiom5(v)
    requires Facts(SortBy(u, ByTimeHash)) == Facts(SortBy(v, ByTimeHash))
    ensures FactSet(u) == FactSet(v) && SameOrder(u, v)
  {
    var p, q := SortBy(u, ByTimeHash), SortBy(v, ByTimeHash);
    SortedRecords(u);
    SortedRecords(v);
    FactsAsSet(p);
    FactsAsSet(q);
    assert FactSet(p) == FactSet(u) && FactSet(q) == FactSet(v);
    forall r, s, x, y | r in u && s in v && x in u && y in v ensures OrderAgrees(u, v, r, s, x, y) {
      if r.fact == s.fact && x.fact == y.fact && r.Ts() == x.Ts() {
        var i := PlaceOf(p, q, r, s);
        var j := PlaceOf(p, q, x, y);
        FirstIsBefore(u, i, j);
        FirstIsBefore(v, i, j);
      }
    }
  }

  /** Of two events of one instant the sort lists first the one that is first. */
  lemma FirstIsBefore(u: seq<Record>, i: nat, j: nat)
    requires Axiom5(u) && i < |SortBy(u, ByTimeHash)| && j < |SortBy(u, ByTimeHash)|
    requires SortBy(u, ByTimeHash)[i].Ts() == SortBy(u, ByTimeHash)[j].Ts()
    ensures FirstOf(u, SortBy(u, ByTimeHash)[i], SortBy(u, ByTimeHash)[j]) <==> i <= j
  {
    var p := SortBy(u, ByTimeHash);
    SortedRecords(u);
    assert p[i] in u && p[j] in u;
    if i < j {
      InPlace(u, i, j);
    } else if j < i {
      InPlace(u, j, i);
      assert p[j].Id() != p[i].Id();
      if FirstOf(u, p[i], p[j]) { NotBothFirst(u, p[i], p[j]); }
    } else {
      StringLeTotal(p[i].hash, p[i].hash);
      var k :| 0 <= k < |u| && u[k] == p[i];
    }
  }

  lemma InPlace(u: seq<Record>, i: nat, j: nat)
    requires i < j < |SortBy(u, ByTimeHash)| && SortBy(u, ByTimeHash)[i].Ts() == SortBy(u, ByTimeHash)[j].Ts() && Axiom5(u)
    ensures FirstOf(u, SortBy(u, ByTimeHash)[i], SortBy(u, ByTimeHash)[j])
  {
    var p := SortBy(u, ByTimeHash);
    SortedRecords(u);
    SortKeepsTies(u);
    assert ByTimeHash(p[i], p[j]);
  }

  lemma PlaceOf(p: seq<Record>, q: seq<Record>, r: Record, s: Record) returns (i: nat)
    requires Axiom5(q) && Facts(p) == Facts(q) && r in p && s in q && r.fact == s.fact
    ensures i < |p| == |q| && p[i] == r && q[i] == s
  {
    i :| 0 <= i < |p| && p[i] == r;
    assert |Facts(p)| == |p| && |Facts(q)| == |q|;
    assert Facts(p)[i] == Facts(q)[i] == q[i].fact;
    OneRecordPerFact(q, q[i], s);
  }

  /** Two merges, of any chains in any order, give the same chain, links and hashes included, exactly when they take the same
      facts and put the facts of each instant into the same order: by hash, and equal hashes as they are collected. */
  lemma MergedEqualIff(H: Hasher, lists: seq<seq<Record>>, others: seq<seq<Record>>)
    ensures Merged(H, lists) == Merged(H, others) <==>
              FactSet(Distinct(lists)) == FactSet(Distinct(others)) && SameOrder(Distinct(lists), Distinct(others))
  {
    var u, v := Distinct(lists), Distinct(others);
    CollectMeaning(Concat(lists));
    CollectMeaning(Concat(others));
    FactsOfMerged(H, lists);
    FactsOfMerged(H, others);
    if FactSet(u) == FactSet(v) && SameOrder(u, v) {
      SameArrangement(u, v);
    } else if Merged(H, lists) == Merged(H, others) {
      SameArrangementMeans(u, v);
    }
  }

  // ----- when the order of the chains does not matter -----

  /** Records with one id carry one fact; their links and hashes may differ, as they do after a push. */
  ghost predicate OneFactPerId(rs: seq<Record>) { forall r, s :: r in rs && s in rs && r.Id() == s.Id() ==> r.fact == s.fact }

  /** No two different events share an instant. */
  ghost predicate DistinctInstants(rs: seq<Record>) { forall r, s :: r in rs && s in rs && r.Ts() == s.Ts() ==> r.Id() == s.Id() }

  lemma CollectKeepsFacts(rs: seq<Record>)
    requires OneFactPerId(rs)
    ensures FactSet(Collect([], rs)) == FactSet(rs)
  {
    CollectMeaning(rs);
    forall r | r in rs ensures r.fact in FactSet(Collect([], rs)) {
      assert r.Id() in IdSet(Collect([], rs));
      var s :| s in Collect([], rs) && s.Id() == r.Id();
    }
  }

  lemma InstantsGiveOrder(rs: seq<Record>, u: seq<Record>, v: seq<Record>)
    requires DistinctInstants(rs) && Axiom5(u) && Axiom5(v) && forall r :: r in u ==> r in rs
    ensures SameOrder(u, v)
  {
    forall r, s, x, y | r in u && s in v && x in u && y in v ensures OrderAgrees(u, v, r, s, x, y) {
      if r.fact == s.fact && x.fact == y.fact && r.Ts() == x.Ts() {
        OneRecordPerFact(u, r, x);
        OneRecordPerFact(v, s, y);
        FirstOfItself(u, r);
        FirstOfItself(v, s);
      }
    }
  }

  lemma FirstOfItself(u: seq<Record>, r: Record)
    requires r in u
    ensures FirstOf(u, r, r)
  {
    StringLeTotal(r.hash, r.hash);
    var k :| 0 <= k < |u| && u[k] == r;
  }

  lemma SharedByFacts(rs: seq<Record>, ss: seq<Record>)
    requires FactSet(rs) == FactSet(ss)
    ensures OneFactPerId(rs) ==> OneFactPerId(ss)
    ensures DistinctInstants(rs) ==> DistinctInstants(ss)
  {
    forall s | s in ss ensures exists r :: r in rs && r.fact == s.fact { assert s.fact in FactSet(ss); }
  }

  /** The merged chain depends on the set of facts alone, whatever the order and number of the chains, when records that share
      an id share their fact and no two different events share an instant. */
  lemma MergeDependsOnFacts(H: Hasher, lists: seq<seq<Record>>, others: seq<seq<Record>>)
    requires OneFactPerId(Concat(lists)) && DistinctInstants(Concat(lists))
    requires FactSet(Concat(lists)) == FactSet(Concat(others))
    ensures Merged(H, lists) == Merged(H, others)
  {
    SharedByFacts(Concat(lists), Concat(others));
    CollectMeaning(Concat(lists));
    CollectMeaning(Concat(others));
    CollectKeepsFacts(Concat(lists));
    CollectKeepsFacts(Concat(others));
    InstantsGiveOrder(Concat(lists), Distinct(lists), Distinct(others));
    MergedEqualIff(H, lists, others);
  }

  /** Records with one id are one record. */
  ghost predicate OneRecordPerId(rs: seq<Record>) { forall r, s :: r in rs && s in rs && r.Id() == s.Id() ==> r == s }

  lemma CollectKeepsAll(rs: seq<Record>)
    requires OneRecordPerId(rs)
    ensures forall r :: r in rs <==> r in Collect([], rs)
  {
    CollectMeaning(rs);
    forall r | r in rs ensures r in Collect([], rs) {
      assert r.Id() in IdSet(Collect([], rs));
      var s :| s in Collect([], rs) && s.Id() == r.Id();
    }
  }

  lemma HashesGiveOrder(u: seq<Record>, v: seq<Record>)
    requires Axiom5(u) && Axiom5(v) && HashesTellApart(u) && forall r :: r in u <==> r in v
    ensures SameOrder(u, v)
  {
    forall r, s, x, y | r in u && s in v && x in u && y in v ensures OrderAgrees(u, v, r, s, x, y) {
      if r.fact == s.fact && x.fact == y.fact && r.Ts() == x.Ts() {
        OneRecordPerFact(u, r, s);
        OneRecordPerFact(u, x, y);
        FirstOfItself(u, r);
        FirstOfItself(v, s);
      }
    }
  }

  /** Or when records that share an id are identical and no two records tie in timestamp and hash. */
  lemma MergeIgnoresOrder(H: Hasher, lists: seq<seq<Record>>, others: seq<seq<Record>>)
    requires OneRecordPerId(Concat(lists)) && HashesTellApart(Concat(lists))
    requires forall r :: r in Concat(lists) <==> r in Concat(others)
    ensures Merged(H, lists) == Merged(H, others)
  {
    CollectKeepsAll(Concat(lists));
    CollectKeepsAll(Concat(others));
    CollectMeaning(Concat(lists));
    CollectMeaning(Concat(others));
    HashesGiveOrder(Distinct(lists), Distinct(others));
    assert FactSet(Distinct(lists)) == FactSet(Distinct(others));
    MergedEqualIff(H, lists, others);
  }

  // ----- two chains -----

  ghost predicate AgreeOnShared(a: seq<Record>, b: seq<Record>) { forall r, s :: r in a && s in b && r.Id() == s.Id() ==> r.fact == s.fact }

  lemma ConcatTwo(a: seq<Record>, b: seq<Record>)
    ensures Concat([a, b]) == a + b
  {
    assert [a, b][..1] == [a] && [a][..0] == [];
    assert Concat([a]) == a;
  }

  lemma {:induction false} CollectOwn(a: seq<Record>)
    requires Axiom5(a)
    ensures Collect([], a) == a
  {
    if a != [] {
      var n := |a| - 1;
      CollectOwn(a[..n]);
      assert a == a[..n] + [a[n]];
      forall r | r in a[..n] ensures r.Id() != a[n].Id() { var k :| 0 <= k < n && a[k] == r; }
    }
  }

  lemma {:induction false} CollectExtends(got: seq<Record>, rs: seq<Record>)
    ensures got <= Collect(got, rs)
  {
    if rs != [] { CollectExtends(got, rs[..|rs| - 1]); }
  }

  lemma FirstGivenTaken(a: seq<Record>, b: seq<Record>)
    requires Axiom5(a)
    ensures a <= Distinct([a, b]) && Axiom5(Distinct([a, b]))
  {
    ConcatTwo(a, b);
    CollectSplit([], a, b);
    CollectOwn(a);
    CollectExtends(a, b);
    CollectMeaning(a + b);
  }

  /** Every event of the chain given first is taken in its version. */
  lemma FirstGivenWins(H: Hasher, a: seq<Record>, b: seq<Record>)
    requires Axiom5(a)
    ensures forall r :: r in a ==> r.fact in Facts(Merged(H, [a, b]))
  {
    var sorted := SortBy(Distinct([a, b]), ByTimeHash);
    FirstGivenTaken(a, b);
    FactsOfMerged(H, [a, b]);
    SortedRecords(Distinct([a, b]));
    forall r | r in a ensures r.fact in Facts(Merged(H, [a, b])) {
      assert r in Distinct([a, b]);
      var k :| 0 <= k < |sorted| && sorted[k] == r;
      assert Facts(sorted)[k] == r.fact;
    }
  }

  /** Chains that merge to the same chain in both orders agree on every event they share. */
  lemma CommutingMeansAgreeing(H: Hasher, a: seq<Record>, b: seq<Record>)
    requires Axiom5(a) && Axiom5(b) && Merged(H, [a, b]) == Merged(H, [b, a])
    ensures AgreeOnShared(a, b)
  {
    FirstGivenWins(H, a, b);
    FirstGivenWins(H, b, a);
    MergedIds(H, [a, b]);
    var m := Merged(H, [a, b]);
    forall r, s | r in a && s in b && r.Id() == s.Id() ensures r.fact == s.fact {
      var i :| 0 <= i < |m| && Facts(m)[i] == r.fact;
      var j :| 0 <= j < |m| && Facts(m)[j] == s.fact;
      assert m[i].Id() == m[j].Id();
    }
  }

  lemma SameFactsIff(a: seq<Record>, b: seq<Record>)
    requires Axiom5(a) && Axiom5(b)
    ensures AgreeOnShared(a, b) ==> FactSet(Distinct([a, b])) == FactSet(Distinct([b, a]))
  {
    if AgreeOnShared(a, b) {
      ConcatTwo(a, b);
      ConcatTwo(b, a);
      assert OneFactPerId(a + b) by {
        forall r, s | r in a + b && s in a + b && r.Id() == s.Id() ensures r.fact == s.fact { SharedOnce(a, b, r, s); }
      }
      assert forall r :: r in a + b <==> r in b + a;
      CollectKeepsFacts(a + b);
      CollectKeepsFacts(b + a);
      assert FactSet(a + b) == FactSet(b + a);
    }
  }

  /** The order of two chains does not matter exactly when they agree on every event they share -- links and hashes may differ --
      and the events of each instant come out in the same order. */
  lemma MergeCommutesIff(H: Hasher, a: seq<Record>, b: seq<Record>)
    requires Axiom5(a) && Axiom5(b)
    ensures Merged(H, [a, b]) == Merged(H, [b, a]) <==> AgreeOnShared(a, b) && SameOrder(Distinct([a, b]), Distinct([b, a]))
  {
    MergedEqualIff(H, [a, b], [b, a]);
    SameFactsIff(a, b);
    if Merged(H, [a, b]) == Merged(H, [b, a]) { CommutingMeansAgreeing(H, a, b); }
  }

  /** When no two different events share an instant, only the agreement is left. */
  lemma DistinctInstantsCommuteIff(H: Hasher, a: seq<Record>, b: seq<Record>)
    requires Axiom5(a) && Axiom5(b) && DistinctInstants(a + b)
    ensures Merged(H, [a, b]) == Merged(H, [b, a]) <==> AgreeOnShared(a, b)
  {
    ConcatTwo(a, b);
    ConcatTwo(b, a);
    CollectMeaning(a + b);
    CollectMeaning(b + a);
    InstantsGiveOrder(a + b, Distinct([a, b]), Distinct([b, a]));
    MergeCommutesIff(H, a, b);
  }

  lemma SharedOnce(a: seq<Record>, b: seq<Record>, r: Record, s: Record)
    requires Axiom5(a) && Axiom5(b) && AgreeOnShared(a, b) && r in a + b && s in a + b && r.Id() == s.Id()
    ensures r.fact == s.fact
  {
    if r in a && s in a { OneRecordPerFact(a, r, s); }
    if r in b && s in b { OneRecordPerFact(b, r, s); }
  }

  // ----- on chain objects -----

  function ListsOf(chains: seq<EventChain>): (lists: seq<seq<Record>>)
    reads chains, EventsOf(chains)
    ensures |lists| == |chains|
    ensures forall i :: 0 <= i < |chains| ==> lists[i] == chains[i].Records()
  {
    if chains == [] then []
    else
      assert forall c :: c in chains[..|chains| - 1] ==> c in chains;
      ListsOf(chains[..|chains| - 1]) + [chains[|chains| - 1].Records()]
  }

  /** What one more chain adds: its events with ids not seen before. */
  method CollectEvents(seen0: set<string>, got: seq<Event>, ghost views: seq<Record>, chain: EventChain)
    returns (seen: set<string>, all: seq<Event>)
    requires views == Views(got) && seen0 == IdSet(views)
    ensures Views(all) == Collect(views, old(chain.Records())) && seen == IdSet(Views(all))
  {
    seen, all := seen0, got;
    ghost var rs := chain.Records();
    for i := 0 to |chain.events|
      invariant Views(all) == Collect(views, rs[..i]) && seen == IdSet(Views(all))
    {
      var e := chain.events[i];
      TakeSnoc(rs, i);
      ViewsOfParts(all, e);
      IdsSnoc(Views(all), e.View());
      if e.body.id !in seen {
        seen := seen + {e.body.id};
        all := all + [e];
      }
    }
    assert rs[..|chain.events|] == rs;
  }

  /** The distinct events of all the chains, in the order in which they come. */
  method CollectAll(all: seq<EventChain>) returns (events: seq<Event>)
    ensures Views(events) == Distinct(old(ListsOf(all)))
  {
    var seen: set<string>;
    seen, events := {}, [];
    ghost var lists, views := ListsOf(all), [];
    for i := 0 to |all|
      invariant views == Views(events) && views == Collect([], Concat(lists[..i])) && seen == IdSet(views)
      invariant forall k :: i <= k < |all| ==> all[k].Records() == lists[k]
    {
      ConcatNext(lists, i);
      seen, events := CollectEvents(seen, events, views, all[i]);
      views := Views(events);
    }
    assert lists[..|all|] == lists;
  }

  lemma ConcatNext(lists: seq<seq<Record>>, i: nat)
    requires i < |lists|
    ensures Collect([], Concat(lists[..i + 1])) == Collect(Collect([], Concat(lists[..i])), lists[i])
  {
    TakeSnoc(lists, i);
    CollectSplit([], Concat(lists[..i]), lists[i]);
  }

  /** Merge any number of chains, after their common ancestor when one is given. Nothing that exists is changed. */
  method Merge(H: Hasher, concept: string, chains: seq<EventChain>, base: EventChain?) returns (r: Result<EventChain, ChainError>)
    ensures r.Ok? <==> Appendable(concept, SortBy(Distinct(old(ListsOf(WithBase(base, chains)))), ByTimeHash))
    ensures r.Ok? ==>
              && fresh(r.value) && (forall e :: e in r.value.events ==> fresh(e))
              && JustBuilt(r.value, H, concept, Merged(H, old(ListsOf(WithBase(base, chains)))))
    ensures r.Ok? && base != null ==> Holds(r.value.Records(), old(base.Records()))
  {
    ghost var lists := ListsOf(WithBase(base, chains));
    var events := CollectAll(WithBase(base, chains));
    assert Views(events) == Distinct(lists);
    var sorted := SortByTimeHash(events);
    var copies := CopyEvents(sorted);
    r := Reanchor(H, concept, copies);
    if base != null { AncestorTaken(H, lists, lists[0]); }
  }

  /** Every event of `rs`, as it is listed first under its id, is an event of `out`. */
  ghost predicate Holds(out: seq<Record>, rs: seq<Record>) { forall x :: FirstOfId(rs, x) ==> x.fact in Facts(out) }

  lemma AncestorTaken(H: Hasher, lists: seq<seq<Record>>, rs: seq<Record>)
    requires lists != [] && lists[0] == rs
    ensures Holds(Merged(H, lists), rs)
  {
    forall x | FirstOfId(rs, x) ensures x.fact in Facts(Merged(H, lists)) { FirstListTaken(H, lists, x); }
  }

  /** The ancestor first, when there is one. */
  function WithBase(base: EventChain?, chains: seq<EventChain>): seq<EventChain> { (if base == null then [] else [base]) + chains }
}
