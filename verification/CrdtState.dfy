/** Derived state under merging, and the fold `CRDTState.from_chain` (adl_lite/crdt.py). */
module CrdtStates {
  import opened Basics
  import opened Events
  import opened DerivedState
  import opened Crdt

  // ----- the union of two chains, whatever their versions -----

  lemma IdsAfterPut(d: seq<Fact>, f: Fact, e: seq<Fact>)
    requires e == Put(d, f) || e == PutLater(d, f)
    ensures FactIds(e) == FactIds(d) + {f.body.id} && Set(e) <= Set(d) + {f}
  {
    var i := Find(d, f.body.id);
    assert forall k :: 0 <= k < |d| ==> e[k].body.id == d[k].body.id;
    assert i < |e| && e[i].body.id == f.body.id;
    forall id | id in FactIds(d) ensures id in FactIds(e) {
      var k :| 0 <= k < |d| && d[k].body.id == id;
      assert e[k] in e;
    }
    forall id | id in FactIds(e) ensures id in FactIds(d) + {f.body.id} {
      var k :| 0 <= k < |e| && e[k].body.id == id;
      if k < |d| { assert d[k] in d; }
    }
  }

  lemma IdsSnoc(fs: seq<Fact>)
    requires fs != []
    ensures var n := |fs| - 1;
      FactIds(fs) == FactIds(fs[..n]) + {fs[n].body.id} && Set(fs) == Set(fs[..n]) + {fs[n]}
  {
    var n := |fs| - 1;
    assert fs == fs[..n] + [fs[n]];
  }

  lemma {:induction false} PutAllCovers(fs: seq<Fact>)
    ensures FactIds(PutAll([], fs)) == FactIds(fs) && Set(PutAll([], fs)) <= Set(fs)
  {
    if fs == [] {
    } else {
      var n := |fs| - 1;
      PutAllCovers(fs[..n]);
      IdsSnoc(fs);
      IdsAfterPut(PutAll([], fs[..n]), fs[n], PutAll([], fs));
    }
  }

  lemma {:induction false} UnionCovers(a: seq<Fact>, b: seq<Fact>)
    ensures FactIds(UnionById(a, b)) == FactIds(a) + FactIds(b) && Set(UnionById(a, b)) <= Set(a) + Set(b)
  {
    if b == [] {
      PutAllCovers(a);
    } else {
      var n := |b| - 1;
      UnionCovers(a, b[..n]);
      IdsSnoc(b);
      IdsAfterPut(UnionById(a, b[..n]), b[n], UnionById(a, b));
    }
  }

  function MergedRecords(H: Hasher, a: seq<Record>, b: seq<Record>): seq<Record> {
    AppendAll(H, [], MergeFacts(Facts(a), Facts(b)))
  }

  function Bodies(rs: seq<Record>): set<Body> { set r | r in rs :: r.fact.body }

  function FactBodies(fs: seq<Fact>): set<Body> { set f | f in fs :: f.body }

  lemma BodiesOfFacts(rs: seq<Record>)
    ensures FactBodies(Facts(rs)) == Bodies(rs) && FactIds(Facts(rs)) == IdSet(rs)
  {
    assert forall i :: 0 <= i < |rs| ==> Facts(rs)[i] == rs[i].fact;
    forall r | r in rs ensures r.fact in Facts(rs) {
      var i :| 0 <= i < |rs| && rs[i] == r;
      assert Facts(rs)[i] == r.fact;
    }
    forall f | f in Facts(rs) ensures exists r :: r in rs && r.fact == f {
      var i :| 0 <= i < |rs| && Facts(rs)[i] == f;
      assert rs[i] in rs && rs[i].fact == f;
    }
  }

  lemma BodiesWithin(fs: seq<Fact>, gs: seq<Fact>)
    requires |fs| == |gs| && forall i :: 0 <= i < |fs| ==> fs[i].body == gs[i].body
    ensures FactBodies(fs) <= FactBodies(gs) && FactIds(fs) <= FactIds(gs)
  {
    forall f | f in fs ensures f.body in FactBodies(gs) && f.body.id in FactIds(gs) {
      var i :| 0 <= i < |fs| && fs[i] == f;
      assert gs[i] in gs;
    }
  }

  lemma BodiesOfAppended(H: Hasher, fs: seq<Fact>)
    ensures Bodies(AppendAll(H, [], fs)) == FactBodies(fs) && IdSet(AppendAll(H, [], fs)) == FactIds(fs)
  {
    var gs := Facts(AppendAll(H, [], fs));
    BodiesOfFacts(AppendAll(H, [], fs));
    forall i | 0 <= i < |fs| ensures gs[i].body == fs[i].body {
      AppendAllBodies(H, [], fs);
      assert AppendAll(H, [], fs)[0 + i].fact.body == fs[i].body;
    }
    BodiesWithin(fs, gs);
    BodiesWithin(gs, fs);
  }

  /** Every id survives the merge, and every merged body is a body of one side. */
  lemma MergedCovers(H: Hasher, a: seq<Record>, b: seq<Record>)
    ensures IdSet(MergedRecords(H, a, b)) == IdSet(a) + IdSet(b)
    ensures Bodies(MergedRecords(H, a, b)) <= Bodies(a) + Bodies(b)
  {
    var u := UnionById(Facts(a), Facts(b));
    var fs := MergeFacts(Facts(a), Facts(b));
    BodiesOfAppended(H, fs);
    BodiesOfFacts(a);
    BodiesOfFacts(b);
    UnionCovers(Facts(a), Facts(b));
    SortKeepsElements(u, Earlier);
    SameElementsSameSet(u, fs);
    assert FactIds(fs) == FactIds(u) by { SameSetSameIds(fs, u); }
    forall f | f in fs ensures f.body in Bodies(a) + Bodies(b) {
      assert f in Set(u);
      assert f in Facts(a) || f in Facts(b);
    }
  }

  lemma SameSetSameIds(u: seq<Fact>, v: seq<Fact>)
    requires Set(u) == Set(v)
    ensures FactIds(u) == FactIds(v)
  {
    assert forall f :: f in u <==> f in Set(u);
    assert forall f :: f in v <==> f in Set(v);
  }

  /** Versions of one event may differ in time, actor or reasoning, but not in kind or payload. */
  ghost predicate SameMeaning(rs: seq<Record>) {
    forall r, s :: r in rs && s in rs && r.Id() == s.Id() ==>
      r.Kind() == s.Kind() && r.fact.body.payload == s.fact.body.payload
  }

  predicate Alike(r: Record, s: Record) {
    Order(r.Kind()) <= Order(s.Kind()) && Claim(r.fact.body) <= Claim(s.fact.body)
  }

  ghost predicate Below(m: seq<Record>, rs: seq<Record>) {
    forall r :: r in m ==> exists s :: s in rs && Alike(r, s)
  }

  lemma StateBelow(m: seq<Record>, rs: seq<Record>)
    requires Below(m, rs)
    ensures MaxOrder(m) <= MaxOrder(rs) && MaxConfidence(m) <= MaxConfidence(rs)
  {
    MaxOrderIsLeastBound(m);
    MaxOrderIsLeastBound(rs);
    MaxConfidenceIsLeastBound(m);
    MaxConfidenceIsLeastBound(rs);
    if MaxOrder(m) != 0 {
      var r :| r in m && Order(r.Kind()) == MaxOrder(m);
      var s :| s in rs && Alike(r, s);
    }
    if MaxConfidence(m) != 0.0 {
      var r :| r in m && Claim(r.fact.body) == MaxConfidence(m);
      var s :| s in rs && Alike(r, s);
    }
  }

  lemma FromOneSide(H: Hasher, a: seq<Record>, b: seq<Record>, r: Record) returns (s: Record)
    requires r in MergedRecords(H, a, b)
    ensures (s in a || s in b) && s.fact.body == r.fact.body
  {
    MergedCovers(H, a, b);
    assert r.fact.body in Bodies(MergedRecords(H, a, b));
    s :| (s in a || s in b) && s.fact.body == r.fact.body;
  }

  lemma Survivor(H: Hasher, a: seq<Record>, b: seq<Record>, s: Record) returns (r: Record)
    requires SameMeaning(a + b) && (s in a || s in b)
    ensures r in MergedRecords(H, a, b) && r.Id() == s.Id() && r.Kind() == s.Kind() && r.fact.body.payload == s.fact.body.payload
  {
    MergedCovers(H, a, b);
    assert s.Id() in IdSet(a) + IdSet(b);
    r :| r in MergedRecords(H, a, b) && r.Id() == s.Id();
    var o := FromOneSide(H, a, b, r);
    assert o in a + b && s in a + b;
  }

  lemma MergedBelow(H: Hasher, a: seq<Record>, b: seq<Record>)
    ensures Below(MergedRecords(H, a, b), a + b)
  {
    forall r | r in MergedRecords(H, a, b) ensures exists s :: s in a + b && Alike(r, s) {
      var s := FromOneSide(H, a, b, r);
      assert s in a + b;
    }
  }

  lemma BelowMerged(H: Hasher, a: seq<Record>, b: seq<Record>)
    requires SameMeaning(a + b)
    ensures Below(a + b, MergedRecords(H, a, b))
  {
    forall s | s in a + b ensures exists r :: r in MergedRecords(H, a, b) && Alike(s, r) {
      var r := Survivor(H, a, b, s);
    }
  }

  /** Deriving state commutes with merging: the ids are the union, the status order and the confidence
      are the maxima of the two sides. */
  lemma StateOfMerge(H: Hasher, a: seq<Record>, b: seq<Record>)
    requires SameMeaning(a + b)
    ensures var m := MergedRecords(H, a, b);
      && IdSet(m) == IdSet(a) + IdSet(b)
      && MaxOrder(m) == Max(MaxOrder(a), MaxOrder(b))
      && MaxConfidence(m) == MaxReal(MaxConfidence(a), MaxConfidence(b))
  {
    var m := MergedRecords(H, a, b);
    MergedCovers(H, a, b);
    assert MaxOrder(m) <= MaxOrder(a + b) && MaxConfidence(m) <= MaxConfidence(a + b) by {
      MergedBelow(H, a, b);
      StateBelow(m, a + b);
    }
    assert MaxOrder(a + b) <= MaxOrder(m) && MaxConfidence(a + b) <= MaxConfidence(m) by {
      BelowMerged(H, a, b);
      StateBelow(a + b, m);
    }
    StateOfConcat(a, b);
  }

  // ----- CRDTState -----

  datatype CRDTState = CRDTState(status: nat, confidence: real, validatorCount: nat, evidenceCount: nat)

  datatype StateError = StatusRegressed | Unreadable

  const INITIAL := CRDTState(1, 0.0, 0, 0)

  function NextStatus(status: nat, kind: EventType): nat {
    if kind == Validate && status <= 2 then 3
    else if kind == Deprecate then 4
    else if kind == Fork && status == 1 then 2
    else if kind == Archive then 5
    else status
  }

  /** `apply_event`: the confidence of every event counts, unclamped; the monotonicity assertion comes last. */
  function ApplyEvent(s: CRDTState, b: Body): Result<CRDTState, StateError> {
    var raw := RawConfidence(b.payload);
    if raw.None? then Err(Unreadable)
    else
      var t := CRDTState(
        NextStatus(s.status, b.kind),
        MaxReal(s.confidence, raw.value),
        s.validatorCount + (if b.kind == Validate then 1 else 0),
        s.evidenceCount + (if b.kind == Evidence then 1 else 0));
      if t.status < s.status then Err(StatusRegressed) else Ok(t)
  }

  /** `from_chain`, a fold over the events in order. */
  function FromChain(rs: seq<Record>): Result<CRDTState, StateError> {
    if rs == [] then Ok(INITIAL)
    else
      match FromChain(rs[..|rs| - 1])
      case Err(e) => Err(e)
      case Ok(s) => ApplyEvent(s, rs[|rs| - 1].fact.body)
  }

  ghost predicate EveryConfidenceReadable(rs: seq<Record>) {
    forall i :: 0 <= i < |rs| ==> RawConfidence(rs[i].fact.body.payload).Some?
  }

  ghost predicate DeprecateAfterArchive(rs: seq<Record>) {
    exists i, j :: 0 <= i < j < |rs| && rs[i].Kind() == Archive && rs[j].Kind() == Deprecate
  }

  ghost predicate FoldPasses(rs: seq<Record>) { EveryConfidenceReadable(rs) && !DeprecateAfterArchive(rs) }

  /** The fold goes through exactly when every confidence is readable and no DEPRECATE follows an
      ARCHIVE; it then gives the chain's own status, and a confidence at least the chain's. */
  lemma {:induction false} FromChainAgrees(rs: seq<Record>)
    ensures FromChain(rs).Ok? <==> FoldPasses(rs)
    ensures FromChain(rs).Ok? ==>
              && FromChain(rs).value.status == Max(1, MaxOrder(rs))
              && StatusAt(FromChain(rs).value.status) == StatusAt(MaxOrder(rs))
              && FromChain(rs).value.confidence >= MaxConfidence(rs)
  {
    if rs == [] {
    } else {
      var n := |rs| - 1;
      FromChainAgrees(rs[..n]);
      ConditionsSnoc(rs);
    }
  }

  /** The event at `n` is the first that the fold cannot take. */
  ghost predicate FailsAt(rs: seq<Record>, n: int) { 0 <= n < |rs| && FoldPasses(rs[..n]) && !FoldPasses(rs[..n + 1]) }

  ghost predicate RaisesAt(rs: seq<Record>, n: int, e: StateError) {
    FailsAt(rs, n) && (e == Unreadable <==> RawConfidence(rs[n].fact.body.payload).None?)
  }

  lemma FailsAtPrefix(rs: seq<Record>, m: nat, n: int, e: StateError)
    requires n < m <= |rs|
    ensures RaisesAt(rs[..m], n, e) <==> RaisesAt(rs, n, e)
    ensures FailsAt(rs, n) ==> !FoldPasses(rs[..m])
  {
    if 0 <= n {
      assert rs[..m][..n] == rs[..n] && rs[..m][..n + 1] == rs[..n + 1];
      if FailsAt(rs, n) { StaysFailed(rs, n + 1, m); }
    }
  }

  /** The fold raises on the first event that it cannot take: on an unreadable confidence, or else, when the confidence can be
      read, because a DEPRECATE behind an ARCHIVE would lower the status. */
  lemma {:induction false} FromChainRaises(rs: seq<Record>, e: StateError)
    ensures FromChain(rs) == Err(e) <==> exists n :: RaisesAt(rs, n, e)
  {
    if rs != [] {
      var last := |rs| - 1;
      FromChainRaises(rs[..last], e);
      FromChainAgrees(rs[..last]);
      FromChainAgrees(rs);
      assert rs[..last + 1] == rs;
      forall n: int | n < last
        ensures RaisesAt(rs[..last], n, e) <==> RaisesAt(rs, n, e)
        ensures FailsAt(rs, n) ==> !FoldPasses(rs[..last])
      {
        FailsAtPrefix(rs, last, n, e);
      }
      if FoldPasses(rs[..last]) {
        assert RaisesAt(rs, last, e) <==> FromChain(rs) == Err(e);
        assert forall n :: RaisesAt(rs, n, e) ==> n == last;
      } else {
        assert forall n :: RaisesAt(rs, n, e) ==> n < last;
      }
    }
  }

  lemma StaysFailed(rs: seq<Record>, m: nat, n: nat)
    requires m <= n <= |rs| && !FoldPasses(rs[..m])
    ensures !FoldPasses(rs[..n])
  {
    assert forall i :: 0 <= i < m ==> rs[..m][i] == rs[..n][i];
  }

  lemma ConditionsSnoc(rs: seq<Record>)
    requires rs != []
    ensures var n := |rs| - 1;
      FoldPasses(rs) <==> FoldPasses(rs[..n]) && RawConfidence(rs[n].fact.body.payload).Some?
                          && !(rs[n].Kind() == Deprecate && MaxOrder(rs[..n]) == 5)
  {
    var n := |rs| - 1;
    if !DeprecateAfterArchive(rs[..n]) { DeprecateLast(rs); }
    if DeprecateAfterArchive(rs[..n]) { DeprecateEarlier(rs); }
    assert forall i :: 0 <= i < n ==> rs[..n][i] == rs[i];
  }

  lemma DeprecateLast(rs: seq<Record>)
    requires rs != [] && !DeprecateAfterArchive(rs[..|rs| - 1])
    ensures DeprecateAfterArchive(rs) <==> rs[|rs| - 1].Kind() == Deprecate && MaxOrder(rs[..|rs| - 1]) == 5
  {
    var n := |rs| - 1;
    var init := rs[..n];
    assert forall k :: 0 <= k < n ==> init[k] == rs[k];
    ArchiveIsTop(init);
    if DeprecateAfterArchive(rs) {
      var i, j :| 0 <= i < j < |rs| && rs[i].Kind() == Archive && rs[j].Kind() == Deprecate;
      assert init[i].Kind() == Archive;
    }
    if rs[n].Kind() == Deprecate && MaxOrder(init) == 5 {
      var i :| 0 <= i < n && init[i].Kind() == Archive;
      assert rs[i].Kind() == Archive;
    }
  }

  lemma DeprecateEarlier(rs: seq<Record>)
    requires rs != [] && DeprecateAfterArchive(rs[..|rs| - 1])
    ensures DeprecateAfterArchive(rs)
  {
    var init := rs[..|rs| - 1];
    var i, j :| 0 <= i < j < |init| && init[i].Kind() == Archive && init[j].Kind() == Deprecate;
    assert rs[i].Kind() == Archive && rs[j].Kind() == Deprecate;
  }

  lemma ArchiveIsTop(rs: seq<Record>)
    ensures MaxOrder(rs) == 5 <==> exists i :: 0 <= i < |rs| && rs[i].Kind() == Archive
  {
    MaxOrderIsLeastBound(rs);
    if MaxOrder(rs) == 5 {
      var r :| r in rs && Order(r.Kind()) == 5;
      var i :| 0 <= i < |rs| && rs[i] == r;
      assert rs[i].Kind() == Archive;
    }
    if exists i :: 0 <= i < |rs| && rs[i].Kind() == Archive {
      var i :| 0 <= i < |rs| && rs[i].Kind() == Archive;
      assert rs[i] in rs;
    }
  }
}
