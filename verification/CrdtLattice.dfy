/** `CRDTState.merge` and how it relates to merging the chains themselves (adl_lite/crdt.py). */
module CrdtLattice {
  import opened Basics
  import opened Events
  import opened DerivedState
  import opened Crdt
  import opened CrdtStates

  /** `merge`: the maximum in each field. */
  function MergeStates(s: CRDTState, t: CRDTState): CRDTState {
    CRDTState(Max(s.status, t.status), MaxReal(s.confidence, t.confidence),
              Max(s.validatorCount, t.validatorCount), Max(s.evidenceCount, t.evidenceCount))
  }

  predicate AtMost(s: CRDTState, t: CRDTState) {
    s.status <= t.status && s.confidence <= t.confidence && s.validatorCount <= t.validatorCount && s.evidenceCount <= t.evidenceCount
  }

  /** The merge of two states is their least upper bound, which makes it commutative, associative and idempotent. */
  lemma MergeIsLeastUpperBound(s: CRDTState, t: CRDTState, u: CRDTState)
    ensures AtMost(MergeStates(s, t), u) <==> AtMost(s, u) && AtMost(t, u)
    ensures AtMost(s, t) && AtMost(t, s) ==> s == t
    ensures MergeStates(s, t) == MergeStates(t, s) && MergeStates(s, s) == s
    ensures MergeStates(MergeStates(s, t), u) == MergeStates(s, MergeStates(t, u))
  {
  }

  /** Whatever `apply_event` lets through is at least the state before it. */
  lemma ApplyingGrows(s: CRDTState, b: Body)
    ensures ApplyEvent(s, b).Ok? ==> AtMost(s, ApplyEvent(s, b).value)
  {
  }

  // ----- what the fold counts -----

  function KindCount(fs: seq<Fact>, kind: EventType): nat {
    if fs == [] then 0 else KindCount(fs[..|fs| - 1], kind) + if fs[|fs| - 1].body.kind == kind then 1 else 0
  }

  function Raw(f: Fact): real { if RawConfidence(f.body.payload).Some? then RawConfidence(f.body.payload).value else 0.0 }

  function RawMax(fs: seq<Fact>): real {
    if fs == [] then 0.0 else MaxReal(RawMax(fs[..|fs| - 1]), Raw(fs[|fs| - 1]))
  }

  /** The fold's counters count events, not validators; its confidence is the greatest one reported by any event. */
  lemma {:induction false} FromChainCounts(rs: seq<Record>)
    ensures FromChain(rs).Ok? ==>
              && FromChain(rs).value.validatorCount == KindCount(Facts(rs), Validate)
              && FromChain(rs).value.evidenceCount == KindCount(Facts(rs), Evidence)
              && FromChain(rs).value.confidence == RawMax(Facts(rs))
  {
    if rs != [] {
      var n := |rs| - 1;
      FromChainCounts(rs[..n]);
      FactsSnoc(rs, n);
    }
  }

  function KindIds(rs: seq<Record>, kind: EventType): set<string> { set r | r in rs && r.Kind() == kind :: r.Id() }

  /** With distinct ids the events of a kind are as many as their ids. */
  lemma {:induction false} CountIsIds(rs: seq<Record>, kind: EventType)
    requires Axiom5(rs)
    ensures KindCount(Facts(rs), kind) == |KindIds(rs, kind)|
  {
    if rs == [] {
    } else {
      var n := |rs| - 1;
      CountIsIds(rs[..n], kind);
      FactsSnoc(rs, n);
      KindIdsSnoc(rs[..n], rs[n], kind);
      assert rs == rs[..n] + [rs[n]];
      LastIdIsNew(rs, kind);
    }
  }

  lemma KindIdsSnoc(rs: seq<Record>, r: Record, kind: EventType)
    ensures KindIds(rs + [r], kind) == KindIds(rs, kind) + if r.Kind() == kind then {r.Id()} else {}
  {
    assert (rs + [r])[|rs|] == r;
    assert forall x :: x in rs ==> x in rs + [r];
    if r.Kind() == kind { IsKindId(rs + [r], r); }
  }

  lemma IsKindId(rs: seq<Record>, r: Record)
    requires r in rs
    ensures r.Id() in KindIds(rs, r.Kind())
  {
  }

  lemma LastIdIsNew(rs: seq<Record>, kind: EventType)
    requires rs != [] && Axiom5(rs)
    ensures rs[|rs| - 1].Id() !in KindIds(rs[..|rs| - 1], kind)
  {
    forall r | r in rs[..|rs| - 1] ensures r.Id() != rs[|rs| - 1].Id() {
      var k :| 0 <= k < |rs| - 1 && rs[k] == r;
    }
  }

  /** The greatest reported confidence is attained, when positive, and bounds all. */
  lemma {:induction false} RawMaxIsLeastBound(fs: seq<Fact>)
    ensures RawMax(fs) >= 0.0 && forall f :: f in fs ==> Raw(f) <= RawMax(fs)
    ensures RawMax(fs) == 0.0 || exists f :: f in fs && Raw(f) == RawMax(fs)
  {
    if fs != [] {
      var n := |fs| - 1;
      RawMaxIsLeastBound(fs[..n]);
      assert fs == fs[..n] + [fs[n]];
    }
  }

  // ----- merging chains and merging states -----

  lemma KindIdsOfMerge(H: Hasher, a: seq<Record>, b: seq<Record>, kind: EventType)
    requires SameMeaning(a + b)
    ensures KindIds(MergedRecords(H, a, b), kind) == KindIds(a, kind) + KindIds(b, kind)
  {
    KindIdsCovered(H, a, b, kind);
    KindIdsSurvive(H, a, b, kind);
  }

  lemma KindIdsCovered(H: Hasher, a: seq<Record>, b: seq<Record>, kind: EventType)
    ensures KindIds(MergedRecords(H, a, b), kind) <= KindIds(a, kind) + KindIds(b, kind)
  {
    forall r | r in MergedRecords(H, a, b) && r.Kind() == kind ensures r.Id() in KindIds(a, kind) + KindIds(b, kind) {
      var s := FromOneSide(H, a, b, r);
      IsKindId(if s in a then a else b, s);
    }
  }

  lemma KindIdsSurvive(H: Hasher, a: seq<Record>, b: seq<Record>, kind: EventType)
    requires SameMeaning(a + b)
    ensures KindIds(a, kind) + KindIds(b, kind) <= KindIds(MergedRecords(H, a, b), kind)
  {
    forall s | (s in a || s in b) && s.Kind() == kind ensures s.Id() in KindIds(MergedRecords(H, a, b), kind) {
      var r := Survivor(H, a, b, s);
      IsKindId(MergedRecords(H, a, b), r);
    }
  }

  lemma RawBounds(rs: seq<Record>)
    ensures forall r :: r in rs ==> Raw(r.fact) <= RawMax(Facts(rs))
    ensures RawMax(Facts(rs)) == 0.0 || exists r :: r in rs && Raw(r.fact) == RawMax(Facts(rs))
    ensures RawMax(Facts(rs)) >= 0.0
  {
    RawMaxIsLeastBound(Facts(rs));
    forall r | r in rs ensures r.fact in Facts(rs) {
      var i :| 0 <= i < |rs| && rs[i] == r;
      assert Facts(rs)[i] == r.fact;
    }
    if RawMax(Facts(rs)) != 0.0 {
      var f :| f in Facts(rs) && Raw(f) == RawMax(Facts(rs));
      var i :| 0 <= i < |rs| && Facts(rs)[i] == f;
      assert rs[i] in rs;
    }
  }

  lemma RawMaxOfMerge(H: Hasher, a: seq<Record>, b: seq<Record>)
    requires SameMeaning(a + b)
    ensures RawMax(Facts(MergedRecords(H, a, b))) == MaxReal(RawMax(Facts(a)), RawMax(Facts(b)))
  {
    var m := MergedRecords(H, a, b);
    RawBounds(a);
    RawBounds(b);
    RawBounds(m);
    forall s | s in a || s in b ensures Raw(s.fact) <= RawMax(Facts(m)) {
      var r := Survivor(H, a, b, s);
    }
    if RawMax(Facts(m)) != 0.0 {
      var r :| r in m && Raw(r.fact) == RawMax(Facts(m));
      var s := FromOneSide(H, a, b, r);
    }
  }

  lemma MergedAreDistinct(H: Hasher, a: seq<Record>, b: seq<Record>)
    ensures Axiom5(MergedRecords(H, a, b))
  {
    var u := UnionById(Facts(a), Facts(b));
    var fs, m := SortBy(u, Earlier), MergedRecords(H, a, b);
    UnionHasDistinctIds(Facts(a), Facts(b));
    SortedUnion(u);
    AppendAllBodies(H, [], fs);
    forall i | 0 <= i < |m| ensures m[i].Id() == fs[i].body.id { assert m[0 + i].fact.body == fs[i].body; }
  }

  ghost predicate Nested<T>(s: set<T>, t: set<T>) { s <= t || t <= s }

  lemma NoneMissing<T>(s: set<T>, t: set<T>)
    ensures |t - s| == 0 <==> t <= s
    ensures |s + t| == |s| + |t - s| && |t| == |t - s| + |s * t|
  {
    assert s + t == s + (t - s);
    assert t == (t - s) + s * t;
    if t <= s { assert t - s == {}; }
    if |t - s| == 0 { assert forall x :: x in t && x !in s ==> x in t - s; }
  }

  lemma UnionAsLargeAsOne<T>(s: set<T>, t: set<T>)
    ensures |s + t| == Max(|s|, |t|) <==> Nested(s, t)
    ensures |s + t| + |s * t| == |s| + |t|
  {
    NoneMissing(s, t);
    NoneMissing(t, s);
    assert t + s == s + t && t * s == s * t;
  }

  /** What `from_chain` counts in the merged chain, and when the merge of the two states counts the same. */
  lemma CountOfMerge(H: Hasher, a: seq<Record>, b: seq<Record>, kind: EventType)
    requires Axiom5(a) && Axiom5(b) && SameMeaning(a + b)
    ensures var x, y := KindIds(a, kind), KindIds(b, kind);
      && KindCount(Facts(a), kind) == |x| && KindCount(Facts(b), kind) == |y|
      && KindCount(Facts(MergedRecords(H, a, b)), kind) == |x + y| == |x| + |y| - |x * y|
      && (|x + y| == Max(|x|, |y|) <==> Nested(x, y))
  {
    CountIsIds(a, kind);
    CountIsIds(b, kind);
    MergedAreDistinct(H, a, b);
    CountIsIds(MergedRecords(H, a, b), kind);
    KindIdsOfMerge(H, a, b, kind);
    UnionAsLargeAsOne(KindIds(a, kind), KindIds(b, kind));
  }

  /** The counters of the merged chain count the validations and the evidence of both sides, shared ones once, while merging
      the states takes maxima. So `from_chain` of the merged chain is the merge of the two states exactly when, for validations
      and for evidence, one side has all those of the other. Status and confidence always agree. */
  lemma StatesJoinIff(H: Hasher, a: seq<Record>, b: seq<Record>)
    requires Axiom5(a) && Axiom5(b) && SameMeaning(a + b)
    requires FromChain(a).Ok? && FromChain(b).Ok? && FromChain(MergedRecords(H, a, b)).Ok?
    ensures var s, t, m := FromChain(a).value, FromChain(b).value, FromChain(MergedRecords(H, a, b)).value;
      && m.status == MergeStates(s, t).status && m.confidence == MergeStates(s, t).confidence
      && m.validatorCount == s.validatorCount + t.validatorCount - |KindIds(a, Validate) * KindIds(b, Validate)|
      && m.evidenceCount == s.evidenceCount + t.evidenceCount - |KindIds(a, Evidence) * KindIds(b, Evidence)|
      && (m == MergeStates(s, t) <==>
            Nested(KindIds(a, Validate), KindIds(b, Validate)) && Nested(KindIds(a, Evidence), KindIds(b, Evidence)))
  {
    FromChainCounts(a);
    FromChainCounts(b);
    FromChainCounts(MergedRecords(H, a, b));
    CountOfMerge(H, a, b, Validate);
    CountOfMerge(H, a, b, Evidence);
    RawMaxOfMerge(H, a, b);
    StatusOfMerge(H, a, b);
  }

  lemma StatusOfMerge(H: Hasher, a: seq<Record>, b: seq<Record>)
    requires SameMeaning(a + b)
    requires FromChain(a).Ok? && FromChain(b).Ok? && FromChain(MergedRecords(H, a, b)).Ok?
    ensures FromChain(MergedRecords(H, a, b)).value.status == Max(FromChain(a).value.status, FromChain(b).value.status)
  {
    FromChainAgrees(a);
    FromChainAgrees(b);
    FromChainAgrees(MergedRecords(H, a, b));
    StateOfMerge(H, a, b);
  }
}
