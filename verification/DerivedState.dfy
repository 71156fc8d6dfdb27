/** Status and confidence of a capability, recomputed from its events
    (adl_lite/models.py: `_compute_status_from_events`, `_compute_confidence_from_events`). */
module DerivedState {
  import opened Basics
  import opened Events

  datatype DiscoveryStatus = Provisional | Forked | Validated | Deprecated | Archived

  /** `StatusOrder`: 1 to 5 along the lifecycle lattice. */
  function StatusAt(order: nat): DiscoveryStatus {
    if order <= 1 then Provisional
    else if order == 2 then Forked
    else if order == 3 then Validated
    else if order == 4 then Deprecated
    else Archived
  }

  /** Lattice order of a lifecycle event; 0 for the events that do not move the status. */
  function Order(kind: EventType): (o: nat)
    ensures o <= 5
  {
    match kind
    case Register => 1
    case Fork => 2
    case Validate => 3
    case Deprecate => 4
    case Archive => 5
    case _ => 0
  }

  function MaxOrder(rs: seq<Record>): (o: nat)
    ensures o <= 5
  {
    if rs == [] then 0
    else
      var before := MaxOrder(rs[..|rs| - 1]);
      var o := Order(rs[|rs| - 1].Kind());
      if o > before then o else before
  }

  /** `float(payload.get("confidence", 0.0))`; None where Python raises. */
  function RawConfidence(p: Payload): Option<real> {
    if "confidence" !in p then Some(0.0)
    else
      match p["confidence"]
      case Num(n) => Some(n)
      case Bool(b) => Some(if b then 1.0 else 0.0)
      case _ => None
  }

  predicate ClaimsConfidence(kind: EventType) { kind == Validate || kind == Snapshot }

  /** The event's confidence can be read whenever the chain reads it. */
  predicate Readable(b: Body) { ClaimsConfidence(b.kind) ==> RawConfidence(b.payload).Some? }

  /** What an event adds to the confidence counter; an unreadable value adds nothing. */
  function Claim(b: Body): (c: real)
    ensures 0.0 <= c <= 1.0
  {
    if ClaimsConfidence(b.kind) && RawConfidence(b.payload).Some? then Clamp(RawConfidence(b.payload).value) else 0.0
  }

  function MaxConfidence(rs: seq<Record>): (c: real)
    ensures 0.0 <= c <= 1.0
  {
    if rs == [] then 0.0 else MaxReal(MaxConfidence(rs[..|rs| - 1]), Claim(rs[|rs| - 1].fact.body))
  }

  predicate AllReadable(rs: seq<Record>) { forall i :: 0 <= i < |rs| ==> Readable(rs[i].fact.body) }

  lemma StateSnoc(rs: seq<Record>, i: nat)
    requires i < |rs|
    ensures MaxOrder(rs[..i + 1]) == Max(MaxOrder(rs[..i]), Order(rs[i].Kind()))
    ensures MaxConfidence(rs[..i + 1]) == MaxReal(MaxConfidence(rs[..i]), Claim(rs[i].fact.body))
    ensures AllReadable(rs[..i + 1]) <==> AllReadable(rs[..i]) && Readable(rs[i].fact.body)
  {
    assert rs[..i + 1][..i] == rs[..i];
  }

  /** The maximum is attained and bounds every event: independent of the order of the events. */
  lemma {:induction false} MaxOrderIsLeastBound(rs: seq<Record>)
    ensures forall r :: r in rs ==> Order(r.Kind()) <= MaxOrder(rs)
    ensures MaxOrder(rs) == 0 || exists r :: r in rs && Order(r.Kind()) == MaxOrder(rs)
  {
    if rs == [] {
    } else {
      var n := |rs| - 1;
      MaxOrderIsLeastBound(rs[..n]);
      assert rs == rs[..n] + [rs[n]];
      if MaxOrder(rs) != 0 && MaxOrder(rs) == MaxOrder(rs[..n]) {
        var r :| r in rs[..n] && Order(r.Kind()) == MaxOrder(rs[..n]);
        assert r in rs;
      } else {
        assert rs[n] in rs;
      }
    }
  }

  /** Some event of the list is of this kind. */
  ghost predicate Has(rs: seq<Record>, kind: EventType) { exists r :: r in rs && r.Kind() == kind }

  /** What the events call for, kind by kind: an ARCHIVE decides, else a DEPRECATE, else a VALIDATE, else a FORK. */
  ghost predicate CalledFor(rs: seq<Record>, s: DiscoveryStatus) {
    && (s == Archived <==> Has(rs, Archive))
    && (s == Deprecated <==> Has(rs, Deprecate) && !Has(rs, Archive))
    && (s == Validated <==> Has(rs, Validate) && !Has(rs, Deprecate) && !Has(rs, Archive))
    && (s == Forked <==> Has(rs, Fork) && !Has(rs, Validate) && !Has(rs, Deprecate) && !Has(rs, Archive))
    && (s == Provisional <==> !Has(rs, Fork) && !Has(rs, Validate) && !Has(rs, Deprecate) && !Has(rs, Archive))
  }

  /** The place in the lifecycle lattice: 5 with an ARCHIVE, else 4 with a DEPRECATE, 3 with a VALIDATE, 2 with a FORK, 1 with a
      REGISTER. */
  lemma OrderByKinds(rs: seq<Record>)
    ensures MaxOrder(rs) == if Has(rs, Archive) then 5 else if Has(rs, Deprecate) then 4 else if Has(rs, Validate) then 3
                            else if Has(rs, Fork) then 2 else if Has(rs, Register) then 1 else 0
  {
    MaxOrderIsLeastBound(rs);
    forall r | r in rs ensures Order(r.Kind()) <= MaxOrder(rs) {}
    if MaxOrder(rs) != 0 {
      var r :| r in rs && Order(r.Kind()) == MaxOrder(rs);
      assert Has(rs, r.Kind());
    }
  }

  /** The status recomputed from the events is the one their kinds call for, and no other is called for. */
  lemma StatusByKinds(rs: seq<Record>, s: DiscoveryStatus)
    ensures s == StatusAt(MaxOrder(rs)) <==> CalledFor(rs, s)
  {
    OrderByKinds(rs);
  }

  lemma {:induction false} MaxConfidenceIsLeastBound(rs: seq<Record>)
    ensures forall r :: r in rs ==> Claim(r.fact.body) <= MaxConfidence(rs)
    ensures MaxConfidence(rs) == 0.0 || exists r :: r in rs && Claim(r.fact.body) == MaxConfidence(rs)
  {
    if rs == [] {
    } else {
      var n := |rs| - 1;
      MaxConfidenceIsLeastBound(rs[..n]);
      assert rs == rs[..n] + [rs[n]];
      if MaxConfidence(rs) != 0.0 && MaxConfidence(rs) == MaxConfidence(rs[..n]) {
        var r :| r in rs[..n] && Claim(r.fact.body) == MaxConfidence(rs[..n]);
        assert r in rs;
      } else {
        assert rs[n] in rs;
      }
    }
  }

  /** The event is a VALIDATE or a SNAPSHOT whose payload gives a number, or a truth value, that comes to `c` cut to [0, 1]. */
  predicate Reports(b: Body, c: real) {
    && (b.kind == Validate || b.kind == Snapshot) && "confidence" in b.payload
    && match b.payload["confidence"]
       case Num(x) => CutTo(x, c)
       case Bool(t) => c == if t then 1.0 else 0.0
       case _ => false
  }

  /** The greatest reported confidence, and zero when nothing is reported. */
  ghost predicate Reported(rs: seq<Record>, c: real) {
    && c >= 0.0 && (forall r, x :: r in rs && Reports(r.fact.body, x) ==> x <= c)
    && (c == 0.0 || exists r :: r in rs && Reports(r.fact.body, c))
  }

  lemma ClaimIsReport(b: Body, c: real)
    ensures Reports(b, c) ==> c == Claim(b)
    ensures Claim(b) == 0.0 || Reports(b, Claim(b))
  {
  }

  /** The confidence recomputed from the events is the greatest one they report, and no other value is. */
  lemma ConfidenceByEvents(rs: seq<Record>, c: real)
    ensures c == MaxConfidence(rs) <==> Reported(rs, c)
  {
    MaxConfidenceIsLeastBound(rs);
    forall r, x | r in rs && Reports(r.fact.body, x) ensures x == Claim(r.fact.body) <= MaxConfidence(rs) { ClaimIsReport(r.fact.body, x); }
    if MaxConfidence(rs) != 0.0 {
      var r :| r in rs && Claim(r.fact.body) == MaxConfidence(rs);
      ClaimIsReport(r.fact.body, 0.0);
    }
  }

  /** Python's `float` of the payload's confidence: zero when there is none, the number, one or zero for a truth value. */
  lemma RawConfidenceIff(p: Payload, x: real)
    ensures RawConfidence(p) == Some(x) <==>
            if "confidence" in p then p["confidence"] == Num(x) || (p["confidence"].Bool? && x == if p["confidence"].b then 1.0 else 0.0)
            else x == 0.0
  {
  }

  /** Only a VALIDATE or SNAPSHOT whose confidence is neither a number nor a truth value cannot be read. */
  lemma ReadableIff(b: Body)
    ensures Readable(b) <==>
            ((b.kind == Validate || b.kind == Snapshot) && "confidence" in b.payload ==>
               b.payload["confidence"].Num? || b.payload["confidence"].Bool?)
  {
  }

  /** Appending never lowers the status or the confidence. */
  lemma {:induction false} NeverDecreases(H: Hasher, base: seq<Record>, fs: seq<Fact>)
    ensures MaxOrder(base) <= MaxOrder(AppendAll(H, base, fs))
    ensures MaxConfidence(base) <= MaxConfidence(AppendAll(H, base, fs))
  {
    if fs == [] {
    } else {
      var n := |fs| - 1;
      NeverDecreases(H, base, fs[..n]);
      var prior := AppendAll(H, base, fs[..n]);
      assert AppendAll(H, base, fs)[..|prior|] == prior;
    }
  }

  // ----- the value the two cached properties return -----

  /** `status`: the cache, or a recomputation when the cache is at its default. */
  function StatusRead(rs: seq<Record>, cachedOrder: nat): DiscoveryStatus {
    if rs != [] && cachedOrder == 0 then StatusAt(MaxOrder(rs)) else StatusAt(cachedOrder)
  }

  /** `confidence`; None where the recomputation raises on an unreadable value. */
  function ConfidenceRead(rs: seq<Record>, cached: real): Option<real> {
    if rs != [] && cached == 0.0 then (if AllReadable(rs) then Some(MaxConfidence(rs)) else None) else Some(cached)
  }

  /** A cache that lags behind the events misreports the status exactly when it is neither at its
      default nor (up to the two lowest orders, which read alike) the maximum. */
  lemma StatusReadExact(rs: seq<Record>, cachedOrder: nat)
    requires cachedOrder <= 5
    ensures StatusRead(rs, cachedOrder) == StatusAt(MaxOrder(rs)) <==>
              (cachedOrder == 0 || cachedOrder == MaxOrder(rs) || (cachedOrder == 1 && MaxOrder(rs) == 0))
  {
    if rs == [] { assert MaxOrder(rs) == 0; }
  }

  lemma {:induction false} StateOfConcat(a: seq<Record>, b: seq<Record>)
    ensures MaxOrder(a + b) == Max(MaxOrder(a), MaxOrder(b))
    ensures MaxConfidence(a + b) == MaxReal(MaxConfidence(a), MaxConfidence(b))
  {
    if b == [] {
      assert a + b == a;
    } else {
      ConcatSnoc(a, b);
      StateOfConcat(a, b[..|b| - 1]);
    }
  }

  /** `archive` resets the caches and nothing rebuilds them, so afterwards the cache knows only what was appended since:
      the status is still Archived exactly when nothing lifecycle-related was appended or the chain was archived again. */
  lemma StatusAfterArchiveIff(kept: seq<Record>, added: seq<Record>)
    requires MaxOrder(kept) == 5
    ensures StatusRead(kept + added, MaxOrder(added)) == Archived <==> MaxOrder(added) == 0 || MaxOrder(added) == 5
  {
    StateOfConcat(kept, added);
  }
}
