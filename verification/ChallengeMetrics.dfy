/** Response rates over the challenges of a manager (adl_lite/challenge.py: `response_metrics`). */
module ChallengeMetrics {
  import opened Basics
  import opened Events
  import opened ChallengeRules
  import opened ChallengeManagers

  datatype Counts = Counts(open: nat, revealed: nat, answered: nat, timedOut: nat, void: nat)

  datatype Bucket = Bucket(total: nat, counts: Counts, rate: Option<real>)

  const NOTHING := Counts(0, 0, 0, 0, 0)

  function OneMore(c: Counts, p: Phase): Counts {
    match p
    case Open => c.(open := c.open + 1)
    case Revealed => c.(revealed := c.revealed + 1)
    case Answered => c.(answered := c.answered + 1)
    case TimedOut => c.(timedOut := c.timedOut + 1)
    case Void => c.(void := c.void + 1)
  }

  function Plus(a: Counts, b: Counts): Counts {
    Counts(a.open + b.open, a.revealed + b.revealed, a.answered + b.answered, a.timedOut + b.timedOut, a.void + b.void)
  }

  function Of(c: Counts, p: Phase): nat {
    match p
    case Open => c.open case Revealed => c.revealed case Answered => c.answered case TimedOut => c.timedOut case Void => c.void
  }

  /** The share of answered among decided challenges; void ones are the challenger's fault and do not count. */
  function Rate(c: Counts): (r: Option<real>)
    ensures r.None? <==> c.answered == 0 && c.timedOut == 0
    ensures r.Some? ==> 0.0 <= r.value <= 1.0 && r.value * (c.answered + c.timedOut) as real == c.answered as real
  {
    var decided := c.answered + c.timedOut;
    if decided == 0 then None else Share(c.answered, decided)
  }

  function Share(part: nat, whole: nat): (r: Option<real>)
    requires part <= whole && whole > 0
    ensures r.Some? && 0.0 <= r.value <= 1.0 && r.value * whole as real == part as real
  {
    Some(part as real / whole as real)
  }

  predicate Eligible(c: Case, executor: Option<string>) {
    executor.None? || (if c.target != None then c.target == Some(Str(executor.value)) else c.answerActor == executor)
  }

  function InPhase(cases: map<string, Case>, ids: set<string>, now: Instant, p: Phase): set<string>
    requires ids <= cases.Keys
  {
    set id | id in ids && Verdict(cases[id], now) == p
  }

  /** Each phase's count is the number of the challenges with that verdict. */
  ghost predicate CountsOf(cases: map<string, Case>, ids: set<string>, now: Instant, c: Counts)
    requires ids <= cases.Keys
  {
    forall p :: Of(c, p) == |InPhase(cases, ids, now, p)|
  }

  /** A bucket for `ids`: its size, a count for each verdict, the rate. */
  ghost predicate Sums(cases: map<string, Case>, ids: set<string>, now: Instant, b: Bucket)
    requires ids <= cases.Keys
  {
    b.total == |ids| && CountsOf(cases, ids, now, b.counts) && b.rate == Rate(b.counts)
  }

  lemma CountOneMore(cases: map<string, Case>, ids: set<string>, now: Instant, c: Counts, id: string)
    requires ids <= cases.Keys && id in cases && id !in ids && CountsOf(cases, ids, now, c)
    ensures CountsOf(cases, ids + {id}, now, OneMore(c, Verdict(cases[id], now)))
  {
    forall p ensures Of(OneMore(c, Verdict(cases[id], now)), p) == |InPhase(cases, ids + {id}, now, p)| {
      if p == Verdict(cases[id], now) {
        assert InPhase(cases, ids + {id}, now, p) == InPhase(cases, ids, now, p) + {id};
      } else {
        assert InPhase(cases, ids + {id}, now, p) == InPhase(cases, ids, now, p);
      }
    }
  }

  function Size(c: Counts): nat { c.open + c.revealed + c.answered + c.timedOut + c.void }

  /** Every challenge has exactly one verdict, so the counts add up to the total. */
  lemma CountsAddUp(cases: map<string, Case>, ids: set<string>, now: Instant, c: Counts)
    requires ids <= cases.Keys && CountsOf(cases, ids, now, c)
    ensures Size(c) == |ids|
  {
    SameCounts(cases, ids, now, c, Tally(cases, ids, now));
    TallyAddsUp(cases, ids, now);
  }

  lemma {:induction false} TallyAddsUp(cases: map<string, Case>, ids: set<string>, now: Instant)
    requires ids <= cases.Keys
    ensures Size(Tally(cases, ids, now)) == |ids|
    decreases |ids|
  {
    if ids == {} {
      TallyOfNobody(cases, now);
    } else {
      var id :| id in ids;
      TallyAddsUp(cases, ids - {id}, now);
      TallyOneMore(cases, ids - {id}, now, id);
      assert ids - {id} + {id} == ids;
    }
  }

  lemma TallyOfNobody(cases: map<string, Case>, now: Instant)
    ensures Tally(cases, {}, now) == NOTHING
  {
    NobodyCounted(cases, now);
    SameCounts(cases, {}, now, Tally(cases, {}, now), NOTHING);
  }

  lemma TallyOneMore(cases: map<string, Case>, ids: set<string>, now: Instant, id: string)
    requires ids <= cases.Keys && id in cases && id !in ids
    ensures Size(Tally(cases, ids + {id}, now)) == Size(Tally(cases, ids, now)) + 1
  {
    var c := Tally(cases, ids, now);
    CountOneMore(cases, ids, now, c, id);
    SameCounts(cases, ids + {id}, now, Tally(cases, ids + {id}, now), OneMore(c, Verdict(cases[id], now)));
    SizeOneMore(c, Verdict(cases[id], now));
  }

  lemma SizeOneMore(c: Counts, p: Phase)
    ensures Size(OneMore(c, p)) == Size(c) + 1
  {
  }

  lemma NobodyCounted(cases: map<string, Case>, now: Instant)
    ensures CountsOf(cases, {}, now, NOTHING)
  {
    assert forall p :: InPhase(cases, {}, now, p) == {};
  }

  function Tally(cases: map<string, Case>, ids: set<string>, now: Instant): (c: Counts)
    requires ids <= cases.Keys
    ensures CountsOf(cases, ids, now, c)
  {
    Counts(|InPhase(cases, ids, now, Open)|, |InPhase(cases, ids, now, Revealed)|, |InPhase(cases, ids, now, Answered)|,
           |InPhase(cases, ids, now, TimedOut)|, |InPhase(cases, ids, now, Void)|)
  }

  lemma SameCounts(cases: map<string, Case>, ids: set<string>, now: Instant, c: Counts, d: Counts)
    requires ids <= cases.Keys && CountsOf(cases, ids, now, c) && CountsOf(cases, ids, now, d)
    ensures c == d
  {
    assert Of(c, Open) == Of(d, Open) && Of(c, Revealed) == Of(d, Revealed) && Of(c, Answered) == Of(d, Answered);
    assert Of(c, TimedOut) == Of(d, TimedOut) && Of(c, Void) == Of(d, Void);
  }

  // ----- per capability -----

  function EligibleIds(cases: map<string, Case>, executor: Option<string>): (ids: set<string>)
    ensures ids <= cases.Keys
  {
    set id | id in cases && Eligible(cases[id], executor)
  }

  function ConceptsOf(cases: map<string, Case>, ids: set<string>): set<string>
    requires ids <= cases.Keys
  {
    set id | id in ids :: cases[id].concept
  }

  function Group(cases: map<string, Case>, ids: set<string>, concept: string): (g: set<string>)
    requires ids <= cases.Keys
    ensures g <= ids
  {
    set id | id in ids && cases[id].concept == concept
  }

  function Among(cases: map<string, Case>, ids: set<string>, concepts: set<string>): (g: set<string>)
    requires ids <= cases.Keys
    ensures g <= ids
  {
    set id | id in ids && cases[id].concept in concepts
  }

  /** One bucket for each capability that has an eligible challenge, over its own challenges. */
  ghost predicate Grouped(cases: map<string, Case>, ids: set<string>, now: Instant, groups: map<string, Bucket>)
    requires ids <= cases.Keys
  {
    groups.Keys == ConceptsOf(cases, ids) && forall k :: k in groups ==> Sums(cases, Group(cases, ids, k), now, groups[k])
  }

  /** Adding the counts of some buckets. */
  ghost function Total(groups: map<string, Bucket>, keys: set<string>): Counts
    requires keys <= groups.Keys
    decreases |keys|
  {
    if keys == {} then NOTHING else
      var k :| k in keys;
      Plus(groups[k].counts, Total(groups, keys - {k}))
  }

  lemma TotalStep(groups: map<string, Bucket>, keys: set<string>) returns (k: string)
    requires keys != {} && keys <= groups.Keys
    ensures k in keys && Total(groups, keys) == Plus(groups[k].counts, Total(groups, keys - {k}))
  {
    k :| k in keys && Total(groups, keys) == Plus(groups[k].counts, Total(groups, keys - {k}));
  }

  lemma CountsOfParts(cases: map<string, Case>, x: set<string>, y: set<string>, now: Instant, c: Counts, d: Counts)
    requires x <= cases.Keys && y <= cases.Keys && x !! y
    requires CountsOf(cases, x, now, c) && CountsOf(cases, y, now, d)
    ensures CountsOf(cases, x + y, now, Plus(c, d))
  {
    forall p ensures Of(Plus(c, d), p) == |InPhase(cases, x + y, now, p)| {
      assert InPhase(cases, x + y, now, p) == InPhase(cases, x, now, p) + InPhase(cases, y, now, p);
      assert Of(c, p) == |InPhase(cases, x, now, p)| && Of(d, p) == |InPhase(cases, y, now, p)|;
    }
  }

  lemma {:induction false} TotalCounts(cases: map<string, Case>, ids: set<string>, now: Instant, groups: map<string, Bucket>, keys: set<string>)
    requires ids <= cases.Keys && Grouped(cases, ids, now, groups) && keys <= groups.Keys
    ensures CountsOf(cases, Among(cases, ids, keys), now, Total(groups, keys))
    decreases |keys|
  {
    if keys == {} {
      assert Among(cases, ids, keys) == {};
      NobodyCounted(cases, now);
    } else {
      var k := TotalStep(groups, keys);
      TotalCounts(cases, ids, now, groups, keys - {k});
      assert Sums(cases, Group(cases, ids, k), now, groups[k]);
      CountsOfParts(cases, Group(cases, ids, k), Among(cases, ids, keys - {k}), now, groups[k].counts, Total(groups, keys - {k}));
      assert Among(cases, ids, keys) == Group(cases, ids, k) + Among(cases, ids, keys - {k});
    }
  }

  /** Summed over the capabilities, the counts are the overall counts: no challenge is lost or counted twice. */
  lemma CapabilitiesAddUp(cases: map<string, Case>, ids: set<string>, now: Instant, overall: Bucket, groups: map<string, Bucket>)
    requires ids <= cases.Keys && Sums(cases, ids, now, overall) && Grouped(cases, ids, now, groups)
    ensures Total(groups, groups.Keys) == overall.counts
  {
    TotalCounts(cases, ids, now, groups, groups.Keys);
    assert Among(cases, ids, groups.Keys) == ids;
    SameCounts(cases, ids, now, Total(groups, groups.Keys), overall.counts);
  }

  // ----- computing them -----

  method BucketOf(cases: map<string, Case>, ids: set<string>, now: Instant) returns (b: Bucket)
    requires ids <= cases.Keys
    ensures Sums(cases, ids, now, b)
  {
    var counts, pending, n := NOTHING, ids, 0;
    ghost var done := {};
    NobodyCounted(cases, now);
    while pending != {}
      invariant done + pending == ids && done !! pending && n == |done|
      invariant CountsOf(cases, done, now, counts)
      decreases |pending|
    {
      var id :| id in pending;
      CountOneMore(cases, done, now, counts, id);
      counts, n := OneMore(counts, Verdict(cases[id], now)), n + 1;
      pending, done := pending - {id}, done + {id};
    }
    assert done == ids;
    b := Bucket(n, counts, Rate(counts));
  }

  /** Overall and per capability, for one executor or for all; the counts of the capabilities add up to the overall ones. */
  method ResponseMetrics(manager: ChallengeManager, executor: Option<string>, asOf: Option<Instant>, wallClock: Instant)
    returns (overall: Bucket, byCapability: map<string, Bucket>)
    requires manager.Valid()
    ensures var cases, now := manager.View().cases, Either(asOf, Either(manager.maxSeen, wallClock));
      var ids := EligibleIds(cases, executor);
      && Sums(cases, ids, now, overall)
      && Grouped(cases, ids, now, byCapability)
      && Total(byCapability, byCapability.Keys) == overall.counts
  {
    var cases, now := manager.View().cases, Either(asOf, Either(manager.maxSeen, wallClock));
    var ids := EligibleIds(cases, executor);
    overall := BucketOf(cases, ids, now);
    byCapability := ByCapability(cases, ids, now);
    CapabilitiesAddUp(cases, ids, now, overall, byCapability);
  }

  method ByCapability(cases: map<string, Case>, ids: set<string>, now: Instant) returns (groups: map<string, Bucket>)
    requires ids <= cases.Keys
    ensures Grouped(cases, ids, now, groups)
  {
    groups := map[];
    var pending := ConceptsOf(cases, ids);
    while pending != {}
      invariant groups.Keys + pending == ConceptsOf(cases, ids) && groups.Keys !! pending
      invariant forall k :: k in groups ==> Sums(cases, Group(cases, ids, k), now, groups[k])
      decreases |pending|
    {
      var k :| k in pending;
      var b := BucketOf(cases, Group(cases, ids, k), now);
      groups := groups[k := b];
      pending := pending - {k};
    }
  }
}
