/** What `verify_integrity` computes (adl_lite/models.py: `_verify_prefix`), as a state machine over
    the list and the recorded ids, and how its verdict relates to the stateless check. */
module Integrity {
  import opened Basics
  import opened Events

  // ----- one event -----

  ghost predicate FreshId(rs: seq<Record>, i: nat)
    requires i < |rs|
  {
    forall j :: 0 <= j < i ==> rs[j].Id() != rs[i].Id()
  }

  /** Axioms 1 and 3 at position `i`. */
  ghost predicate LinkOk(rs: seq<Record>, i: nat)
    requires i < |rs|
  {
    if i == 0 then rs[0].prevId.None? || HasArchive(rs)
    else if LinkedTo(rs[i], rs[i - 1]) then rs[i].prevHash == rs[i - 1].hash
    else i == 1 && HasArchive(rs)
  }

  /** Axioms 1 to 5: checked before the id of the event is recorded. */
  ghost predicate HeadOk(H: Hasher, concept: string, rs: seq<Record>, i: nat)
    requires i < |rs|
  {
    && LinkOk(rs, i)
    && rs[i].fact.body.concept == concept
    && rs[i].hash == ComputeHash(H, rs[i])
    && FreshId(rs, i)
  }

  /** Axioms 6 to 15: checked after the id is recorded. */
  ghost predicate TailOk(rs: seq<Record>, i: nat)
    requires i < |rs|
  {
    && BodyOk(rs[i].fact.body)
    && (i > 0 ==> rs[i - 1].Ts() <= rs[i].Ts())
    && rs[i].hash != "" && |rs[i].hash| == 64
    && (i > 0 ==> Named(rs[i].prevId))
  }

  lemma StepwiseFromAxioms(H: Hasher, concept: string, rs: seq<Record>, i: nat)
    requires WellFormed(H, concept, rs) && i < |rs|
    ensures HeadOk(H, concept, rs, i) && TailOk(rs, i)
  {
    assert rs[i].hash == "" || |rs[i].hash| == 64;
    assert LinkOk(rs, i);
    assert FreshId(rs, i);
  }

  lemma LinkAxioms(rs: seq<Record>)
    requires forall i :: 0 <= i < |rs| ==> LinkOk(rs, i)
    ensures Axiom1(rs) && Axiom3(rs)
  {
    if rs != [] { assert LinkOk(rs, 0); }
    forall i | 1 <= i < |rs|
      ensures if LinkedTo(rs[i], rs[i - 1]) then rs[i].prevHash == rs[i - 1].hash else i == 1 && HasArchive(rs)
    {
      assert LinkOk(rs, i);
    }
  }

  lemma HeadAxioms(H: Hasher, concept: string, rs: seq<Record>)
    requires forall i :: 0 <= i < |rs| ==> HeadOk(H, concept, rs, i)
    ensures Axiom1(rs) && Axiom2(concept, rs) && Axiom3(rs) && Axiom4(H, rs) && Axiom5(rs)
  {
    forall i | 0 <= i < |rs|
      ensures LinkOk(rs, i) && rs[i].fact.body.concept == concept && rs[i].hash == ComputeHash(H, rs[i]) && FreshId(rs, i)
    {
      assert HeadOk(H, concept, rs, i);
    }
    LinkAxioms(rs);
    forall i, j | 0 <= i < j < |rs| ensures rs[i].Id() != rs[j].Id() { assert FreshId(rs, j); }
  }

  lemma TailAxioms(rs: seq<Record>)
    requires forall i :: 0 <= i < |rs| ==> TailOk(rs, i)
    ensures Axiom7(rs) && Axiom10(rs) && Axiom11(rs) && BodyAxioms(rs)
  {
    forall i | 0 <= i < |rs|
      ensures BodyOk(rs[i].fact.body) && |rs[i].hash| == 64 && rs[i].hash != "" && (i > 0 ==> Named(rs[i].prevId))
      ensures i > 0 ==> rs[i - 1].Ts() <= rs[i].Ts()
    {
      assert TailOk(rs, i);
    }
  }

  /** Definition 5 holds of the list exactly when every position passes. */
  lemma WellFormedStepwise(H: Hasher, concept: string, rs: seq<Record>)
    ensures WellFormed(H, concept, rs) <==> ChecksOf(H, concept, rs).All(0, |rs|)
  {
    var c := ChecksOf(H, concept, rs);
    if WellFormed(H, concept, rs) {
      forall i | 0 <= i < |rs| ensures c.head(i) && c.tail(i) { StepwiseFromAxioms(H, concept, rs, i); }
    }
    if c.All(0, |rs|) {
      forall i | 0 <= i < |rs| ensures HeadOk(H, concept, rs, i) && TailOk(rs, i) { assert c.head(i) && c.tail(i); }
      HeadAxioms(H, concept, rs);
      TailAxioms(rs);
    }
  }

  // ----- the scan -----

  /** The two groups of checks at each position of some list. */
  datatype Checks = Checks(head: int -> bool, tail: int -> bool) {
    ghost predicate All(lo: int, hi: int) { forall k :: lo <= k < hi ==> head(k) && tail(k) }
  }

  ghost function ChecksOf(H: Hasher, concept: string, rs: seq<Record>): Checks {
    Checks(i => 0 <= i < |rs| && HeadOk(H, concept, rs, i), i => 0 <= i < |rs| && TailOk(rs, i))
  }

  /** Verdict of the scan from `i`, and how many ids are recorded afterwards. */
  ghost function Scan(c: Checks, n: nat, i: nat): (r: (bool, nat))
    requires i <= n
    ensures i <= r.1 <= n
    ensures r.0 ==> r.1 == n
    decreases n - i
  {
    if i == n then (true, i)
    else if !c.head(i) then (false, i)
    else if !c.tail(i) then (false, i + 1)
    else Scan(c, n, i + 1)
  }

  lemma ScanStep(c: Checks, n: nat, i: nat)
    requires i < n
    ensures c.head(i) && c.tail(i) ==> Scan(c, n, i) == Scan(c, n, i + 1)
    ensures !(c.head(i) && c.tail(i)) ==> Scan(c, n, i) == (false, if c.head(i) then i + 1 else i)
  {
  }

  /** Events are trusted only while the recorded ids are a proper prefix of the present ids. */
  ghost function Start(rs: seq<Record>, ids: seq<string>): (s: nat)
    ensures s <= |rs|
  {
    if |ids| < |rs| && ids == Ids(rs)[..|ids|] then |ids| else 0
  }

  ghost function Verify(H: Hasher, concept: string, rs: seq<Record>, ids: seq<string>): (bool, seq<string>) {
    VerifyFrom(ChecksOf(H, concept, rs), rs, Start(rs, ids))
  }

  ghost function VerifyFrom(c: Checks, rs: seq<Record>, start: nat): (bool, seq<string>)
    requires start <= |rs|
  {
    var r := Scan(c, |rs|, start);
    (r.0, Ids(rs)[..r.1])
  }

  lemma VerifyIsScan(H: Hasher, concept: string, rs: seq<Record>, ids: seq<string>)
    ensures Verify(H, concept, rs, ids) == VerifyFrom(ChecksOf(H, concept, rs), rs, Start(rs, ids))
  {
  }

  lemma FreshIsUnseen(rs: seq<Record>, i: nat)
    requires i < |rs|
    ensures FreshId(rs, i) <==> rs[i].Id() !in Ids(rs)[..i]
  {
    if rs[i].Id() in Ids(rs)[..i] {
      var j :| 0 <= j < i && Ids(rs)[..i][j] == rs[i].Id();
      assert rs[j].Id() == rs[i].Id();
    } else {
      forall j | 0 <= j < i ensures rs[j].Id() != rs[i].Id() { assert Ids(rs)[..i][j] == rs[j].Id(); }
    }
  }

  /** The scan stops right at the first bad event: at it when a head check fails, behind it when a
      tail check fails. */
  lemma {:induction false} ScanMeaning(c: Checks, n: nat, i: nat)
    requires i <= n
    ensures var r := Scan(c, n, i);
      && (r.0 <==> c.All(i, n))
      && (forall k :: i <= k < r.1 ==> c.head(k))
      && (forall k :: i <= k < r.1 - 1 ==> c.tail(k))
      && (!r.0 ==> (r.1 < n && !c.head(r.1) && c.All(i, r.1)) || (i < r.1 && !c.tail(r.1 - 1)))
    decreases n - i
  {
    if i < n && c.head(i) && c.tail(i) {
      ScanMeaning(c, n, i + 1);
    }
  }

  /** When nothing was appended since the last scan, or a recorded id changed, everything is rechecked:
      the verdict is the stateless one, whatever was done to the events in between. */
  lemma RecheckIsStateless(H: Hasher, concept: string, rs: seq<Record>, ids: seq<string>)
    requires |ids| >= |rs| || ids != Ids(rs)[..|ids|]
    ensures Verify(H, concept, rs, ids).0 <==> WellFormed(H, concept, rs)
  {
    ScanMeaning(ChecksOf(H, concept, rs), |rs|, 0);
    WellFormedStepwise(H, concept, rs);
  }

  // ----- growth -----

  lemma HeadOkGrows(H: Hasher, concept: string, rs: seq<Record>, r: Record, i: nat)
    requires i < |rs| && HeadOk(H, concept, rs, i)
    ensures HeadOk(H, concept, rs + [r], i)
  {
    var grown := rs + [r];
    assert grown[i] == rs[i] && (i > 0 ==> grown[i - 1] == rs[i - 1]);
    if HasArchive(rs) {
      var k :| 0 <= k < |rs| && rs[k].Kind() == Archive;
      assert grown[k].Kind() == Archive;
    }
    forall j | 0 <= j < i ensures grown[j].Id() != grown[i].Id() { assert grown[j] == rs[j]; }
  }

  lemma TailOkStays(rs: seq<Record>, r: Record, i: nat)
    requires i < |rs|
    ensures TailOk(rs + [r], i) <==> TailOk(rs, i)
  {
    assert (rs + [r])[i] == rs[i] && (i > 0 ==> (rs + [r])[i - 1] == rs[i - 1]);
  }

  // ----- runs -----

  /** What a client does with a chain: append, verify, or replace the list (which resets the recorded ids). */
  datatype Op = AppendOp(f: Fact) | VerifyOp | ReplaceOp(rs: seq<Record>)

  /** `softFailure`: since the list was last replaced, some verdict was False because of axioms 6 to 15. */
  datatype Machine = Machine(rs: seq<Record>, ids: seq<string>, softFailure: bool)

  /** The next verdict is False and its last recorded event is one that fails axioms 6 to 15. */
  ghost predicate SoftFailure(H: Hasher, concept: string, m: Machine) {
    var v := Verify(H, concept, m.rs, m.ids);
    !v.0 && v.1 != [] && !ChecksOf(H, concept, m.rs).tail(|v.1| - 1)
  }

  ghost function Exec(H: Hasher, concept: string, m: Machine, op: Op): Machine {
    match op
    case AppendOp(f) => m.(rs := m.rs + [Link(H, m.rs, f)])
    case VerifyOp => m.(ids := Verify(H, concept, m.rs, m.ids).1, softFailure := m.softFailure || SoftFailure(H, concept, m))
    case ReplaceOp(rs) => Machine(rs, [], false)
  }

  ghost function Run(H: Hasher, concept: string, ops: seq<Op>): Machine {
    if ops == [] then Machine([], [], false)
    else Exec(H, concept, Run(H, concept, ops[..|ops| - 1]), ops[|ops| - 1])
  }

  /** Of the first `k` positions all pass the head checks, and a tail check fails there exactly when
      a soft failure was seen. */
  ghost predicate Trusted(c: Checks, k: nat, softFailure: bool) {
    && (forall i :: 0 <= i < k ==> c.head(i))
    && (softFailure <==> exists i :: 0 <= i < k && !c.tail(i))
  }

  ghost predicate MachineInv(H: Hasher, concept: string, m: Machine) {
    && |m.ids| <= |m.rs| && m.ids == Ids(m.rs)[..|m.ids|]
    && Trusted(ChecksOf(H, concept, m.rs), |m.ids|, m.softFailure)
  }

  /** Growth keeps what was trusted: head checks stay true, tail checks do not change. */
  lemma TrustGrows(c: Checks, d: Checks, k: nat, softFailure: bool)
    requires Trusted(c, k, softFailure)
    requires forall i :: 0 <= i < k ==> (c.head(i) ==> d.head(i)) && (c.tail(i) <==> d.tail(i))
    ensures Trusted(d, k, softFailure)
  {
    forall i | 0 <= i < k ensures d.head(i) { assert c.head(i); }
    if softFailure {
      var i :| 0 <= i < k && !c.tail(i);
      assert !d.tail(i);
    }
  }

  lemma InvKeptByAppend(H: Hasher, concept: string, m: Machine, f: Fact)
    requires MachineInv(H, concept, m)
    ensures MachineInv(H, concept, Exec(H, concept, m, AppendOp(f)))
  {
    var r := Link(H, m.rs, f);
    var grown := m.rs + [r];
    assert Ids(grown)[..|m.ids|] == Ids(m.rs)[..|m.ids|];
    var c, d := ChecksOf(H, concept, m.rs), ChecksOf(H, concept, grown);
    forall i | 0 <= i < |m.ids| ensures (c.head(i) ==> d.head(i)) && (c.tail(i) <==> d.tail(i)) {
      if c.head(i) { HeadOkGrows(H, concept, m.rs, r, i); }
      TailOkStays(m.rs, r, i);
    }
    TrustGrows(c, d, |m.ids|, m.softFailure);
  }

  /** One scan over a list of `n` events, `k` of them recorded. */
  lemma TrustAfterScan(c: Checks, n: nat, k: nat, softFailure: bool)
    requires k <= n && Trusted(c, k, softFailure)
    ensures var r := Scan(c, n, if k < n then k else 0);
      Trusted(c, r.1, softFailure || (!r.0 && r.1 > 0 && !c.tail(r.1 - 1)))
  {
    var s := if k < n then k else 0;
    var r := Scan(c, n, s);
    ScanMeaning(c, n, s);
    forall i | 0 <= i < r.1 ensures c.head(i) {}
    if softFailure {
      var i :| 0 <= i < k && !c.tail(i);
      if i >= r.1 {
        assert s == 0 && c.head(r.1);
        assert !c.tail(r.1 - 1);
      }
    } else if exists i :: 0 <= i < r.1 && !c.tail(i) {
      var i :| 0 <= i < r.1 && !c.tail(i);
      assert i == r.1 - 1;
    }
  }

  lemma InvKeptByVerify(H: Hasher, concept: string, m: Machine)
    requires MachineInv(H, concept, m)
    ensures MachineInv(H, concept, Exec(H, concept, m, VerifyOp))
  {
    var c := ChecksOf(H, concept, m.rs);
    var r := Scan(c, |m.rs|, Start(m.rs, m.ids));
    var soft := m.softFailure || (!r.0 && r.1 > 0 && !c.tail(r.1 - 1));
    TrustAfterScan(c, |m.rs|, |m.ids|, m.softFailure);
    InvFromParts(H, concept, m.rs, r.1, soft);
    RecordedByScan(H, concept, m, r, soft);
  }

  lemma InvFromParts(H: Hasher, concept: string, rs: seq<Record>, n: nat, soft: bool)
    requires n <= |rs| && Trusted(ChecksOf(H, concept, rs), n, soft)
    ensures MachineInv(H, concept, Machine(rs, Ids(rs)[..n], soft))
  {
  }

  lemma RecordedByScan(H: Hasher, concept: string, m: Machine, r: (bool, nat), soft: bool)
    requires var c := ChecksOf(H, concept, m.rs);
      r == Scan(c, |m.rs|, Start(m.rs, m.ids)) && soft == (m.softFailure || (!r.0 && r.1 > 0 && !c.tail(r.1 - 1)))
    ensures Exec(H, concept, m, VerifyOp) == Machine(m.rs, Ids(m.rs)[..r.1], soft)
    ensures |Ids(m.rs)[..r.1]| == r.1 <= |m.rs|
  {
  }

  lemma {:induction false} InvHolds(H: Hasher, concept: string, ops: seq<Op>)
    ensures MachineInv(H, concept, Run(H, concept, ops))
  {
    if ops == [] {
    } else {
      var n := |ops| - 1;
      InvHolds(H, concept, ops[..n]);
      match ops[n]
      case AppendOp(f) => InvKeptByAppend(H, concept, Run(H, concept, ops[..n]), f);
      case VerifyOp => InvKeptByVerify(H, concept, Run(H, concept, ops[..n]));
      case ReplaceOp(rs) =>
    }
  }

  /** The list has outgrown the recorded ids, a recorded event fails axioms 6 to 15, and every later event passes. */
  ghost predicate SkipsFailure(H: Hasher, concept: string, rs: seq<Record>, ids: seq<string>) {
    && |ids| < |rs| && (exists i :: 0 <= i < |ids| && !TailOk(rs, i))
    && forall i :: |ids| <= i < |rs| ==> HeadOk(H, concept, rs, i) && TailOk(rs, i)
  }

  lemma VerdictFromTrust(c: Checks, n: nat, k: nat, softFailure: bool)
    requires k <= n && Trusted(c, k, softFailure)
    ensures var ok := Scan(c, n, if k < n then k else 0).0;
      (ok <==> c.All(0, n)) <==> !(k < n && softFailure && c.All(k, n))
  {
    var s := if k < n then k else 0;
    ScanMeaning(c, n, s);
    if softFailure {
      var i :| 0 <= i < k && !c.tail(i);
      assert !c.All(0, n);
    } else {
      forall i | 0 <= i < k ensures c.head(i) && c.tail(i) {}
    }
  }

  lemma SkipsFromTrust(H: Hasher, concept: string, rs: seq<Record>, ids: seq<string>, softFailure: bool)
    requires |ids| <= |rs| && Trusted(ChecksOf(H, concept, rs), |ids|, softFailure)
    ensures SkipsFailure(H, concept, rs, ids) <==> |ids| < |rs| && softFailure && ChecksOf(H, concept, rs).All(|ids|, |rs|)
  {
    var c := ChecksOf(H, concept, rs);
    forall i | 0 <= i < |rs| ensures (c.head(i) <==> HeadOk(H, concept, rs, i)) && (c.tail(i) <==> TailOk(rs, i)) {}
  }

  /** In every run the incremental verdict equals the stateless one, except exactly when the list has grown since the last
      verification, one of the events recorded by then fails axioms 6 to 15, and every event since passes; the verdict is
      then True and wrong. */
  lemma IncrementalVerdict(H: Hasher, concept: string, ops: seq<Op>)
    ensures var m := Run(H, concept, ops);
      (Verify(H, concept, m.rs, m.ids).0 <==> WellFormed(H, concept, m.rs)) <==> !SkipsFailure(H, concept, m.rs, m.ids)
  {
    var m := Run(H, concept, ops);
    InvHolds(H, concept, ops);
    WellFormedStepwise(H, concept, m.rs);
    VerdictFromTrust(ChecksOf(H, concept, m.rs), |m.rs|, |m.ids|, m.softFailure);
    SkipsFromTrust(H, concept, m.rs, m.ids, m.softFailure);
  }

  // ----- the exception occurs -----

  /** A first event that breaks axioms 6 to 15, and a second that is fine. */
  predicate BadThenGood(concept: string, f: Fact, g: Fact) {
    && f.body.concept == concept && g.body.concept == concept
    && f.body.id != "" && g.body.id != f.body.id
    && !BodyOk(f.body) && BodyOk(g.body)
  }

  lemma BadThenGoodChecks(H: Hasher, concept: string, f: Fact, g: Fact)
    requires BadThenGood(concept, f, g)
    ensures var one := [Link(H, [], f)];
      HeadOk(H, concept, one, 0) && !TailOk(one, 0)
    ensures var two := [Link(H, [], f), Link(H, [Link(H, [], f)], g)];
      HeadOk(H, concept, two, 0) && !TailOk(two, 0) && HeadOk(H, concept, two, 1) && TailOk(two, 1)
  {
  }

  /** The verifier rejects the first event, then accepts the chain once a good event is behind it although the bad one
      is still there, and rejects it again when nothing was appended in between. */
  lemma SkippedFailure(H: Hasher, concept: string, f: Fact, g: Fact)
    requires BadThenGood(concept, f, g)
    ensures !Verify(H, concept, Run(H, concept, [AppendOp(f)]).rs, Run(H, concept, [AppendOp(f)]).ids).0
    ensures var m := Run(H, concept, [AppendOp(f), VerifyOp, AppendOp(g)]);
      Verify(H, concept, m.rs, m.ids).0 && !WellFormed(H, concept, m.rs)
    ensures var m := Run(H, concept, [AppendOp(f), VerifyOp, AppendOp(g), VerifyOp]);
      !Verify(H, concept, m.rs, m.ids).0
  {
    BadThenGoodChecks(H, concept, f, g);
    var a, b := Link(H, [], f), Link(H, [Link(H, [], f)], g);
    var op1, op2, op3, op4 := AppendOp(f), VerifyOp, AppendOp(g), VerifyOp;
    assert [] + [a] == [a] && [a] + [b] == [a, b];
    assert Ids([a])[..1] == [a.Id()] && Ids([a, b])[..1] == [a.Id()] && Ids([a, b])[..2] == [a.Id(), b.Id()];
    RunOne(H, concept, op1);
    RejectedAtFirst(H, concept, [a], []);
    RunSnoc(H, concept, [op1], op2);
    assert [op1] + [op2] == [op1, op2];
    assert Run(H, concept, [op1, op2]).rs == [a] && Run(H, concept, [op1, op2]).ids == [a.Id()];
    RunSnoc(H, concept, [op1, op2], op3);
    assert [op1, op2] + [op3] == [op1, op2, op3];
    assert Run(H, concept, [op1, op2, op3]).rs == [a, b] && Run(H, concept, [op1, op2, op3]).ids == [a.Id()];
    SkippedAtSecond(H, concept, [a, b], [a.Id()]);
    RunSnoc(H, concept, [op1, op2, op3], op4);
    assert [op1, op2, op3] + [op4] == [op1, op2, op3, op4];
    RejectedAtFirst(H, concept, [a, b], [a.Id(), b.Id()]);
  }

  lemma RunOne(H: Hasher, concept: string, op: Op)
    ensures Run(H, concept, [op]) == Exec(H, concept, Machine([], [], false), op)
  {
    assert [op][..0] == [];
  }

  lemma RejectedAtFirst(H: Hasher, concept: string, rs: seq<Record>, ids: seq<string>)
    requires rs != [] && HeadOk(H, concept, rs, 0) && !TailOk(rs, 0)
    requires ids == [] || |ids| == |rs|
    ensures Verify(H, concept, rs, ids) == (false, Ids(rs)[..1])
  {
    var c := ChecksOf(H, concept, rs);
    assert c.head(0) && !c.tail(0);
    assert Scan(c, |rs|, 0) == (false, 1);
  }

  lemma SkippedAtSecond(H: Hasher, concept: string, rs: seq<Record>, ids: seq<string>)
    requires |rs| == 2 && HeadOk(H, concept, rs, 1) && TailOk(rs, 1) && !TailOk(rs, 0) && ids == [rs[0].Id()]
    ensures Verify(H, concept, rs, ids) == (true, Ids(rs)[..2]) && !WellFormed(H, concept, rs)
  {
    var c := ChecksOf(H, concept, rs);
    assert Ids(rs)[..1] == ids;
    assert c.head(1) && c.tail(1);
    assert Scan(c, 2, 2) == (true, 2);
    assert Scan(c, 2, 1) == (true, 2);
    WellFormedStepwise(H, concept, rs);
    assert !c.tail(0);
  }

  lemma RunSnoc(H: Hasher, concept: string, ops: seq<Op>, op: Op)
    ensures Run(H, concept, ops + [op]) == Exec(H, concept, Run(H, concept, ops), op)
  {
    assert (ops + [op])[..|ops|] == ops;
  }
}
