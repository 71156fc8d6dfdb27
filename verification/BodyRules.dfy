/** What an event must carry by itself, kind by kind (adl_lite/models.py: axioms 6, 9, 13, 14 and 15). */
module BodyRules {
  import opened Basics
  import opened Events

  /** The code points that Python takes for white space. */
  predicate SpaceCode(n: int) {
    9 <= n <= 13 || 28 <= n <= 32 || n in {133, 160, 5760, 8232, 8233, 8239, 8287, 12288} || 8192 <= n <= 8202
  }

  /** Some character is no white space. */
  ghost predicate Visible(s: string) { exists i :: 0 <= i < |s| && !SpaceCode(s[i] as int) }

  /** The field is there, and when it is a string it is not blank. */
  ghost predicate Given(p: Payload, key: string) { key in p && p[key] != Null && (p[key].Str? ==> Visible(p[key].s)) }

  /** The field is there and Python takes it for true. */
  predicate Set(p: Payload, key: string) {
    key in p && p[key] !in {Null, Bool(false), Num(0.0), Str(""), Arr([]), Obj(map[])}
  }

  predicate Is(p: Payload, key: string, value: Json) { key in p && p[key] == value }

  /** There is a proof object with a type and a value. */
  predicate Proved(b: Body) {
    match b.proof
    case Some(Obj(fields)) => Set(fields, "type") && Set(fields, "proofValue")
    case _ => false
  }

  /** The replay object, empty when there is none. */
  function Replay(p: Payload): Payload { if "replay" in p && p["replay"].Obj? then p["replay"].fields else map[] }

  /** What an attestation must say for each verdict. */
  predicate Consistent(p: Payload) {
    || Is(p, "verdict", Str("inconclusive"))
    || (Is(p, "verdict", Str("confirm"))
        && (Is(p, "method", Str("replay")) ==>
              Is(Replay(p), "match", Bool(true)) && Set(Replay(p), "input_commitment") && Set(Replay(p), "output_commitment")))
    || (Is(p, "verdict", Str("refute")) && (Set(p, "evidence_ref") || Is(Replay(p), "match", Bool(false))))
  }

  /** What a challenge event must carry in each phase. */
  ghost predicate InPhase(p: Payload) {
    || (Is(p, "phase", Str("open")) && Given(p, "seed_commitment") && Given(p, "reveal_deadline") && Given(p, "response_window_s"))
    || (Is(p, "phase", Str("reveal")) && Given(p, "seed"))
    || (Is(p, "phase", Str("answer")) && Given(p, "output_commitment"))
  }

  ghost predicate Carries(b: Body) {
    match b.kind
    case Announce => Set(b.payload, "action")
    case Publish => Set(b.payload, "action")
    case SyncDashboard => Set(b.payload, "action")
    case Listen => Set(b.payload, "action")
    case Execute =>
      Given(b.payload, "execution_id") && Given(b.payload, "input_commitment") && Given(b.payload, "output_commitment") && Proved(b)
    case Attest =>
      Given(b.payload, "subject_execution") && Given(b.payload, "method") && Proved(b) && Consistent(b.payload)
    case ExecAnchor => Given(b.payload, "log_merkle_root")
    case Challenge => Given(b.payload, "challenge_id") && Proved(b) && InPhase(b.payload)
    case _ => true
  }

  lemma BlankIff(s: string)
    ensures Blank(s) <==> !Visible(s)
  {
    forall c: char ensures IsSpace(c) <==> SpaceCode(c as int) {}
  }

  lemma FilledIff(p: Payload, key: string)
    ensures Filled(p, key) <==> Given(p, key)
  {
    if key in p && p[key].Str? { BlankIff(p[key].s); }
  }

  lemma TruthyIff(p: Payload, key: string)
    ensures Truthy(Get(p, key)) <==> Set(p, key)
  {
  }

  lemma OneFilled(p: Payload, a: string)
    ensures AllFilled(p, [a]) <==> Given(p, a)
  {
    FilledIff(p, a);
    assert [a][0] == a;
  }

  lemma TwoFilled(p: Payload, a: string, b: string)
    ensures AllFilled(p, [a, b]) <==> Given(p, a) && Given(p, b)
  {
    FilledIff(p, a);
    FilledIff(p, b);
    assert [a, b][0] == a && [a, b][1] == b;
  }

  lemma ThreeFilled(p: Payload, a: string, b: string, c: string)
    ensures AllFilled(p, [a, b, c]) <==> Given(p, a) && Given(p, b) && Given(p, c)
  {
    FilledIff(p, a);
    FilledIff(p, b);
    FilledIff(p, c);
    assert [a, b, c][0] == a && [a, b, c][1] == b && [a, b, c][2] == c;
  }

  lemma RequiredIff(b: Body)
    ensures AllFilled(b.payload, RequiredFields(b.kind)) <==>
            match b.kind
            case Execute => Given(b.payload, "execution_id") && Given(b.payload, "input_commitment") && Given(b.payload, "output_commitment")
            case Attest => Given(b.payload, "subject_execution") && Given(b.payload, "method") && Given(b.payload, "verdict")
            case ExecAnchor => Given(b.payload, "log_merkle_root")
            case Challenge => Given(b.payload, "challenge_id") && Given(b.payload, "phase")
            case _ => true
  {
    match b.kind
    case Execute => ThreeFilled(b.payload, "execution_id", "input_commitment", "output_commitment");
    case Attest => ThreeFilled(b.payload, "subject_execution", "method", "verdict");
    case ExecAnchor => OneFilled(b.payload, "log_merkle_root");
    case Challenge => TwoFilled(b.payload, "challenge_id", "phase");
    case _ =>
  }

  lemma PhaseIff(p: Payload)
    ensures ChallengeWellFormed(p) <==> InPhase(p)
  {
    ThreeFilled(p, "seed_commitment", "reveal_deadline", "response_window_s");
    OneFilled(p, "seed");
    OneFilled(p, "output_commitment");
  }

  lemma VerdictIff(p: Payload)
    ensures VerdictConsistent(p) <==> Consistent(p)
  {
    TruthyIff(p, "evidence_ref");
    if "replay" in p && p["replay"].Obj? {
      TruthyIff(p["replay"].fields, "input_commitment");
      TruthyIff(p["replay"].fields, "output_commitment");
    }
  }

  lemma ProofIff(b: Body)
    ensures ProofPresent(b.proof) <==> Proved(b)
  {
    if b.proof.Some? && b.proof.value.Obj? {
      TruthyIff(b.proof.value.fields, "type");
      TruthyIff(b.proof.value.fields, "proofValue");
    }
  }

  /** Verdicts and phases that count are not blank. */
  lemma SpokenIsGiven(p: Payload)
    ensures Consistent(p) ==> Given(p, "verdict")
    ensures InPhase(p) ==> Given(p, "phase")
  {
    var i, c, r, o, v, a := "inconclusive", "confirm", "refute", "open", "reveal", "answer";
    assert !SpaceCode(i[0] as int) && !SpaceCode(c[0] as int) && !SpaceCode(r[0] as int);
    assert !SpaceCode(o[0] as int) && !SpaceCode(v[0] as int) && !SpaceCode(a[0] as int);
  }

  /** The checks on a single event accept it exactly when its actor is not blank and it carries what its kind asks for. */
  lemma BodyOkIff(b: Body)
    ensures BodyOk(b) <==> Visible(b.actor) && Carries(b)
  {
    BlankIff(b.actor);
    RequiredIff(b);
    TruthyIff(b.payload, "action");
    ProofIff(b);
    VerdictIff(b.payload);
    PhaseIff(b.payload);
    SpokenIsGiven(b.payload);
  }
}
