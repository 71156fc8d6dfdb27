/** Events as values (adl_lite/models.py): the hashed content of an event, the link that
    `EventChain.append` writes, and the fifteen axioms of a well-formed chain. */
module Events {
  import opened Basics

  /** Timestamps of one common format, as instants of a total order. */
  type Time = int

  datatype Json =
    | Null
    | Bool(b: bool)
    | Num(n: real)
    | Str(s: string)
    | Arr(items: seq<Json>)
    | Obj(fields: map<string, Json>)

  type Payload = map<string, Json>

  datatype EventType =
    | Register | Validate | Deprecate | Fork | Archive
    | Calibrate
    | Relate | Evidence | Seal | Revoke
    | Announce | Publish | SyncDashboard | Listen
    | Snapshot
    | Execute | Attest | ExecAnchor | Challenge
    | AgentRegister | AgentValidate | AgentUpdate | AgentDeprecate
    | TaskCreate | TaskAssign | TaskClaim | TaskSubmit | TaskValidate | TaskClose
    | Message

  /** The fields of an event that no operation of a chain rewrites. */
  datatype Body = Body(
    id: string,
    concept: string,
    kind: EventType,
    actor: string,
    reasoning: string,
    payload: Payload,
    signature: string,
    proof: Option<Json>)

  /** What happened and when. */
  datatype Fact = Fact(body: Body, ts: Time)

  /** A fact with the link and hash it carries inside a chain. */
  datatype Record = Record(fact: Fact, prevId: Option<string>, prevHash: string, hash: string) {
    function Id(): string { fact.body.id }
    function Kind(): EventType { fact.body.kind }
    function Ts(): Time { fact.ts }
  }

  function Facts(rs: seq<Record>): (fs: seq<Fact>) {
    seq(|rs|, i requires 0 <= i < |rs| => rs[i].fact)
  }

  function Ids(rs: seq<Record>): seq<string> {
    seq(|rs|, i requires 0 <= i < |rs| => rs[i].Id())
  }

  function IdSet(rs: seq<Record>): set<string> { set r | r in rs :: r.Id() }

  // ----- canonical content and hash -----

  const CANON_VERSION := "1.0"

  /** Python's `round(x, 6)` on reals: nearest multiple of 10^-6, ties to even. */
  function Round6(x: real): real {
    var y := x * 1000000.0;
    var lo := y.Floor;
    var d := y - lo as real;
    var n := if d < 0.5 || (d == 0.5 && lo % 2 == 0) then lo else lo + 1;
    n as real / 1000000.0
  }

  function RoundFloats(j: Json): Json {
    match j
    case Num(n) => Num(Round6(n))
    case Arr(xs) => Arr(seq(|xs|, i requires 0 <= i < |xs| => RoundFloats(xs[i])))
    case Obj(fs) => Obj(map k | k in fs :: RoundFloats(fs[k]))
    case _ => j
  }

  function RoundPayload(p: Payload): Payload { map k | k in p :: RoundFloats(p[k]) }

  /** Everything the event hash covers; signature, proof and reasoning are not part of it. */
  datatype Content = Content(
    id: string,
    concept: string,
    kind: EventType,
    actor: string,
    ts: Time,
    payload: Payload,
    prevId: Option<string>,
    prevHash: string,
    canonVersion: string)

  /** SHA-256 of the canonical JSON, as 64 hexadecimal characters. Nothing else is assumed. */
  type Hasher = h: Content -> string | forall c :: |h(c)| == 64
    ghost witness (c: Content) => seq(64, i => '0')

  function ContentOf(r: Record): Content {
    var b := r.fact.body;
    Content(b.id, b.concept, b.kind, b.actor, r.fact.ts, RoundPayload(b.payload), r.prevId, r.prevHash, CANON_VERSION)
  }

  function ComputeHash(H: Hasher, r: Record): string { H(ContentOf(r)) }

  /** Two different contents with one hash. */
  ghost predicate Collision(H: Hasher, x: Content, y: Content) { x != y && H(x) == H(y) }

  // ----- the link written by append -----

  function Sealed(H: Hasher, f: Fact, prevId: Option<string>, prevHash: string): Record {
    var r := Record(f, prevId, prevHash, "");
    r.(hash := ComputeHash(H, r))
  }

  /** What `append` turns the fact `f` into behind the records `prior`. */
  function Link(H: Hasher, prior: seq<Record>, f: Fact): Record {
    if prior == [] then Sealed(H, f, None, "")
    else
      var tail := prior[|prior| - 1];
      Sealed(H, f.(ts := if f.ts < tail.Ts() then tail.Ts() else f.ts), Some(tail.Id()), tail.hash)
  }

  /** The records after appending the facts `fs` one by one behind `base`. */
  function AppendAll(H: Hasher, base: seq<Record>, fs: seq<Fact>): (rs: seq<Record>)
    ensures |rs| == |base| + |fs|
  {
    if fs == [] then base
    else
      var prior := AppendAll(H, base, fs[..|fs| - 1]);
      prior + [Link(H, prior, fs[|fs| - 1])]
  }

  /** The record at `i` is what `append` writes there. */
  ghost predicate BuiltAt(H: Hasher, rs: seq<Record>, i: nat)
    requires i < |rs|
  {
    rs[i] == Link(H, rs[..i], rs[i].fact)
  }

  /** The list came about by appending alone. */
  ghost predicate AppendBuilt(H: Hasher, rs: seq<Record>) {
    forall i :: 0 <= i < |rs| ==> BuiltAt(H, rs, i)
  }

  // ----- the axioms, one by one, over the whole list -----

  /** What Python's `strip` removes. */
  predicate IsSpace(c: char) {
    || '\U{0009}' <= c <= '\U{000D}' || '\U{001C}' <= c <= ' ' || c == '\U{0085}' || c == '\U{00A0}' || c == '\U{1680}'
    || '\U{2000}' <= c <= '\U{200A}' || c == '\U{2028}' || c == '\U{2029}' || c == '\U{202F}' || c == '\U{205F}' || c == '\U{3000}'
  }

  predicate Blank(s: string) { forall i :: 0 <= i < |s| ==> IsSpace(s[i]) }

  /** Python's truth value of a JSON value. */
  predicate Truthy(j: Json) {
    match j
    case Null => false
    case Bool(b) => b
    case Num(n) => n != 0.0
    case Str(s) => s != ""
    case Arr(xs) => xs != []
    case Obj(fs) => fs != map[]
  }

  function Get(p: Payload, key: string): Json { if key in p then p[key] else Null }

  /** A required field is present and not a blank string. */
  predicate Filled(p: Payload, key: string) {
    var v := Get(p, key);
    !v.Null? && (v.Str? ==> !Blank(v.s))
  }

  predicate AllFilled(p: Payload, keys: seq<string>) { forall k :: 0 <= k < |keys| ==> Filled(p, keys[k]) }

  function RequiredFields(kind: EventType): seq<string> {
    match kind
    case Execute => ["execution_id", "input_commitment", "output_commitment"]
    case Attest => ["subject_execution", "method", "verdict"]
    case ExecAnchor => ["log_merkle_root"]
    case Challenge => ["challenge_id", "phase"]
    case _ => []
  }

  predicate NeedsProof(kind: EventType) { kind in {Execute, Attest, Challenge} }

  predicate ProofPresent(proof: Option<Json>) {
    proof.Some? && proof.value.Obj? && Truthy(Get(proof.value.fields, "type")) && Truthy(Get(proof.value.fields, "proofValue"))
  }

  predicate ChallengeWellFormed(p: Payload) {
    match Get(p, "phase")
    case Str(phase) =>
      if phase == "open" then AllFilled(p, ["seed_commitment", "reveal_deadline", "response_window_s"])
      else if phase == "reveal" then AllFilled(p, ["seed"])
      else phase == "answer" && AllFilled(p, ["output_commitment"])
    case _ => false
  }

  /** A truthy field of a JSON object; false for anything that is not an object. */
  predicate ObjHas(j: Json, key: string) { j.Obj? && Truthy(Get(j.fields, key)) }

  predicate VerdictConsistent(p: Payload) {
    var verdict := Get(p, "verdict");
    var replay := Get(p, "replay");
    && verdict in {Str("confirm"), Str("refute"), Str("inconclusive")}
    && (Get(p, "method") == Str("replay") && verdict == Str("confirm") ==>
          && replay.Obj? && Get(replay.fields, "match") == Bool(true)
          && ObjHas(replay, "input_commitment") && ObjHas(replay, "output_commitment"))
    && (verdict == Str("refute") ==>
          Truthy(Get(p, "evidence_ref")) || (replay.Obj? && Get(replay.fields, "match") == Bool(false)))
  }

  predicate IsAction(kind: EventType) { kind in {Announce, Publish, SyncDashboard, Listen} }

  predicate HasArchive(rs: seq<Record>) { exists i :: 0 <= i < |rs| && rs[i].Kind() == Archive }

  /** Axioms 6, 9, 13, 14 and 15: what one event must carry by itself. */
  predicate BodyOk(b: Body) {
    && !Blank(b.actor)
    && (IsAction(b.kind) ==> Truthy(Get(b.payload, "action")))
    && AllFilled(b.payload, RequiredFields(b.kind))
    && (NeedsProof(b.kind) ==> ProofPresent(b.proof))
    && (b.kind == Attest ==> VerdictConsistent(b.payload))
    && (b.kind == Challenge ==> ChallengeWellFormed(b.payload))
  }

  ghost predicate Axiom1(rs: seq<Record>) { rs != [] ==> rs[0].prevId.None? || HasArchive(rs) }

  ghost predicate Axiom2(concept: string, rs: seq<Record>) {
    forall i :: 0 <= i < |rs| ==> rs[i].fact.body.concept == concept
  }

  predicate LinkedTo(r: Record, p: Record) { r.prevId == Some(p.Id()) }

  ghost predicate Axiom3(rs: seq<Record>) {
    forall i :: 1 <= i < |rs| ==>
      if LinkedTo(rs[i], rs[i - 1]) then rs[i].prevHash == rs[i - 1].hash else i == 1 && HasArchive(rs)
  }

  ghost predicate Axiom4(H: Hasher, rs: seq<Record>) {
    forall i :: 0 <= i < |rs| ==> rs[i].hash == ComputeHash(H, rs[i])
  }

  ghost predicate Axiom5(rs: seq<Record>) {
    forall i, j :: 0 <= i < j < |rs| ==> rs[i].Id() != rs[j].Id()
  }

  ghost predicate Axiom7(rs: seq<Record>) {
    forall i :: 1 <= i < |rs| ==> rs[i - 1].Ts() <= rs[i].Ts()
  }

  ghost predicate Axiom10(rs: seq<Record>) {
    forall i :: 0 <= i < |rs| ==> rs[i].hash == "" || |rs[i].hash| == 64
  }

  predicate Named(o: Option<string>) { o.Some? && o.value != "" }

  ghost predicate Axiom11(rs: seq<Record>) {
    forall i :: 0 <= i < |rs| ==> (i > 0 ==> Named(rs[i].prevId)) && rs[i].hash != ""
  }

  ghost predicate BodyAxioms(rs: seq<Record>) { forall i :: 0 <= i < |rs| ==> BodyOk(rs[i].fact.body) }

  /** Definition 5: the stateless check of all axioms over the whole list. */
  ghost predicate WellFormed(H: Hasher, concept: string, rs: seq<Record>) {
    && Axiom1(rs) && Axiom2(concept, rs) && Axiom3(rs) && Axiom4(H, rs) && Axiom5(rs)
    && Axiom7(rs) && Axiom10(rs) && Axiom11(rs) && BodyAxioms(rs)
  }

  /** Lists of distinct ids that hold the same records are rearrangements of each other. */
  lemma DistinctMultiplicity(u: seq<Record>, v: seq<Record>)
    requires Axiom5(u) && Axiom5(v) && forall r :: r in u <==> r in v
    ensures multiset(u) == multiset(v)
  {
    forall r ensures multiset(u)[r] == multiset(v)[r] {
      if r in u {
        assert r in v;
        var i :| 0 <= i < |u| && u[i] == r;
        var j :| 0 <= j < |v| && v[j] == r;
        OnceByKey(u, i, (x: Record) => x.Id());
        OnceByKey(v, j, (x: Record) => x.Id());
      } else {
        assert r !in v;
      }
    }
  }

  // ----- lemmas on appending -----

  lemma ConcatSnoc<T>(a: seq<T>, b: seq<T>)
    requires b != []
    ensures (a + b)[..|a + b| - 1] == a + b[..|b| - 1] && (a + b)[|a + b| - 1] == b[|b| - 1]
  {
  }

  lemma {:induction false} AppendAllSplit(H: Hasher, base: seq<Record>, fs: seq<Fact>, gs: seq<Fact>)
    ensures AppendAll(H, base, fs + gs) == AppendAll(H, AppendAll(H, base, fs), gs)
  {
    if gs == [] {
      assert fs + gs == fs;
    } else {
      var last := |gs| - 1;
      AppendAllSplit(H, base, fs, gs[..last]);
      ConcatSnoc(fs, gs);
    }
  }

  lemma {:induction false} AppendAllKeepsBase(H: Hasher, base: seq<Record>, fs: seq<Fact>)
    ensures AppendAll(H, base, fs)[..|base|] == base
  {
    if fs == [] {
    } else {
      AppendAllKeepsBase(H, base, fs[..|fs| - 1]);
    }
  }

  /** Bodies pass through appending unchanged, in order. */
  lemma {:induction false} AppendAllBodies(H: Hasher, base: seq<Record>, fs: seq<Fact>)
    ensures forall i :: 0 <= i < |fs| ==> AppendAll(H, base, fs)[|base| + i].fact.body == fs[i].body
  {
    if fs == [] {
    } else {
      AppendAllBodies(H, base, fs[..|fs| - 1]);
    }
  }

  lemma {:induction false} AppendAllIsBuilt(H: Hasher, base: seq<Record>, fs: seq<Fact>)
    requires AppendBuilt(H, base)
    ensures AppendBuilt(H, AppendAll(H, base, fs))
  {
    if fs == [] {
    } else {
      var prior := AppendAll(H, base, fs[..|fs| - 1]);
      AppendAllIsBuilt(H, base, fs[..|fs| - 1]);
      BuiltSnoc(H, prior, fs[|fs| - 1]);
    }
  }

  lemma BuiltSnoc(H: Hasher, prior: seq<Record>, f: Fact)
    requires AppendBuilt(H, prior)
    ensures AppendBuilt(H, prior + [Link(H, prior, f)])
  {
    var rs := prior + [Link(H, prior, f)];
    forall i | 0 <= i < |rs| ensures BuiltAt(H, rs, i) {
      if i < |prior| {
        assert BuiltAt(H, prior, i);
        assert rs[..i] == prior[..i];
      } else {
        assert rs[..i] == prior;
      }
    }
  }

  lemma BuiltPrefix(H: Hasher, rs: seq<Record>, n: nat)
    requires AppendBuilt(H, rs) && n <= |rs|
    ensures AppendBuilt(H, rs[..n])
  {
    forall i | 0 <= i < n ensures BuiltAt(H, rs[..n], i) {
      assert BuiltAt(H, rs, i);
      assert rs[..n][..i] == rs[..i];
    }
  }

  lemma FactsSnoc(rs: seq<Record>, n: nat)
    requires |rs| == n + 1
    ensures |Facts(rs)| == n + 1 && Facts(rs)[..n] == Facts(rs[..n]) && Facts(rs)[n] == rs[n].fact
  {
  }

  /** Re-appending the facts of an append-built chain gives back the same records. */
  lemma {:induction false} Reappend(H: Hasher, rs: seq<Record>)
    requires AppendBuilt(H, rs)
    ensures AppendAll(H, [], Facts(rs)) == rs
  {
    if rs == [] {
    } else {
      var n := |rs| - 1;
      BuiltPrefix(H, rs, n);
      Reappend(H, rs[..n]);
      assert BuiltAt(H, rs, n);
      TakeSnoc(rs, n);
      FactsSnoc(rs, n);
      assert rs[..n + 1] == rs;
    }
  }

  /** Appended records keep the facts when the facts are already in time order. */
  lemma {:induction false} AppendAllFacts(H: Hasher, fs: seq<Fact>)
    requires forall i, j :: 0 <= i < j < |fs| ==> fs[i].ts <= fs[j].ts
    ensures Facts(AppendAll(H, [], fs)) == fs
  {
    if fs == [] {
    } else {
      var n := |fs| - 1;
      AppendAllFacts(H, fs[..n]);
      var prior := AppendAll(H, [], fs[..n]);
      if n > 0 { assert prior[n - 1].fact == Facts(prior)[n - 1] == fs[n - 1]; }
      assert Facts(AppendAll(H, [], fs)) == Facts(prior) + [fs[n]];
      assert fs == fs[..n] + [fs[n]];
    }
  }

  lemma LinkTakesLater(H: Hasher, prior: seq<Record>, f: Fact)
    ensures var r := Link(H, prior, f);
      && r.fact.body == f.body && f.ts <= r.Ts() && (r.Ts() == f.ts || (prior != [] && r.Ts() == prior[|prior| - 1].Ts()))
      && (prior != [] ==> prior[|prior| - 1].Ts() <= r.Ts())
  {
  }

  /** The timestamp of an appended event is the latest of its own and those of the events before it: lifted no further. */
  lemma {:induction false} AppendedTimes(H: Hasher, fs: seq<Fact>, i: nat) returns (k: nat)
    requires i < |fs|
    ensures k <= i && AppendAll(H, [], fs)[i].Ts() == fs[k].ts
    ensures forall j :: 0 <= j <= i ==> fs[j].ts <= AppendAll(H, [], fs)[i].Ts()
    decreases |fs|
  {
    var n := |fs| - 1;
    var prior := AppendAll(H, [], fs[..n]);
    if i < n {
      k := AppendedTimes(H, fs[..n], i);
      assert AppendAll(H, [], fs)[i] == prior[i];
      assert forall j :: 0 <= j <= i ==> fs[..n][j] == fs[j];
    } else {
      LinkTakesLater(H, prior, fs[n]);
      k := n;
      if n > 0 {
        var l := AppendedTimes(H, fs[..n], n - 1);
        assert forall j :: 0 <= j < n ==> fs[..n][j] == fs[j];
        if AppendAll(H, [], fs)[n].Ts() != fs[n].ts { k := l; }
      }
    }
  }

  lemma {:induction false} BuiltIsTimeOrdered(H: Hasher, rs: seq<Record>, i: nat, j: nat)
    requires AppendBuilt(H, rs) && i <= j < |rs|
    ensures rs[i].Ts() <= rs[j].Ts()
    decreases j
  {
    if i < j {
      BuiltIsTimeOrdered(H, rs, i, j - 1);
      assert BuiltAt(H, rs, j);
      assert rs[..j][j - 1] == rs[j - 1];
    }
  }

  // ----- an append-built chain verifies exactly when its events are well formed one by one -----

  ghost predicate EventsOk(concept: string, rs: seq<Record>) {
    && Axiom2(concept, rs) && Axiom5(rs) && BodyAxioms(rs)
    && forall i :: 0 <= i < |rs| - 1 ==> rs[i].Id() != ""
  }

  lemma BuiltLinks(H: Hasher, rs: seq<Record>, i: nat)
    requires AppendBuilt(H, rs) && i < |rs|
    ensures rs[i].hash == ComputeHash(H, rs[i]) && |rs[i].hash| == 64
    ensures i == 0 ==> rs[i].prevId == None && rs[i].prevHash == ""
    ensures i > 0 ==> rs[i].prevId == Some(rs[i - 1].Id()) && rs[i].prevHash == rs[i - 1].hash && rs[i - 1].Ts() <= rs[i].Ts()
  {
    assert BuiltAt(H, rs, i);
    if i > 0 { assert rs[..i][i - 1] == rs[i - 1]; }
  }

  /** The chain axioms 1, 3, 4, 7, 10 and 11 come from `append` alone; what is left is the events. */
  lemma BuiltVerifiesIff(H: Hasher, concept: string, rs: seq<Record>)
    requires AppendBuilt(H, rs)
    ensures WellFormed(H, concept, rs) <==> EventsOk(concept, rs)
  {
    forall i | 0 <= i < |rs|
      ensures rs[i].hash == ComputeHash(H, rs[i]) && |rs[i].hash| == 64
      ensures i == 0 ==> rs[i].prevId == None
      ensures i > 0 ==> rs[i].prevId == Some(rs[i - 1].Id()) && rs[i].prevHash == rs[i - 1].hash && rs[i - 1].Ts() <= rs[i].Ts()
    { BuiltLinks(H, rs, i); }
    if WellFormed(H, concept, rs) {
      forall i | 0 <= i < |rs| - 1 ensures rs[i].Id() != "" { assert Named(rs[i + 1].prevId); }
    }
    if EventsOk(concept, rs) {
      forall i | 0 < i < |rs| ensures Named(rs[i].prevId) { assert rs[i - 1].Id() != ""; }
      assert Axiom1(rs) && Axiom3(rs);
    }
  }
}
