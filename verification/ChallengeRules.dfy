/** The commit-reveal challenge protocol as a fold over events (adl_lite/challenge.py). */
module ChallengeRules {
  import opened Basics
  import opened Events

  type Instant = real

  /** What the protocol takes from outside: reading a timestamp, SHA-256, Python's `str` on non-strings and `float` on strings. */
  datatype World = World(
    parse: string -> Option<Instant>,
    digest: string -> string,
    repr: Json -> string,
    number: string -> Option<real>)

  /** An event as the manager sees it; the stamp may be unreadable. */
  datatype Note = Note(body: Body, stamp: string)

  datatype Phase = Open | Revealed | Answered | TimedOut | Void

  datatype VoidReason = CommitmentMismatch | RevealAfterDeadline

  datatype Case = Case(
    id: string,
    concept: string,
    challenger: string,
    commitment: string,
    deadline: Instant,
    window: real,
    openedAt: Instant,
    target: Option<Json>,
    phase: Phase,
    seed: Option<string>,
    revealedAt: Option<Instant>,
    answerActor: Option<string>,
    answeredAt: Option<Instant>,
    output: Option<string>,
    voidReason: Option<VoidReason>)

  datatype Trouble =
    | UnknownPhase | DuplicateOpen | BadDeadline | BadWindow | NonPositiveWindow
    | RevealBeforeOpen | DuplicateReveal | RevealByNonChallenger | SeedCommitmentMismatch | LateReveal
    | AnswerBeforeOpen | AnswerOutOfPhase | AnswerAfterWindow | AnswerByNonTarget

  datatype Issue = Issue(eventId: string, trouble: Trouble, challengeId: string)

  datatype Board = Board(cases: map<string, Case>, issues: seq<Issue>, maxSeen: Option<Instant>)

  const EMPTY := Board(map[], [], None)

  // ----- reading an event -----

  function Field(e: Note, key: string): Option<Json> {
    if key in e.body.payload then Some(e.body.payload[key]) else None
  }

  /** Python's `str(payload.get(key, ""))`. */
  function Text(w: World, e: Note, key: string): string {
    match Field(e, key)
    case None => ""
    case Some(Str(s)) => s
    case Some(j) => w.repr(j)
  }

  function When(w: World, e: Note): Option<Instant> { w.parse(e.stamp) }

  function Deadline(w: World, e: Note): Option<Instant> {
    match Field(e, "reveal_deadline") case Some(Str(s)) => w.parse(s) case _ => None
  }

  /** Python's `float(...)`, refusing a missing value and booleans. */
  function Window(w: World, e: Note): Option<real> {
    match Field(e, "response_window_s")
    case Some(Num(n)) => Some(n)
    case Some(Str(s)) => w.number(s)
    case _ => None
  }

  function Target(e: Note): Option<Json> {
    match Field(e, "target_executor") case Some(j) => (if Truthy(j) then Some(j) else None) case None => None
  }

  function IdOf(w: World, e: Note): string { Text(w, e, "challenge_id") }

  predicate Says(e: Note, phase: string) { e.body.kind == Challenge && Field(e, "phase") == Some(Str(phase)) }

  function CommitmentTo(w: World, seed: string): string { "sha256:" + w.digest(seed) }

  function Either(first: Option<Instant>, otherwise: Instant): Instant { if first.Some? then first.value else otherwise }

  // ----- the three transitions -----

  predicate Opens(w: World, e: Note) {
    Deadline(w, e).Some? && Window(w, e).Some? && Window(w, e).value > 0.0
  }

  function NewCase(w: World, e: Note): Case
    requires Opens(w, e)
  {
    Case(IdOf(w, e), e.body.concept, e.body.actor, Text(w, e, "seed_commitment"), Deadline(w, e).value, Window(w, e).value,
         Either(When(w, e), Deadline(w, e).value), Target(e), Open, None, None, None, None, None, None)
  }

  function Raise(b: Board, e: Note, t: Trouble, id: string): Board { b.(issues := b.issues + [Issue(e.body.id, t, id)]) }

  function StepOpen(w: World, b: Board, e: Note): (after: Board)
    requires Kept(b)
    ensures Kept(after)
  {
    var id := IdOf(w, e);
    if id in b.cases then Raise(b, e, DuplicateOpen, id)
    else if Deadline(w, e).None? then Raise(b, e, BadDeadline, id)
    else if Window(w, e).None? then Raise(b, e, BadWindow, id)
    else if Window(w, e).value <= 0.0 then Raise(b, e, NonPositiveWindow, id)
    else b.(cases := b.cases[id := NewCase(w, e)])
  }

  /** What a reveal by the challenger does to an open challenge. */
  function Reveal(w: World, c: Case, e: Note): Case {
    var seed := Text(w, e, "seed");
    var at := Either(When(w, e), c.deadline);
    if CommitmentTo(w, seed) != c.commitment then c.(phase := Void, voidReason := Some(CommitmentMismatch))
    else if at > c.deadline then c.(phase := Void, voidReason := Some(RevealAfterDeadline))
    else c.(phase := Revealed, seed := Some(seed), revealedAt := Some(at))
  }

  function RevealTrouble(w: World, c: Case, e: Note): Option<Trouble> {
    if CommitmentTo(w, Text(w, e, "seed")) != c.commitment then Some(SeedCommitmentMismatch)
    else if Either(When(w, e), c.deadline) > c.deadline then Some(LateReveal)
    else None
  }

  function Settle(b: Board, e: Note, id: string, c: Case, trouble: Option<Trouble>): Board {
    var after := b.(cases := b.cases[id := c]);
    if trouble.Some? then Raise(after, e, trouble.value, id) else after
  }

  function StepReveal(w: World, b: Board, e: Note): (after: Board)
    requires Kept(b)
    ensures Kept(after)
  {
    var id := IdOf(w, e);
    if id !in b.cases then Raise(b, e, RevealBeforeOpen, id)
    else
      var c := b.cases[id];
      if c.phase != Open then Raise(b, e, DuplicateReveal, id)
      else if e.body.actor != c.challenger then Raise(b, e, RevealByNonChallenger, id)
      else
        Settle(b, e, id, Reveal(w, c, e), RevealTrouble(w, c, e))
  }

  predicate ByTarget(c: Case, e: Note) { c.target == None || c.target == Some(Str(e.body.actor)) }

  function AnswerAt(w: World, c: Case, e: Note): Instant
    requires c.revealedAt.Some?
  {
    Either(When(w, e), c.revealedAt.value)
  }

  function AnswerBy(c: Case): Instant
    requires c.revealedAt.Some?
  {
    c.revealedAt.value + c.window
  }

  /** What an answer does to a revealed challenge. */
  function Answer(w: World, c: Case, e: Note): Case
    requires c.revealedAt.Some?
  {
    if AnswerAt(w, c, e) > AnswerBy(c) then c.(phase := TimedOut)
    else if !ByTarget(c, e) then c
    else c.(phase := Answered, answerActor := Some(e.body.actor), answeredAt := Some(AnswerAt(w, c, e)),
            output := Some(Text(w, e, "output_commitment")))
  }

  function AnswerTrouble(w: World, c: Case, e: Note): Option<Trouble>
    requires c.revealedAt.Some?
  {
    if AnswerAt(w, c, e) > AnswerBy(c) then Some(AnswerAfterWindow)
    else if !ByTarget(c, e) then Some(AnswerByNonTarget)
    else None
  }

  function StepAnswer(w: World, b: Board, e: Note): (after: Board)
    requires Kept(b)
    ensures Kept(after)
  {
    var id := IdOf(w, e);
    if id !in b.cases then Raise(b, e, AnswerBeforeOpen, id)
    else
      var c := b.cases[id];
      if c.phase == Answered then b
      else if c.phase != Revealed then Raise(b, e, AnswerOutOfPhase, id)
      else
        Settle(b, e, id, Answer(w, c, e), AnswerTrouble(w, c, e))
  }

  /** A case is filed under its own id, and a revealed one has its reveal instant: what `_apply_answer` asserts. */
  ghost predicate CaseKept(id: string, c: Case) { c.id == id && (c.phase == Revealed ==> c.revealedAt.Some?) }

  ghost predicate Kept(b: Board) { forall id :: id in b.cases ==> CaseKept(id, b.cases[id]) }

  function Later(seen: Option<Instant>, at: Option<Instant>): Option<Instant> {
    if at.Some? && (seen.None? || at.value > seen.value) then at else seen
  }

  /** One event. The latest readable instant is kept whatever the event says. */
  function Step(w: World, b0: Board, e: Note): (after: Board)
    requires Kept(b0)
    ensures Kept(after)
  {
    if e.body.kind != Challenge then b0
    else
      var b := b0.(maxSeen := Later(b0.maxSeen, When(w, e)));
      if Says(e, "open") then StepOpen(w, b, e)
      else if Says(e, "reveal") then StepReveal(w, b, e)
      else if Says(e, "answer") then StepAnswer(w, b, e)
      else Raise(b, e, UnknownPhase, IdOf(w, e))
  }

  function Replay(w: World, es: seq<Note>): (b: Board)
    ensures Kept(b)
  {
    if es == [] then EMPTY else Step(w, Replay(w, es[..|es| - 1]), es[|es| - 1])
  }

  // ----- verdicts at an instant -----

  predicate Terminal(p: Phase) { p == Answered || p == TimedOut || p == Void }

  function Verdict(c: Case, now: Instant): Phase {
    if Terminal(c.phase) then c.phase
    else if c.phase == Open && now > c.deadline then Void
    else if c.phase == Revealed && c.revealedAt.Some? && now > c.revealedAt.value + c.window then TimedOut
    else c.phase
  }
}
