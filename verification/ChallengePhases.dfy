/** The phase of a challenge said of the events alone: which open, reveal and answer decide it, and when time does
    (adl_lite/challenge.py: `derived_phase` after `apply_chain`). */
module ChallengePhases {
  import opened Basics
  import opened Events
  import opened ChallengeRules
  import opened ChallengeManagers
  import opened ChallengeMetrics
  import opened ChallengeProofs

  // ----- the five ways a challenge can stand -----

  /** Opened at `i`, and its challenger has revealed nothing since. */
  ghost predicate Unrevealed(w: World, es: seq<Note>, id: string, i: nat) {
    OpensFirst(w, es, id, i) && forall j: nat :: !RevealsFirst(w, es, id, i, j)
  }

  /** The challenger's first reveal `j` shows another seed, or comes late. */
  ghost predicate Misrevealed(w: World, es: seq<Note>, id: string, i: nat, j: nat) {
    && OpensFirst(w, es, id, i) && RevealsFirst(w, es, id, i, j)
    && (!ShowsSeed(w, es, i, j) || RevealInstant(w, es, i, j) > Deadline(w, es[i]).value)
  }

  ghost predicate Shown(w: World, es: seq<Note>, id: string, i: nat, j: nat) {
    OpensFirst(w, es, id, i) && RevealsInTime(w, es, id, i, j)
  }

  /** The answer `k` is late, and no answer before it was late or rightful. */
  ghost predicate AnswersLate(w: World, es: seq<Note>, id: string, i: nat, j: nat, k: nat)
    requires i < |es| && j < |es| && Opens(w, es[i])
  {
    && j < k < |es| && Says(es[k], "answer") && IdOf(w, es[k]) == id && !AnswersInTime(w, es, i, j, k)
    && forall x :: j < x < k && Says(es[x], "answer") && IdOf(w, es[x]) == id ==> AnswersInTime(w, es, i, j, x) && !MayAnswer(es, i, x)
  }

  /** Revealed in time at `j`; no answer since was late or rightful. */
  ghost predicate Undecided(w: World, es: seq<Note>, id: string, i: nat, j: nat) {
    && Shown(w, es, id, i, j)
    && (forall k: nat :: !AnswersFirst(w, es, id, i, j, k)) && forall k: nat :: !AnswersLate(w, es, id, i, j, k)
  }

  ghost predicate Expired(w: World, es: seq<Note>, id: string, i: nat, j: nat, k: nat) {
    Shown(w, es, id, i, j) && AnswersLate(w, es, id, i, j, k)
  }

  // ----- each of them fixes the replayed case -----

  function CaseOf(w: World, es: seq<Note>, id: string): Option<Case> { Find(Replay(w, es), id) }

  lemma OpenedAt(w: World, es: seq<Note>, id: string, i: nat)
    requires OpensFirst(w, es, id, i)
    ensures CaseOf(w, es, id) == Some(AfterOpen(w, es, i, NewCase(w, es[i])))
  {
    ReplayIsDeclared(w, es, id);
    FirstIs(es, 0, OpenOf(w, id), i);
  }

  lemma StaysNew(w: World, es: seq<Note>, id: string, i: nat)
    requires Unrevealed(w, es, id, i)
    ensures CaseOf(w, es, id) == Some(NewCase(w, es[i]))
  {
    OpenedAt(w, es, id, i);
    var j := First(es, i + 1, RevealOf(w, id, es[i].body.actor));
    if j < |es| { assert RevealsFirst(w, es, id, i, j); }
  }

  lemma RevealedAt(w: World, es: seq<Note>, id: string, i: nat, j: nat)
    requires OpensFirst(w, es, id, i) && RevealsFirst(w, es, id, i, j)
    ensures CaseOf(w, es, id) == Some(AfterReveal(w, es, j, Reveal(w, NewCase(w, es[i]), es[j])))
  {
    OpenedAt(w, es, id, i);
    FirstIs(es, i + 1, RevealOf(w, id, es[i].body.actor), j);
  }

  /** The case as a reveal in time leaves it. */
  function ShownCase(w: World, es: seq<Note>, i: nat, j: nat): Case
    requires i < |es| && j < |es| && Opens(w, es[i])
  {
    NewCase(w, es[i]).(phase := Revealed, seed := Some(Text(w, es[j], "seed")), revealedAt := Some(RevealInstant(w, es, i, j)))
  }

  lemma ShownAt(w: World, es: seq<Note>, id: string, i: nat, j: nat)
    requires Shown(w, es, id, i, j)
    ensures CaseOf(w, es, id) == Some(AfterReveal(w, es, j, ShownCase(w, es, i, j)))
  {
    RevealedAt(w, es, id, i, j);
  }

  lemma DecisionAt(w: World, es: seq<Note>, id: string, i: nat, j: nat, k: nat)
    requires Shown(w, es, id, i, j) && k < |es|
    ensures DecisionOf(w, ShownCase(w, es, i, j))(es[k]) <==>
              Says(es[k], "answer") && IdOf(w, es[k]) == id && (!AnswersInTime(w, es, i, j, k) || MayAnswer(es, i, k))
  {
  }

  /** The first decision is a late answer or a rightful one in time. */
  lemma FirstDecision(w: World, es: seq<Note>, id: string, i: nat, j: nat, k: nat)
    requires Shown(w, es, id, i, j) && j < k < |es|
    ensures k == First(es, j + 1, DecisionOf(w, ShownCase(w, es, i, j))) <==>
              AnswersFirst(w, es, id, i, j, k) || AnswersLate(w, es, id, i, j, k)
  {
    var p := DecisionOf(w, ShownCase(w, es, i, j));
    forall x | j < x < |es|
      ensures p(es[x]) <==> Says(es[x], "answer") && IdOf(w, es[x]) == id && (!AnswersInTime(w, es, i, j, x) || MayAnswer(es, i, x))
    {
      DecisionAt(w, es, id, i, j, x);
    }
    if AnswersFirst(w, es, id, i, j, k) || AnswersLate(w, es, id, i, j, k) { FirstIs(es, j + 1, p, k); }
  }

  lemma StaysShown(w: World, es: seq<Note>, id: string, i: nat, j: nat)
    requires Undecided(w, es, id, i, j)
    ensures CaseOf(w, es, id) == Some(ShownCase(w, es, i, j))
  {
    ShownAt(w, es, id, i, j);
    var k := First(es, j + 1, DecisionOf(w, ShownCase(w, es, i, j)));
    if k < |es| { FirstDecision(w, es, id, i, j, k); }
  }

  lemma DecidedAt(w: World, es: seq<Note>, id: string, i: nat, j: nat, k: nat)
    requires Shown(w, es, id, i, j) && (AnswersFirst(w, es, id, i, j, k) || AnswersLate(w, es, id, i, j, k))
    ensures CaseOf(w, es, id) == Some(Answer(w, ShownCase(w, es, i, j), es[k]))
  {
    ShownAt(w, es, id, i, j);
    FirstDecision(w, es, id, i, j, k);
  }

  // ----- what is recorded -----

  /** What the open says stays with the case. */
  predicate OpenedBy(w: World, c: Case, id: string, open: Note) {
    && c.id == id && c.concept == open.body.concept && c.challenger == open.body.actor
    && c.commitment == Text(w, open, "seed_commitment") && Deadline(w, open) == Some(c.deadline) && Window(w, open) == Some(c.window)
    && c.target == Target(open) && c.openedAt == if When(w, open).Some? then When(w, open).value else c.deadline
  }

  lemma UnrevealedCase(w: World, es: seq<Note>, id: string, i: nat)
    requires Unrevealed(w, es, id, i)
    ensures var c := CaseOf(w, es, id);
      && c.Some? && c.value.phase == Open && OpenedBy(w, c.value, id, es[i])
      && c.value.seed == None && c.value.answerActor == None && c.value.voidReason == None
  {
    StaysNew(w, es, id, i);
  }

  lemma MisrevealedCase(w: World, es: seq<Note>, id: string, i: nat, j: nat)
    requires Misrevealed(w, es, id, i, j)
    ensures var c := CaseOf(w, es, id);
      && c.Some? && c.value.phase == Void && OpenedBy(w, c.value, id, es[i])
      && c.value.voidReason == Some(if ShowsSeed(w, es, i, j) then RevealAfterDeadline else CommitmentMismatch)
      && c.value.seed == None && c.value.answerActor == None
  {
    RevealedAt(w, es, id, i, j);
  }

  /** A reveal in time is recorded with its seed and instant, whatever follows. */
  predicate RevealedBy(w: World, c: Case, seed: Note, at: Instant) {
    c.seed == Some(Text(w, seed, "seed")) && c.revealedAt == Some(at) && c.voidReason == None
  }

  lemma UndecidedCase(w: World, es: seq<Note>, id: string, i: nat, j: nat)
    requires Undecided(w, es, id, i, j)
    ensures var c := CaseOf(w, es, id);
      && c.Some? && c.value.phase == Revealed && OpenedBy(w, c.value, id, es[i])
      && RevealedBy(w, c.value, es[j], RevealInstant(w, es, i, j)) && c.value.answerActor == None
  {
    StaysShown(w, es, id, i, j);
  }

  lemma ExpiredCase(w: World, es: seq<Note>, id: string, i: nat, j: nat, k: nat)
    requires Expired(w, es, id, i, j, k)
    ensures var c := CaseOf(w, es, id);
      && c.Some? && c.value.phase == TimedOut && OpenedBy(w, c.value, id, es[i])
      && RevealedBy(w, c.value, es[j], RevealInstant(w, es, i, j)) && c.value.answerActor == None
  {
    DecidedAt(w, es, id, i, j, k);
  }

  lemma EarnedCase(w: World, es: seq<Note>, id: string, i: nat, j: nat, k: nat)
    requires Earned(w, es, id, i, j, k)
    ensures var c := CaseOf(w, es, id);
      && c.Some? && c.value.phase == Answered && OpenedBy(w, c.value, id, es[i])
      && RevealedBy(w, c.value, es[j], RevealInstant(w, es, i, j))
      && c.value.answerActor == Some(es[k].body.actor) && c.value.output == Some(Text(w, es[k], "output_commitment"))
      && c.value.answeredAt == Some(if When(w, es[k]).Some? then When(w, es[k]).value else RevealInstant(w, es, i, j))
  {
    DecidedAt(w, es, id, i, j, k);
  }

  // ----- one of them holds of every known challenge -----

  datatype Standing = NoReveal(i: nat) | BadReveal(i: nat, j: nat) | NoDecision(i: nat, j: nat)
    | LateAnswer(i: nat, j: nat, k: nat) | GoodAnswer(i: nat, j: nat, k: nat)

  ghost predicate Stands(w: World, es: seq<Note>, id: string, s: Standing) {
    match s
    case NoReveal(i) => Unrevealed(w, es, id, i)
    case BadReveal(i, j) => Misrevealed(w, es, id, i, j)
    case NoDecision(i, j) => Undecided(w, es, id, i, j)
    case LateAnswer(i, j, k) => Expired(w, es, id, i, j, k)
    case GoodAnswer(i, j, k) => Earned(w, es, id, i, j, k)
  }

  /** The open, reveal and answer that decide how a challenge stands. */
  lemma SomeStanding(w: World, es: seq<Note>, id: string) returns (s: Standing)
    requires CaseOf(w, es, id).Some?
    ensures Stands(w, es, id, s)
  {
    ReplayIsDeclared(w, es, id);
    var i := First(es, 0, OpenOf(w, id));
    FirstOpenMeaning(w, es, id, i);
    var p := RevealOf(w, id, es[i].body.actor);
    var j := First(es, i + 1, p);
    assert forall x :: i + 1 <= x < j ==> !p(es[x]);
    if j == |es| {
      s := NoReveal(i);
    } else {
      assert RevealsFirst(w, es, id, i, j);
      if RevealsInTime(w, es, id, i, j) {
        s := ShownStanding(w, es, id, i, j);
      } else {
        s := BadReveal(i, j);
      }
    }
  }

  lemma ShownStanding(w: World, es: seq<Note>, id: string, i: nat, j: nat) returns (s: Standing)
    requires Shown(w, es, id, i, j)
    ensures Stands(w, es, id, s) && !s.NoReveal?
  {
    var k := First(es, j + 1, DecisionOf(w, ShownCase(w, es, i, j)));
    if k == |es| {
      forall x: nat ensures !AnswersFirst(w, es, id, i, j, x) && !AnswersLate(w, es, id, i, j, x) {
        if j < x < |es| { FirstDecision(w, es, id, i, j, x); }
      }
      s := NoDecision(i, j);
    } else {
      FirstDecision(w, es, id, i, j, k);
      s := if AnswersFirst(w, es, id, i, j, k) then GoodAnswer(i, j, k) else LateAnswer(i, j, k);
    }
  }

  /** The case `c` shows this standing. */
  predicate Shows(w: World, es: seq<Note>, id: string, s: Standing, c: Case) {
    match s
    case NoReveal(i) => c.phase == Open && i < |es| && OpenedBy(w, c, id, es[i])
    case BadReveal(_, _) => c.phase == Void
    case NoDecision(i, j) =>
      && c.phase == Revealed && i < |es| && j < |es| && Opens(w, es[i])
      && OpenedBy(w, c, id, es[i]) && c.revealedAt == Some(RevealInstant(w, es, i, j))
    case LateAnswer(_, _, _) => c.phase == TimedOut
    case GoodAnswer(_, _, _) => c.phase == Answered
  }

  lemma StandingFixesCase(w: World, es: seq<Note>, id: string, s: Standing)
    requires Stands(w, es, id, s)
    ensures CaseOf(w, es, id).Some? && Shows(w, es, id, s, CaseOf(w, es, id).value)
  {
    match s
    case NoReveal(i) => UnrevealedCase(w, es, id, i);
    case BadReveal(i, j) => MisrevealedCase(w, es, id, i, j);
    case NoDecision(i, j) => UndecidedCase(w, es, id, i, j);
    case LateAnswer(i, j, k) => ExpiredCase(w, es, id, i, j, k);
    case GoodAnswer(i, j, k) => EarnedCase(w, es, id, i, j, k);
  }

  // ----- the phase at an instant -----

  predicate PastDeadline(w: World, open: Note, now: Instant) { Deadline(w, open).Some? && now > Deadline(w, open).value }

  /** Later than the window after the reveal allows. */
  predicate PastWindow(w: World, es: seq<Note>, i: nat, j: nat, now: Instant) {
    i < |es| && j < |es| && Opens(w, es[i]) && now > RevealInstant(w, es, i, j) + Window(w, es[i]).value
  }

  /** The phase that the events and the instant `now` call for. */
  ghost predicate Due(w: World, es: seq<Note>, id: string, now: Instant, p: Phase) {
    match p
    case Open => exists i: nat :: Unrevealed(w, es, id, i) && !PastDeadline(w, es[i], now)
    case Void => || (exists i: nat, j: nat :: Misrevealed(w, es, id, i, j))
                 || (exists i: nat :: Unrevealed(w, es, id, i) && PastDeadline(w, es[i], now))
    case Revealed => exists i: nat, j: nat :: Undecided(w, es, id, i, j) && !PastWindow(w, es, i, j, now)
    case TimedOut => || (exists i: nat, j: nat, k: nat :: Expired(w, es, id, i, j, k))
                     || (exists i: nat, j: nat :: Undecided(w, es, id, i, j) && PastWindow(w, es, i, j, now))
    case Answered => exists i: nat, j: nat, k: nat :: Earned(w, es, id, i, j, k)
  }

  /** What a standing comes to at an instant. */
  predicate ComesTo(w: World, es: seq<Note>, s: Standing, now: Instant, p: Phase) {
    match s
    case NoReveal(i) => i < |es| && p == if PastDeadline(w, es[i], now) then Void else Open
    case BadReveal(_, _) => p == Void
    case NoDecision(i, j) => p == if PastWindow(w, es, i, j, now) then TimedOut else Revealed
    case LateAnswer(_, _, _) => p == TimedOut
    case GoodAnswer(_, _, _) => p == Answered
  }

  lemma StandingComesTo(w: World, es: seq<Note>, id: string, s: Standing, now: Instant)
    requires Stands(w, es, id, s)
    ensures CaseOf(w, es, id).Some? && ComesTo(w, es, s, now, Verdict(CaseOf(w, es, id).value, now))
  {
    StandingFixesCase(w, es, id, s);
  }

  lemma PhaseIsDue(w: World, es: seq<Note>, id: string, s: Standing, now: Instant, p: Phase)
    requires Stands(w, es, id, s) && ComesTo(w, es, s, now, p)
    ensures Due(w, es, id, now, p)
  {
    match s
    case NoReveal(i) => assert Unrevealed(w, es, id, i);
    case BadReveal(i, j) => assert Misrevealed(w, es, id, i, j);
    case NoDecision(i, j) => assert Undecided(w, es, id, i, j);
    case LateAnswer(i, j, k) => assert Expired(w, es, id, i, j, k);
    case GoodAnswer(i, j, k) => assert Earned(w, es, id, i, j, k);
  }

  lemma DueStanding(w: World, es: seq<Note>, id: string, now: Instant, p: Phase) returns (s: Standing)
    requires Due(w, es, id, now, p)
    ensures Stands(w, es, id, s) && ComesTo(w, es, s, now, p)
  {
    match p
    case Open =>
      var i: nat :| Unrevealed(w, es, id, i) && !PastDeadline(w, es[i], now);
      s := NoReveal(i);
    case Void =>
      if i: nat, j: nat :| Misrevealed(w, es, id, i, j) {
        s := BadReveal(i, j);
      } else {
        var i: nat :| Unrevealed(w, es, id, i) && PastDeadline(w, es[i], now);
        s := NoReveal(i);
      }
    case Revealed =>
      var i: nat, j: nat :| Undecided(w, es, id, i, j) && !PastWindow(w, es, i, j, now);
      s := NoDecision(i, j);
    case TimedOut =>
      if i: nat, j: nat, k: nat :| Expired(w, es, id, i, j, k) {
        s := LateAnswer(i, j, k);
      } else {
        var i: nat, j: nat :| Undecided(w, es, id, i, j) && PastWindow(w, es, i, j, now);
        s := NoDecision(i, j);
      }
    case Answered =>
      var i: nat, j: nat, k: nat :| Earned(w, es, id, i, j, k);
      s := GoodAnswer(i, j, k);
  }

  /** For every event sequence and every instant, the phase derived after a replay is the one the events call for: open without
      a reveal until the deadline, then void; void after a reveal of another seed or a late one; revealed after a reveal in time
      until the window ends, then timed out; timed out after a late answer; answered when earned. */
  lemma PhaseIff(w: World, es: seq<Note>, id: string, now: Instant, p: Phase)
    ensures CaseOf(w, es, id).Some? && Verdict(CaseOf(w, es, id).value, now) == p <==> Due(w, es, id, now, p)
  {
    if CaseOf(w, es, id).Some? {
      var s := SomeStanding(w, es, id);
      StandingComesTo(w, es, id, s, now);
      PhaseIsDue(w, es, id, s, now, Verdict(CaseOf(w, es, id).value, now));
    }
    if Due(w, es, id, now, p) {
      var s := DueStanding(w, es, id, now, p);
      StandingComesTo(w, es, id, s, now);
    }
  }

  /** A challenge is known exactly when some event opens it acceptably. */
  lemma KnownIff(w: World, es: seq<Note>, id: string)
    ensures CaseOf(w, es, id).Some? <==> exists i: nat :: OpensFirst(w, es, id, i)
  {
    if CaseOf(w, es, id).Some? {
      var s := SomeStanding(w, es, id);
      assert OpensFirst(w, es, id, s.i);
    }
    if i: nat :| OpensFirst(w, es, id, i) { OpenedAt(w, es, id, i); }
  }

  /** The instant asked about: the given one, else the latest readable stamp of a challenge event, else the wall clock. */
  ghost predicate AskedAbout(w: World, es: seq<Note>, asOf: Option<Instant>, wallClock: Instant, now: Instant) {
    match asOf
    case Some(t) => now == t
    case None => GreatestStamp(w, es, Some(now)) || (GreatestStamp(w, es, None) && now == wallClock)
  }

  /** `replay_challenges(chain).derived_phase(id, as_of)` */
  method ReplayedPhase(w: World, es: seq<Note>, id: string, asOf: Option<Instant>, wallClock: Instant)
    returns (phase: Option<Phase>, ghost now: Instant)
    ensures AskedAbout(w, es, asOf, wallClock, now)
    ensures phase.None? <==> forall i: nat :: !OpensFirst(w, es, id, i)
    ensures forall p :: phase == Some(p) <==> Due(w, es, id, now, p)
  {
    var manager := new ChallengeManager(w);
    var issues := manager.ApplyChain(es);
    phase := manager.DerivedPhase(id, asOf, wallClock);
    now := Either(asOf, Either(manager.maxSeen, wallClock));
    LatestSeen(w, es);
    KnownIff(w, es, id);
    forall p ensures phase == Some(p) <==> Due(w, es, id, now, p) { PhaseIff(w, es, id, now, p); }
  }

  // ----- which issue an event raises -----

  ghost predicate Known(w: World, es: seq<Note>, id: string) { exists i: nat :: OpensFirst(w, es, id, i) }

  /** The seed shown by `e` is the one `open` committed to. */
  predicate Matches(w: World, e: Note, open: Note) { CommitmentTo(w, Text(w, e, "seed")) == Text(w, open, "seed_commitment") }

  /** An answer with an unreadable stamp counts as given at the reveal. */
  predicate TooLate(w: World, es: seq<Note>, i: nat, j: nat, e: Note) {
    When(w, e).Some? && PastWindow(w, es, i, j, When(w, e).value)
  }

  /** What is wrong with the event `e` behind the events `es`. */
  ghost predicate Wrong(w: World, es: seq<Note>, e: Note, t: Trouble) {
    var id := IdOf(w, e);
    match t
    case UnknownPhase => !Says(e, "open") && !Says(e, "reveal") && !Says(e, "answer")
    case DuplicateOpen => Says(e, "open") && Known(w, es, id)
    case BadDeadline => Says(e, "open") && !Known(w, es, id) && Deadline(w, e).None?
    case BadWindow => Says(e, "open") && !Known(w, es, id) && Deadline(w, e).Some? && Window(w, e).None?
    case NonPositiveWindow =>
      Says(e, "open") && !Known(w, es, id) && Deadline(w, e).Some? && Window(w, e).Some? && Window(w, e).value <= 0.0
    case RevealBeforeOpen => Says(e, "reveal") && !Known(w, es, id)
    case DuplicateReveal => Says(e, "reveal") && exists i: nat, j: nat :: OpensFirst(w, es, id, i) && RevealsFirst(w, es, id, i, j)
    case RevealByNonChallenger => Says(e, "reveal") && exists i: nat :: Unrevealed(w, es, id, i) && e.body.actor != es[i].body.actor
    case SeedCommitmentMismatch =>
      Says(e, "reveal") && exists i: nat :: Unrevealed(w, es, id, i) && e.body.actor == es[i].body.actor && !Matches(w, e, es[i])
    case LateReveal =>
      Says(e, "reveal") && exists i: nat :: Unrevealed(w, es, id, i) && e.body.actor == es[i].body.actor && Matches(w, e, es[i])
                                            && When(w, e).Some? && PastDeadline(w, es[i], When(w, e).value)
    case AnswerBeforeOpen => Says(e, "answer") && !Known(w, es, id)
    case AnswerOutOfPhase =>
      Says(e, "answer") && (|| (exists i: nat :: Unrevealed(w, es, id, i))
                            || (exists i: nat, j: nat :: Misrevealed(w, es, id, i, j))
                            || (exists i: nat, j: nat, k: nat :: Expired(w, es, id, i, j, k)))
    case AnswerAfterWindow => Says(e, "answer") && exists i: nat, j: nat :: Undecided(w, es, id, i, j) && TooLate(w, es, i, j, e)
    case AnswerByNonTarget =>
      Says(e, "answer") && exists i: nat, j: nat :: Undecided(w, es, id, i, j) && !TooLate(w, es, i, j, e)
                                                    && Target(es[i]) != None && Target(es[i]) != Some(Str(e.body.actor))
  }

  function TroubleOf(w: World, c: Option<Case>, e: Note): Option<Trouble> {
    if Says(e, "open") then
      if c.Some? then Some(DuplicateOpen)
      else if Deadline(w, e).None? then Some(BadDeadline)
      else if Window(w, e).None? then Some(BadWindow)
      else if Window(w, e).value <= 0.0 then Some(NonPositiveWindow)
      else None
    else if Says(e, "reveal") then
      if c.None? then Some(RevealBeforeOpen)
      else if c.value.phase != Open then Some(DuplicateReveal)
      else if e.body.actor != c.value.challenger then Some(RevealByNonChallenger)
      else RevealTrouble(w, c.value, e)
    else if Says(e, "answer") then
      if c.None? then Some(AnswerBeforeOpen)
      else if c.value.phase == Answered then None
      else if c.value.phase != Revealed || c.value.revealedAt.None? then Some(AnswerOutOfPhase)
      else AnswerTrouble(w, c.value, e)
    else Some(UnknownPhase)
  }

  lemma TroubleIsPerCase(w: World, b: Board, e: Note)
    requires Kept(b) && e.body.kind == EventType.Challenge
    ensures Step(w, b, e).issues ==
            match TroubleOf(w, Find(b, IdOf(w, e)), e) case None => b.issues case Some(t) => b.issues + [Issue(e.body.id, t, IdOf(w, e))]
  {
    var id := IdOf(w, e);
    if id in b.cases { assert CaseKept(id, b.cases[id]); }
  }

  lemma OpenTroubleIff(w: World, es: seq<Note>, e: Note, t: Trouble)
    requires Says(e, "open")
    ensures TroubleOf(w, CaseOf(w, es, IdOf(w, e)), e) == Some(t) <==> Wrong(w, es, e, t)
  {
    KnownIff(w, es, IdOf(w, e));
  }

  /** What is wrong with a reveal, or an answer, of a challenge that stands like this. */
  predicate WrongThen(w: World, es: seq<Note>, e: Note, s: Standing, t: Trouble) {
    if Says(e, "reveal") then
      match s
      case NoReveal(i) =>
        && i < |es|
        && (match t
            case RevealByNonChallenger => e.body.actor != es[i].body.actor
            case SeedCommitmentMismatch => e.body.actor == es[i].body.actor && !Matches(w, e, es[i])
            case LateReveal =>
              && e.body.actor == es[i].body.actor && Matches(w, e, es[i])
              && When(w, e).Some? && PastDeadline(w, es[i], When(w, e).value)
            case _ => false)
      case _ => t == DuplicateReveal
    else
      match s
      case NoDecision(i, j) =>
        && i < |es| && j < |es|
        && (match t
            case AnswerAfterWindow => TooLate(w, es, i, j, e)
            case AnswerByNonTarget => !TooLate(w, es, i, j, e) && Target(es[i]) != None && Target(es[i]) != Some(Str(e.body.actor))
            case _ => false)
      case GoodAnswer(_, _, _) => false
      case _ => t == AnswerOutOfPhase
  }

  lemma RevealTroubleOf(w: World, es: seq<Note>, e: Note, s: Standing, t: Trouble, c: Case)
    requires Says(e, "reveal") && Shows(w, es, IdOf(w, e), s, c)
    ensures TroubleOf(w, Some(c), e) == Some(t) <==> WrongThen(w, es, e, s, t)
  {
  }

  lemma AnswerTroubleOf(w: World, es: seq<Note>, e: Note, s: Standing, t: Trouble, c: Case)
    requires Says(e, "answer") && Shows(w, es, IdOf(w, e), s, c)
    ensures TroubleOf(w, Some(c), e) == Some(t) <==> WrongThen(w, es, e, s, t)
  {
    if s.NoDecision? {
      assert AnswerAt(w, c, e) > AnswerBy(c) <==> TooLate(w, es, s.i, s.j, e);
    }
  }

  lemma TroubleThen(w: World, es: seq<Note>, e: Note, s: Standing, t: Trouble)
    requires (Says(e, "reveal") || Says(e, "answer")) && Stands(w, es, IdOf(w, e), s)
    ensures TroubleOf(w, CaseOf(w, es, IdOf(w, e)), e) == Some(t) <==> WrongThen(w, es, e, s, t)
  {
    StandingFixesCase(w, es, IdOf(w, e), s);
    if Says(e, "reveal") {
      RevealTroubleOf(w, es, e, s, t, CaseOf(w, es, IdOf(w, e)).value);
    } else {
      AnswerTroubleOf(w, es, e, s, t, CaseOf(w, es, IdOf(w, e)).value);
    }
  }

  lemma WrongFromStanding(w: World, es: seq<Note>, e: Note, s: Standing, t: Trouble)
    requires (Says(e, "reveal") || Says(e, "answer")) && Stands(w, es, IdOf(w, e), s) && WrongThen(w, es, e, s, t)
    ensures Wrong(w, es, e, t)
  {
    var id := IdOf(w, e);
    match s
    case NoReveal(i) => assert Unrevealed(w, es, id, i);
    case BadReveal(i, j) => assert Misrevealed(w, es, id, i, j) && RevealsFirst(w, es, id, i, j);
    case NoDecision(i, j) => assert Undecided(w, es, id, i, j) && RevealsFirst(w, es, id, i, j);
    case LateAnswer(i, j, k) => assert Expired(w, es, id, i, j, k) && RevealsFirst(w, es, id, i, j);
    case GoodAnswer(i, j, k) => assert Earned(w, es, id, i, j, k) && RevealsFirst(w, es, id, i, j);
  }

  lemma RevealedStanding(w: World, es: seq<Note>, id: string, i: nat, j: nat) returns (s: Standing)
    requires OpensFirst(w, es, id, i) && RevealsFirst(w, es, id, i, j)
    ensures Stands(w, es, id, s) && !s.NoReveal?
  {
    if RevealsInTime(w, es, id, i, j) {
      s := ShownStanding(w, es, id, i, j);
    } else {
      s := BadReveal(i, j);
    }
  }

  lemma WrongRevealStanding(w: World, es: seq<Note>, e: Note, t: Trouble) returns (s: Standing)
    requires Says(e, "reveal") && Known(w, es, IdOf(w, e)) && Wrong(w, es, e, t)
    ensures Stands(w, es, IdOf(w, e), s) && WrongThen(w, es, e, s, t)
  {
    var id := IdOf(w, e);
    match t
    case DuplicateReveal =>
      var i: nat, j: nat :| OpensFirst(w, es, id, i) && RevealsFirst(w, es, id, i, j);
      s := RevealedStanding(w, es, id, i, j);
    case RevealByNonChallenger =>
      var i: nat :| Unrevealed(w, es, id, i) && e.body.actor != es[i].body.actor;
      s := NoReveal(i);
    case SeedCommitmentMismatch =>
      var i: nat :| Unrevealed(w, es, id, i) && e.body.actor == es[i].body.actor && !Matches(w, e, es[i]);
      s := NoReveal(i);
    case LateReveal =>
      var i: nat :| Unrevealed(w, es, id, i) && e.body.actor == es[i].body.actor && Matches(w, e, es[i])
                    && When(w, e).Some? && PastDeadline(w, es[i], When(w, e).value);
      s := NoReveal(i);
    case _ =>
  }

  lemma WrongAnswerStanding(w: World, es: seq<Note>, e: Note, t: Trouble) returns (s: Standing)
    requires Says(e, "answer") && Known(w, es, IdOf(w, e)) && Wrong(w, es, e, t)
    ensures Stands(w, es, IdOf(w, e), s) && WrongThen(w, es, e, s, t)
  {
    var id := IdOf(w, e);
    match t
    case AnswerOutOfPhase =>
      if i: nat :| Unrevealed(w, es, id, i) {
        s := NoReveal(i);
      } else if i: nat, j: nat :| Misrevealed(w, es, id, i, j) {
        s := BadReveal(i, j);
      } else {
        var i: nat, j: nat, k: nat :| Expired(w, es, id, i, j, k);
        s := LateAnswer(i, j, k);
      }
    case AnswerAfterWindow =>
      var i: nat, j: nat :| Undecided(w, es, id, i, j) && TooLate(w, es, i, j, e);
      s := NoDecision(i, j);
    case AnswerByNonTarget =>
      var i: nat, j: nat :| Undecided(w, es, id, i, j) && !TooLate(w, es, i, j, e)
                            && Target(es[i]) != None && Target(es[i]) != Some(Str(e.body.actor));
      s := NoDecision(i, j);
    case _ =>
  }

  lemma RevealTroubleIff(w: World, es: seq<Note>, e: Note, t: Trouble)
    requires Says(e, "reveal")
    ensures TroubleOf(w, CaseOf(w, es, IdOf(w, e)), e) == Some(t) <==> Wrong(w, es, e, t)
  {
    KnownIff(w, es, IdOf(w, e));
    if CaseOf(w, es, IdOf(w, e)).Some? {
      var s := SomeStanding(w, es, IdOf(w, e));
      TroubleThen(w, es, e, s, t);
      if WrongThen(w, es, e, s, t) { WrongFromStanding(w, es, e, s, t); }
      if Wrong(w, es, e, t) {
        var r := WrongRevealStanding(w, es, e, t);
        TroubleThen(w, es, e, r, t);
      }
    }
  }

  lemma AnswerTroubleIff(w: World, es: seq<Note>, e: Note, t: Trouble)
    requires Says(e, "answer")
    ensures TroubleOf(w, CaseOf(w, es, IdOf(w, e)), e) == Some(t) <==> Wrong(w, es, e, t)
  {
    KnownIff(w, es, IdOf(w, e));
    if CaseOf(w, es, IdOf(w, e)).Some? {
      var s := SomeStanding(w, es, IdOf(w, e));
      TroubleThen(w, es, e, s, t);
      if WrongThen(w, es, e, s, t) { WrongFromStanding(w, es, e, s, t); }
      if Wrong(w, es, e, t) {
        var r := WrongAnswerStanding(w, es, e, t);
        TroubleThen(w, es, e, r, t);
      }
    }
  }

  lemma TroubleIff(w: World, es: seq<Note>, e: Note, t: Trouble)
    requires e.body.kind == EventType.Challenge
    ensures TroubleOf(w, CaseOf(w, es, IdOf(w, e)), e) == Some(t) <==> Wrong(w, es, e, t)
  {
    if Says(e, "open") {
      OpenTroubleIff(w, es, e, t);
    } else if Says(e, "reveal") {
      RevealTroubleIff(w, es, e, t);
    } else if Says(e, "answer") {
      AnswerTroubleIff(w, es, e, t);
    }
  }

  /** A challenge event raises an issue exactly when something is wrong with it, and the one that says what; other events raise
      none. */
  lemma IssueIff(w: World, es: seq<Note>, e: Note, t: Trouble)
    ensures Replay(w, es + [e]).issues == Replay(w, es).issues + [Issue(e.body.id, t, IdOf(w, e))] <==>
              e.body.kind == EventType.Challenge && Wrong(w, es, e, t)
    ensures Replay(w, es + [e]).issues == Replay(w, es).issues <==>
              e.body.kind == EventType.Challenge ==> forall x :: !Wrong(w, es, e, x)
  {
    assert (es + [e])[..|es + [e]| - 1] == es;
    if e.body.kind == EventType.Challenge {
      TroubleIsPerCase(w, Replay(w, es), e);
      forall x ensures TroubleOf(w, CaseOf(w, es, IdOf(w, e)), e) == Some(x) <==> Wrong(w, es, e, x) { TroubleIff(w, es, e, x); }
      IssueBehind(Replay(w, es).issues, e, t, TroubleOf(w, CaseOf(w, es, IdOf(w, e)), e), IdOf(w, e));
    }
  }

  lemma IssueBehind(issues: seq<Issue>, e: Note, t: Trouble, raised: Option<Trouble>, id: string)
    ensures var after := match raised case None => issues case Some(x) => issues + [Issue(e.body.id, x, id)];
      && (after == issues + [Issue(e.body.id, t, id)] <==> raised == Some(t))
      && (after == issues <==> raised == None)
  {
    if raised.Some? {
      assert (issues + [Issue(e.body.id, raised.value, id)])[|issues|] == Issue(e.body.id, raised.value, id);
      assert (issues + [Issue(e.body.id, t, id)])[|issues|] == Issue(e.body.id, t, id);
    }
  }

  // ----- reading an open -----

  /** An open is acceptable exactly when its deadline is a readable timestamp and its window a positive number, or a string that
      reads as one; a truth value is no window. */
  lemma OpensIff(w: World, e: Note)
    ensures Opens(w, e) <==>
              && (exists s :: Field(e, "reveal_deadline") == Some(Str(s)) && w.parse(s).Some?)
              && (|| (exists x :: Field(e, "response_window_s") == Some(Num(x)) && x > 0.0)
                  || (exists s :: Field(e, "response_window_s") == Some(Str(s)) && w.number(s).Some? && w.number(s).value > 0.0))
  {
  }

  // ----- the metrics -----

  lemma OneOpen(w: World, es: seq<Note>, id: string, i: nat)
    requires OpensFirst(w, es, id, i)
    ensures forall x: nat :: OpensFirst(w, es, id, x) ==> x == i
  {
  }

  /** The challenge concerns the executor: every one when none is named, else those that target it, or that target nobody and were
      answered by it. */
  ghost predicate Concerns(w: World, es: seq<Note>, id: string, executor: Option<string>) {
    executor.Some? ==>
      exists i: nat ::
        && OpensFirst(w, es, id, i)
        && (if Target(es[i]).Some? then Target(es[i]).value == Str(executor.value)
            else exists j: nat, k: nat :: Earned(w, es, id, i, j, k) && es[k].body.actor == executor.value)
  }

  /** What counts for the eligibility of a case, by standing. */
  predicate Answerer(es: seq<Note>, s: Standing, c: Case) {
    && s.i < |es| && c.target == Target(es[s.i])
    && (match s
        case GoodAnswer(_, _, k) => k < |es| && c.answerActor == Some(es[k].body.actor)
        case _ => c.answerActor == None)
  }

  lemma StandingFixesAnswerer(w: World, es: seq<Note>, id: string, s: Standing)
    requires Stands(w, es, id, s)
    ensures CaseOf(w, es, id).Some? && Answerer(es, s, CaseOf(w, es, id).value) && OpensFirst(w, es, id, s.i)
  {
    match s
    case NoReveal(i) => UnrevealedCase(w, es, id, i);
    case BadReveal(i, j) => MisrevealedCase(w, es, id, i, j);
    case NoDecision(i, j) => UndecidedCase(w, es, id, i, j);
    case LateAnswer(i, j, k) => ExpiredCase(w, es, id, i, j, k);
    case GoodAnswer(i, j, k) => EarnedCase(w, es, id, i, j, k);
  }

  /** Whoever earned the answer is the one recorded. */
  lemma AnsweredBy(w: World, es: seq<Note>, id: string, i: nat, actor: string)
    requires OpensFirst(w, es, id, i)
    ensures CaseOf(w, es, id).Some?
    ensures CaseOf(w, es, id).value.answerActor == Some(actor) <==> exists j: nat, k: nat :: Earned(w, es, id, i, j, k) && es[k].body.actor == actor
  {
    OpenedAt(w, es, id, i);
    var s := SomeStanding(w, es, id);
    StandingFixesAnswerer(w, es, id, s);
    OneOpen(w, es, id, i);
    if s.GoodAnswer? { assert Earned(w, es, id, i, s.j, s.k); }
    if j: nat, k: nat :| Earned(w, es, id, i, j, k) && es[k].body.actor == actor { EarnedCase(w, es, id, i, j, k); }
  }

  lemma ConcernsIff(w: World, es: seq<Note>, id: string, executor: Option<string>)
    requires CaseOf(w, es, id).Some?
    ensures Eligible(CaseOf(w, es, id).value, executor) <==> Concerns(w, es, id, executor)
  {
    var s := SomeStanding(w, es, id);
    StandingFixesAnswerer(w, es, id, s);
    OneOpen(w, es, id, s.i);
    if executor.Some? { AnsweredBy(w, es, id, s.i, executor.value); }
  }

  /** The known challenges that concern the executor. */
  ghost function Concerned(w: World, es: seq<Note>, executor: Option<string>): set<string> {
    set e | e in es && Known(w, es, IdOf(w, e)) && Concerns(w, es, IdOf(w, e), executor) :: IdOf(w, e)
  }

  ghost function DueAmong(w: World, es: seq<Note>, ids: set<string>, now: Instant, p: Phase): set<string> {
    set id | id in ids && Due(w, es, id, now, p)
  }

  ghost predicate OpenedFor(w: World, es: seq<Note>, id: string, concept: string) {
    exists i: nat :: OpensFirst(w, es, id, i) && es[i].body.concept == concept
  }

  ghost function OfConcept(w: World, es: seq<Note>, ids: set<string>, concept: string): set<string> {
    set id | id in ids && OpenedFor(w, es, id, concept)
  }

  /** Each count is the number of the challenges due in that phase; the rate is the share of the answered among the answered and
      the timed out, and missing when there are none of either. */
  ghost predicate BucketSays(w: World, es: seq<Note>, ids: set<string>, now: Instant, b: Bucket) {
    && b.total == |ids| && RateSays(b)
    && CountsAre(b.counts, DueCount(w, es, ids, now, Open), DueCount(w, es, ids, now, Revealed), DueCount(w, es, ids, now, Answered),
                 DueCount(w, es, ids, now, TimedOut), DueCount(w, es, ids, now, Void))
  }

  ghost function DueCount(w: World, es: seq<Note>, ids: set<string>, now: Instant, p: Phase): nat { |DueAmong(w, es, ids, now, p)| }

  predicate CountsAre(c: Counts, open: nat, revealed: nat, answered: nat, timedOut: nat, void: nat) {
    c.open == open && c.revealed == revealed && c.answered == answered && c.timedOut == timedOut && c.void == void
  }

  predicate RateSays(b: Bucket) {
    match b.rate
    case None => b.counts.answered == 0 && b.counts.timedOut == 0
    case Some(x) => b.counts.answered + b.counts.timedOut > 0 && x * (b.counts.answered + b.counts.timedOut) as real == b.counts.answered as real
  }

  lemma InPhaseIsDue(w: World, es: seq<Note>, ids: set<string>, now: Instant, p: Phase)
    requires ids <= Replay(w, es).cases.Keys
    ensures InPhase(Replay(w, es).cases, ids, now, p) == DueAmong(w, es, ids, now, p)
  {
    forall id | id in ids ensures Verdict(Replay(w, es).cases[id], now) == p <==> Due(w, es, id, now, p) { PhaseIff(w, es, id, now, p); }
  }

  lemma CountSays(w: World, es: seq<Note>, ids: set<string>, now: Instant, c: Counts, p: Phase)
    requires ids <= Replay(w, es).cases.Keys && CountsOf(Replay(w, es).cases, ids, now, c)
    ensures Of(c, p) == DueCount(w, es, ids, now, p)
  {
    InPhaseIsDue(w, es, ids, now, p);
  }

  lemma CountsSay(w: World, es: seq<Note>, ids: set<string>, now: Instant, c: Counts)
    requires ids <= Replay(w, es).cases.Keys && CountsOf(Replay(w, es).cases, ids, now, c)
    ensures CountsAre(c, DueCount(w, es, ids, now, Open), DueCount(w, es, ids, now, Revealed), DueCount(w, es, ids, now, Answered),
                      DueCount(w, es, ids, now, TimedOut), DueCount(w, es, ids, now, Void))
  {
    CountSays(w, es, ids, now, c, Open);
    CountSays(w, es, ids, now, c, Revealed);
    CountSays(w, es, ids, now, c, Answered);
    CountSays(w, es, ids, now, c, TimedOut);
    CountSays(w, es, ids, now, c, Void);
  }

  lemma SumsSay(w: World, es: seq<Note>, ids: set<string>, now: Instant, b: Bucket)
    requires ids <= Replay(w, es).cases.Keys && Sums(Replay(w, es).cases, ids, now, b)
    ensures BucketSays(w, es, ids, now, b)
  {
    CountsSay(w, es, ids, now, b.counts);
    RateIsShare(b);
  }

  lemma RateIsShare(b: Bucket)
    requires b.rate == Rate(b.counts)
    ensures RateSays(b)
  {
  }

  lemma ConceptIs(w: World, es: seq<Note>, id: string, concept: string)
    requires CaseOf(w, es, id).Some?
    ensures CaseOf(w, es, id).value.concept == concept <==> OpenedFor(w, es, id, concept)
  {
    KnownIff(w, es, id);
    var i: nat :| OpensFirst(w, es, id, i);
    OneOpen(w, es, id, i);
    ConceptOfOpen(w, es, id, i);
  }

  lemma ConceptOfOpen(w: World, es: seq<Note>, id: string, i: nat)
    requires OpensFirst(w, es, id, i)
    ensures CaseOf(w, es, id).Some? && CaseOf(w, es, id).value.concept == es[i].body.concept
  {
    OpenedAt(w, es, id, i);
  }

  lemma EligibleAreConcerned(w: World, es: seq<Note>, executor: Option<string>)
    ensures EligibleIds(Replay(w, es).cases, executor) == Concerned(w, es, executor)
  {
    forall id ensures id in EligibleIds(Replay(w, es).cases, executor) <==> id in Concerned(w, es, executor) {
      KnownIff(w, es, id);
      if CaseOf(w, es, id).Some? { ConcernsIff(w, es, id, executor); }
      if id in EligibleIds(Replay(w, es).cases, executor) {
        var i: nat :| OpensFirst(w, es, id, i);
        assert es[i] in es && IdOf(w, es[i]) == id;
      }
    }
  }

  lemma GroupIsOfConcept(w: World, es: seq<Note>, ids: set<string>, concept: string)
    requires ids <= Replay(w, es).cases.Keys
    ensures Group(Replay(w, es).cases, ids, concept) == OfConcept(w, es, ids, concept)
  {
    forall id | id in ids ensures Replay(w, es).cases[id].concept == concept <==> OpenedFor(w, es, id, concept) { ConceptIs(w, es, id, concept); }
  }

  lemma GroupSays(w: World, es: seq<Note>, ids: set<string>, now: Instant, groups: map<string, Bucket>, concept: string)
    requires ids <= Replay(w, es).cases.Keys && Grouped(Replay(w, es).cases, ids, now, groups)
    ensures concept in groups <==> OfConcept(w, es, ids, concept) != {}
    ensures concept in groups ==> BucketSays(w, es, OfConcept(w, es, ids, concept), now, groups[concept])
  {
    var cases := Replay(w, es).cases;
    GroupIsOfConcept(w, es, ids, concept);
    if concept in groups {
      var id :| id in ids && cases[id].concept == concept;
      assert id in Group(cases, ids, concept);
      SumsSay(w, es, Group(cases, ids, concept), now, groups[concept]);
    }
    assert forall id :: id in ids && cases[id].concept == concept ==> concept in ConceptsOf(cases, ids);
  }

  /** One bucket for each capability that has one of these challenges, over those of the capability. */
  ghost predicate GroupsSay(w: World, es: seq<Note>, ids: set<string>, now: Instant, groups: map<string, Bucket>) {
    && (forall k :: k in groups <==> OfConcept(w, es, ids, k) != {})
    && forall k :: k in groups ==> BucketSays(w, es, OfConcept(w, es, ids, k), now, groups[k])
  }

  lemma AllGroupsSay(w: World, es: seq<Note>, ids: set<string>, now: Instant, groups: map<string, Bucket>)
    requires ids <= Replay(w, es).cases.Keys && Grouped(Replay(w, es).cases, ids, now, groups)
    ensures GroupsSay(w, es, ids, now, groups)
  {
    forall k
      ensures k in groups <==> OfConcept(w, es, ids, k) != {}
      ensures k in groups ==> BucketSays(w, es, OfConcept(w, es, ids, k), now, groups[k])
    {
      GroupSays(w, es, ids, now, groups, k);
    }
  }

  /** `replay_challenges(chain).response_metrics(executor, as_of)` */
  method ReplayedMetrics(w: World, es: seq<Note>, executor: Option<string>, asOf: Option<Instant>, wallClock: Instant)
    returns (overall: Bucket, byCapability: map<string, Bucket>, ghost now: Instant)
    ensures AskedAbout(w, es, asOf, wallClock, now)
    ensures BucketSays(w, es, Concerned(w, es, executor), now, overall)
    ensures GroupsSay(w, es, Concerned(w, es, executor), now, byCapability)
  {
    var manager := new ChallengeManager(w);
    var issues := manager.ApplyChain(es);
    overall, byCapability := ResponseMetrics(manager, executor, asOf, wallClock);
    now := Either(asOf, Either(manager.maxSeen, wallClock));
    LatestSeen(w, es);
    EligibleAreConcerned(w, es, executor);
    SumsSay(w, es, Concerned(w, es, executor), now, overall);
    AllGroupsSay(w, es, Concerned(w, es, executor), now, byCapability);
  }
}
