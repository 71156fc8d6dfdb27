/** The challenge manager: states updated in place, one event at a time (adl_lite/challenge.py). */
module ChallengeManagers {
  import opened Basics
  import opened Events
  import opened ChallengeRules

  class ChallengeState {
    const id: string
    const concept: string
    const challenger: string
    const commitment: string
    const deadline: Instant
    const window: real
    const openedAt: Instant
    const target: Option<Json>
    var phase: Phase
    var seed: Option<string>
    var revealedAt: Option<Instant>
    var answerActor: Option<string>
    var answeredAt: Option<Instant>
    var output: Option<string>
    var voidReason: Option<VoidReason>

    function View(): Case
      reads this
    {
      Case(id, concept, challenger, commitment, deadline, window, openedAt, target, phase, seed, revealedAt, answerActor,
           answeredAt, output, voidReason)
    }

    constructor (w: World, e: Note)
      requires Opens(w, e)
      ensures View() == NewCase(w, e)
    {
      id, concept, challenger := IdOf(w, e), e.body.concept, e.body.actor;
      commitment, deadline, window := Text(w, e, "seed_commitment"), Deadline(w, e).value, Window(w, e).value;
      openedAt, target := Either(When(w, e), Deadline(w, e).value), Target(e);
      phase, seed, revealedAt, answerActor, answeredAt, output, voidReason := Open, None, None, None, None, None, None;
    }

    /** A reveal by the challenger of this open challenge. */
    method TakeReveal(w: World, e: Note) returns (trouble: Option<Trouble>)
      modifies this
      ensures View() == Reveal(w, old(View()), e) && trouble == RevealTrouble(w, old(View()), e)
    {
      var text := Text(w, e, "seed");
      if CommitmentTo(w, text) != commitment {
        phase, voidReason := Void, Some(CommitmentMismatch);
        return Some(SeedCommitmentMismatch);
      }
      var at := Either(When(w, e), deadline);
      if at > deadline {
        phase, voidReason := Void, Some(RevealAfterDeadline);
        return Some(LateReveal);
      }
      phase, seed, revealedAt := Revealed, Some(text), Some(at);
      trouble := None;
    }

    /** An answer to this revealed challenge. */
    method TakeAnswer(w: World, e: Note) returns (trouble: Option<Trouble>)
      requires revealedAt.Some?
      modifies this
      ensures View() == Answer(w, old(View()), e) && trouble == AnswerTrouble(w, old(View()), e)
    {
      var at := Either(When(w, e), revealedAt.value);
      if at > revealedAt.value + window {
        phase := TimedOut;
        return Some(AnswerAfterWindow);
      }
      if target != None && target != Some(Str(e.body.actor)) {
        return Some(AnswerByNonTarget);
      }
      phase, answerActor, answeredAt := Answered, Some(e.body.actor), Some(at);
      output := Some(Text(w, e, "output_commitment"));
      trouble := None;
    }
  }

  /** The manager's states as values. */
  function Cases(states: map<string, ChallengeState>): map<string, Case>
    reads states.Values
  {
    map id | id in states :: InMap(states, id).View()
  }

  function InMap(states: map<string, ChallengeState>, id: string): (c: ChallengeState)
    requires id in states
    ensures c in states.Values
  {
    states[id]
  }

  /** No two ids share a state, because a state carries its id. */
  ghost predicate Filed(states: map<string, ChallengeState>)
    reads states.Values
  {
    forall id :: id in states ==> InMap(states, id).id == id
  }

  /** At most one issue behind the old ones. */
  predicate OneMoreIssue(b: Board, after: Board) {
    |b.issues| <= |after.issues| <= |b.issues| + 1 && after.issues[..|b.issues|] == b.issues
  }

  lemma OpenRaises(w: World, b: Board, e: Note)
    requires Kept(b)
    ensures OneMoreIssue(b, StepOpen(w, b, e))
  {
  }

  lemma RevealRaises(w: World, b: Board, e: Note)
    requires Kept(b)
    ensures OneMoreIssue(b, StepReveal(w, b, e))
  {
  }

  lemma AnswerRaises(w: World, b: Board, e: Note)
    requires Kept(b)
    ensures OneMoreIssue(b, StepAnswer(w, b, e))
  {
  }

  lemma RaisesAtMostOne(w: World, b: Board, e: Note)
    requires Kept(b)
    ensures OneMoreIssue(b, Step(w, b, e))
  {
    var seen := b.(maxSeen := Later(b.maxSeen, When(w, e)));
    OpenRaises(w, seen, e);
    RevealRaises(w, seen, e);
    AnswerRaises(w, seen, e);
  }

  class ChallengeManager {
    const w: World
    var challenges: map<string, ChallengeState>
    var issues: seq<Issue>
    var maxSeen: Option<Instant>

    function View(): Board
      reads this, challenges.Values
    {
      Board(Cases(challenges), issues, maxSeen)
    }

    ghost predicate Valid()
      reads this, challenges.Values
    {
      Filed(challenges) && Kept(View())
    }

    constructor (w: World)
      ensures Valid() && View() == EMPTY && this.w == w
    {
      this.w := w;
      challenges, issues, maxSeen := map[], [], None;
    }

    /** Fold one event in; returns the issues it raised. */
    method Apply(e: Note) returns (raised: seq<Issue>)
      requires Valid()
      modifies this, challenges.Values
      ensures Valid() && View() == Step(w, old(View()), e)
      ensures fresh(challenges.Values - old(challenges.Values))
      ensures issues == old(issues) + raised && |raised| <= 1
    {
      if e.body.kind != EventType.Challenge { return []; }
      ghost var was := View();
      var at := When(w, e);
      if at.Some? && (maxSeen.None? || at.value > maxSeen.value) { maxSeen := at; }
      ghost var now := View();
      assert now == was.(maxSeen := Later(was.maxSeen, When(w, e)));
      var before := |issues|;
      if Says(e, "open") {
        ApplyOpen(e);
      } else if Says(e, "reveal") {
        ApplyReveal(e);
      } else if Says(e, "answer") {
        ApplyAnswer(e);
      } else {
        Report(e, UnknownPhase, IdOf(w, e));
      }
      assert View() == Step(w, was, e);
      RaisesAtMostOne(w, was, e);
      raised := issues[before..];
    }

    method Report(e: Note, trouble: Trouble, id: string)
      requires Valid()
      modifies this`issues
      ensures Valid() && View() == Raise(old(View()), e, trouble, id)
    {
      issues := issues + [Issue(e.body.id, trouble, id)];
    }

    method ApplyOpen(e: Note)
      requires Valid()
      modifies this
      ensures Valid() && View() == StepOpen(w, old(View()), e)
      ensures fresh(challenges.Values - old(challenges.Values))
    {
      var id := IdOf(w, e);
      if id in challenges {
        Report(e, DuplicateOpen, id);
        return;
      }
      if Deadline(w, e).None? {
        Report(e, BadDeadline, id);
        return;
      }
      var window := Window(w, e);
      if window.None? {
        Report(e, BadWindow, id);
        return;
      }
      if window.value <= 0.0 {
        Report(e, NonPositiveWindow, id);
        return;
      }
      FileNew(e, id);
    }

    method FileNew(e: Note, id: string)
      requires Valid() && id == IdOf(w, e) && id !in challenges
      requires Deadline(w, e).Some? && Window(w, e).Some? && Window(w, e).value > 0.0
      modifies this`challenges
      ensures Valid() && View() == old(View()).(cases := old(View()).cases[id := NewCase(w, e)])
      ensures fresh(challenges.Values - old(challenges.Values))
    {
      var state := new ChallengeState(w, e);
      challenges := challenges[id := state];
      assert Cases(challenges) == old(Cases(challenges))[id := NewCase(w, e)];
    }

    method ApplyReveal(e: Note)
      requires Valid()
      modifies this`issues, challenges.Values
      ensures Valid() && View() == StepReveal(w, old(View()), e)
    {
      var id := IdOf(w, e);
      if id !in challenges {
        Report(e, RevealBeforeOpen, id);
        return;
      }
      var state := challenges[id];
      assert forall k :: k in challenges && k != id ==> InMap(challenges, k) != state;
      if state.phase != Open {
        Report(e, DuplicateReveal, id);
        return;
      }
      if e.body.actor != state.challenger {
        Report(e, RevealByNonChallenger, id);
        return;
      }
      var trouble := state.TakeReveal(w, e);
      assert Cases(challenges) == old(Cases(challenges))[id := state.View()];
      if trouble.Some? { Report(e, trouble.value, id); }
    }

    method ApplyAnswer(e: Note)
      requires Valid()
      modifies this`issues, challenges.Values
      ensures Valid() && View() == StepAnswer(w, old(View()), e)
    {
      var id := IdOf(w, e);
      if id !in challenges {
        Report(e, AnswerBeforeOpen, id);
        return;
      }
      var state := challenges[id];
      assert forall k :: k in challenges && k != id ==> InMap(challenges, k) != state;
      if state.phase == Answered { return; }
      if state.phase != Revealed {
        Report(e, AnswerOutOfPhase, id);
        return;
      }
      assert CaseKept(id, View().cases[id]);
      var trouble := state.TakeAnswer(w, e);
      assert Cases(challenges) == old(Cases(challenges))[id := state.View()];
      if trouble.Some? { Report(e, trouble.value, id); }
    }

    /** Forget everything and replay; the result depends on the events alone. */
    method ApplyChain(es: seq<Note>) returns (raised: seq<Issue>)
      requires Valid()
      modifies this
      ensures Valid() && View() == Replay(w, es) && raised == issues
      ensures fresh(challenges.Values)
    {
      challenges, issues, maxSeen := map[], [], None;
      for i := 0 to |es|
        invariant Valid() && View() == Replay(w, es[..i])
        invariant fresh(challenges.Values)
      {
        assert es[..i + 1][..i] == es[..i];
        var _ := Apply(es[i]);
      }
      assert es[..|es|] == es;
      raised := issues;
    }

    /** The phase at an instant; the latest stamp seen, or the wall clock, when none is given. */
    method DerivedPhase(id: string, asOf: Option<Instant>, wallClock: Instant) returns (phase: Option<Phase>)
      requires Valid()
      ensures phase.Some? <==> id in View().cases
      ensures phase.Some? ==> phase.value == Verdict(View().cases[id], Either(asOf, Either(maxSeen, wallClock)))
    {
      if id !in challenges { return None; }
      var state := challenges[id];
      assert CaseKept(id, View().cases[id]);
      var now := Either(asOf, Either(maxSeen, wallClock));
      if Terminal(state.phase) { return Some(state.phase); }
      if state.phase == Open && now > state.deadline { return Some(Void); }
      if state.phase == Revealed {
        if now > state.revealedAt.value + state.window { return Some(TimedOut); }
      }
      phase := Some(state.phase);
    }
  }
}
