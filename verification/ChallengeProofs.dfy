/** What a replay of challenge events means, and when a verdict is final (adl_lite/challenge.py). */
module ChallengeProofs {
  import opened Basics
  import opened Events
  import opened ChallengeRules

  // ----- the first event of a kind -----

  /** The first position from `from` on whose event satisfies `p`; the length when there is none. */
  function First(es: seq<Note>, from: nat, p: Note -> bool): (r: nat)
    requires from <= |es|
    ensures from <= r <= |es| && (r < |es| ==> p(es[r]))
    ensures forall i :: from <= i < r ==> !p(es[i])
    decreases |es| - from
  {
    if from == |es| || p(es[from]) then from else First(es, from + 1, p)
  }

  lemma {:induction false} FirstSnoc(es: seq<Note>, e: Note, from: nat, p: Note -> bool)
    requires from <= |es|
    ensures First(es + [e], from, p) == if First(es, from, p) < |es| then First(es, from, p) else if p(e) then |es| else |es| + 1
    decreases |es| - from
  {
    if from < |es| && !p(es[from]) { FirstSnoc(es, e, from + 1, p); }
  }

  // ----- what a replay means, without replaying -----

  function OpenOf(w: World, id: string): Note -> bool {
    (e: Note) => Says(e, "open") && IdOf(w, e) == id && Opens(w, e)
  }

  function RevealOf(w: World, id: string, challenger: string): Note -> bool {
    (e: Note) => Says(e, "reveal") && IdOf(w, e) == id && e.body.actor == challenger
  }

  /** An answer that settles the revealed case `c`: it is late, or it comes from whoever may answer. */
  function DecisionOf(w: World, c: Case): Note -> bool {
    (e: Note) => c.revealedAt.Some? && Says(e, "answer") && IdOf(w, e) == c.id && (AnswerAt(w, c, e) > AnswerBy(c) || ByTarget(c, e))
  }

  /** Three events decide a challenge: the first acceptable open, the first reveal after it by its own challenger, and
      the first answer after that which is late or rightful. Everything else leaves it alone. */
  function Declared(w: World, es: seq<Note>, id: string): Option<Case> {
    var i := First(es, 0, OpenOf(w, id));
    if i == |es| then None else Some(AfterOpen(w, es, i, NewCase(w, es[i])))
  }

  function AfterOpen(w: World, es: seq<Note>, i: nat, made: Case): Case
    requires i < |es|
  {
    var j := First(es, i + 1, RevealOf(w, made.id, made.challenger));
    if j == |es| then made else AfterReveal(w, es, j, Reveal(w, made, es[j]))
  }

  function AfterReveal(w: World, es: seq<Note>, j: nat, shown: Case): Case
    requires j < |es|
  {
    if shown.phase != Revealed || shown.revealedAt.None? then shown
    else
      var k := First(es, j + 1, DecisionOf(w, shown));
      if k == |es| then shown else Answer(w, shown, es[k])
  }

  function Find(b: Board, id: string): Option<Case> { if id in b.cases then Some(b.cases[id]) else None }

  /** What one event does to the case `id`. */
  function StepCase(w: World, c: Option<Case>, id: string, e: Note): Option<Case> {
    if c.None? then (if OpenOf(w, id)(e) then Some(NewCase(w, e)) else None) else Some(Advance(w, c.value, e))
  }

  function Advance(w: World, c: Case, e: Note): Case {
    if c.phase == Open && RevealOf(w, c.id, c.challenger)(e) then Reveal(w, c, e)
    else if c.phase == Revealed && DecisionOf(w, c)(e) then Answer(w, c, e)
    else c
  }

  lemma OpenIsPerCase(w: World, b: Board, e: Note, id: string)
    requires Kept(b) && Says(e, "open")
    ensures Find(StepOpen(w, b, e), id) == StepCase(w, Find(b, id), id, e)
  {
  }

  lemma RevealIsPerCase(w: World, b: Board, e: Note, id: string)
    requires Kept(b) && Says(e, "reveal")
    ensures Find(StepReveal(w, b, e), id) == StepCase(w, Find(b, id), id, e)
  {
    if id in b.cases { assert CaseKept(id, b.cases[id]); }
  }

  lemma AnswerIsPerCase(w: World, b: Board, e: Note, id: string)
    requires Kept(b) && Says(e, "answer")
    ensures Find(StepAnswer(w, b, e), id) == StepCase(w, Find(b, id), id, e)
  {
    if id in b.cases { assert CaseKept(id, b.cases[id]); }
  }

  lemma StepIsPerCase(w: World, b: Board, e: Note, id: string)
    requires Kept(b)
    ensures Find(Step(w, b, e), id) == StepCase(w, Find(b, id), id, e)
  {
    var seen := b.(maxSeen := Later(b.maxSeen, When(w, e)));
    if Says(e, "open") {
      OpenIsPerCase(w, seen, e, id);
    } else if Says(e, "reveal") {
      RevealIsPerCase(w, seen, e, id);
    } else if Says(e, "answer") {
      AnswerIsPerCase(w, seen, e, id);
    }
  }

  lemma ReplaySnoc(w: World, es: seq<Note>, e: Note, id: string)
    ensures Find(Replay(w, es + [e]), id) == StepCase(w, Find(Replay(w, es), id), id, e)
  {
    assert (es + [e])[..|es + [e]| - 1] == es;
    StepIsPerCase(w, Replay(w, es), e, id);
  }

  lemma DeclaredSnoc(w: World, es: seq<Note>, e: Note, id: string)
    ensures Declared(w, es + [e], id) == StepCase(w, Declared(w, es, id), id, e)
  {
    FirstSnoc(es, e, 0, OpenOf(w, id));
    var i := First(es, 0, OpenOf(w, id));
    if i < |es| {
      RevealSnoc(w, es, e, i, NewCase(w, es[i]));
    } else if OpenOf(w, id)(e) {
      NothingFollows(w, es, e, NewCase(w, e));
    }
  }

  lemma NothingFollows(w: World, es: seq<Note>, e: Note, made: Case)
    ensures AfterOpen(w, es + [e], |es|, made) == made
  {
    assert First(es + [e], |es| + 1, RevealOf(w, made.id, made.challenger)) == |es + [e]|;
  }

  lemma RevealSnoc(w: World, es: seq<Note>, e: Note, i: nat, made: Case)
    requires i < |es| && made.phase == Open
    ensures AfterOpen(w, es + [e], i, made) == Advance(w, AfterOpen(w, es, i, made), e)
  {
    var p := RevealOf(w, made.id, made.challenger);
    FirstSnoc(es, e, i + 1, p);
    var j := First(es, i + 1, p);
    if j < |es| {
      DecisionSnoc(w, es, e, j, Reveal(w, made, es[j]));
    } else if p(e) {
      assert First(es + [e], |es| + 1, DecisionOf(w, Reveal(w, made, e))) == |es + [e]|;
    }
  }

  lemma DecisionSnoc(w: World, es: seq<Note>, e: Note, j: nat, shown: Case)
    requires j < |es| && shown.phase != Open && (shown.phase == Revealed ==> shown.revealedAt.Some?)
    ensures AfterReveal(w, es + [e], j, shown) == Advance(w, AfterReveal(w, es, j, shown), e)
  {
    if shown.phase == Revealed {
      FirstSnoc(es, e, j + 1, DecisionOf(w, shown));
    }
  }

  /** Folding the events one by one computes exactly the declared case, for every event sequence and every id. */
  lemma {:induction false} ReplayIsDeclared(w: World, es: seq<Note>, id: string)
    ensures Find(Replay(w, es), id) == Declared(w, es, id)
  {
    if es != [] {
      var front, last := es[..|es| - 1], es[|es| - 1];
      ReplayIsDeclared(w, front, id);
      ReplaySnoc(w, front, last, id);
      DeclaredSnoc(w, front, last, id);
      assert es == front + [last];
    }
  }

  // ----- when an answer counts -----

  /** Event `i` is the first acceptable open of `id`. */
  ghost predicate OpensFirst(w: World, es: seq<Note>, id: string, i: nat) {
    && i < |es| && Says(es[i], "open") && IdOf(w, es[i]) == id && Opens(w, es[i])
    && forall x :: 0 <= x < i && Says(es[x], "open") && IdOf(w, es[x]) == id ==> !Opens(w, es[x])
  }

  /** Event `j` is the first reveal after `i` by the challenger of `i`. */
  ghost predicate RevealsFirst(w: World, es: seq<Note>, id: string, i: nat, j: nat)
    requires i < |es|
  {
    && i < j < |es| && Says(es[j], "reveal") && IdOf(w, es[j]) == id && es[j].body.actor == es[i].body.actor
    && forall x :: i < x < j && Says(es[x], "reveal") && IdOf(w, es[x]) == id ==> es[x].body.actor != es[i].body.actor
  }

  /** The reveal `j` shows the seed that `i` committed to. */
  predicate ShowsSeed(w: World, es: seq<Note>, i: nat, j: nat)
    requires i < |es| && j < |es|
  {
    CommitmentTo(w, Text(w, es[j], "seed")) == Text(w, es[i], "seed_commitment")
  }

  /** A reveal with an unreadable stamp counts as made at the deadline. */
  function RevealInstant(w: World, es: seq<Note>, i: nat, j: nat): Instant
    requires i < |es| && j < |es| && Opens(w, es[i])
  {
    if When(w, es[j]).Some? then When(w, es[j]).value else Deadline(w, es[i]).value
  }

  /** Event `j` is the challenger's first reveal after `i`, of the committed seed and in time. */
  ghost predicate RevealsInTime(w: World, es: seq<Note>, id: string, i: nat, j: nat)
    requires i < |es| && Opens(w, es[i])
  {
    RevealsFirst(w, es, id, i, j) && ShowsSeed(w, es, i, j) && RevealInstant(w, es, i, j) <= Deadline(w, es[i]).value
  }

  /** The answer `k` comes within the window of the reveal `j`. */
  predicate AnswersInTime(w: World, es: seq<Note>, i: nat, j: nat, k: nat)
    requires i < |es| && j < |es| && k < |es| && Opens(w, es[i])
  {
    var at := RevealInstant(w, es, i, j);
    Either(When(w, es[k]), at) <= at + Window(w, es[i]).value
  }

  predicate MayAnswer(es: seq<Note>, i: nat, k: nat)
    requires i < |es| && k < |es|
  {
    Target(es[i]) == None || Target(es[i]) == Some(Str(es[k].body.actor))
  }

  /** Event `k` answers in time and rightfully, and no answer before it was late or rightful. */
  ghost predicate AnswersFirst(w: World, es: seq<Note>, id: string, i: nat, j: nat, k: nat)
    requires i < |es| && j < |es| && Opens(w, es[i])
  {
    && j < k < |es| && Says(es[k], "answer") && IdOf(w, es[k]) == id
    && AnswersInTime(w, es, i, j, k) && MayAnswer(es, i, k)
    && forall x :: j < x < k && Says(es[x], "answer") && IdOf(w, es[x]) == id ==> AnswersInTime(w, es, i, j, x) && !MayAnswer(es, i, x)
  }

  ghost predicate Earned(w: World, es: seq<Note>, id: string, i: nat, j: nat, k: nat) {
    OpensFirst(w, es, id, i) && RevealsInTime(w, es, id, i, j) && AnswersFirst(w, es, id, i, j, k)
  }

  /** A challenge is answered exactly when some open, reveal and answer, in this order, earned it. */
  lemma AnsweredIff(w: World, es: seq<Note>, id: string)
    ensures (id in Replay(w, es).cases && Replay(w, es).cases[id].phase == Answered) <==> exists i: nat, j: nat, k: nat :: Earned(w, es, id, i, j, k)
  {
    ReplayIsDeclared(w, es, id);
    if id in Replay(w, es).cases && Replay(w, es).cases[id].phase == Answered {
      var i, j, k := AnsweredWasEarned(w, es, id);
    }
    if i: nat, j: nat, k: nat :| Earned(w, es, id, i, j, k) {
      EarnedIsAnswered(w, es, id, i, j, k);
    }
  }

  lemma AnsweredWasEarned(w: World, es: seq<Note>, id: string) returns (i: nat, j: nat, k: nat)
    requires Declared(w, es, id).Some? && Declared(w, es, id).value.phase == Answered
    ensures Earned(w, es, id, i, j, k)
  {
    i, j, k := AnsweredPath(w, es, id);
    FirstOpenMeaning(w, es, id, i);
    FirstRevealMeaning(w, es, id, i, j);
    FirstDecisionMeaning(w, es, id, i, j, k);
  }

  /** The three events an answered case was declared from. */
  lemma AnsweredPath(w: World, es: seq<Note>, id: string) returns (i: nat, j: nat, k: nat)
    requires Declared(w, es, id).Some? && Declared(w, es, id).value.phase == Answered
    ensures i == First(es, 0, OpenOf(w, id)) < |es| && Opens(w, es[i])
    ensures j == First(es, i + 1, RevealOf(w, id, es[i].body.actor)) < |es|
    ensures Reveal(w, NewCase(w, es[i]), es[j]).phase == Revealed
    ensures k == First(es, j + 1, DecisionOf(w, Reveal(w, NewCase(w, es[i]), es[j]))) < |es|
    ensures Answer(w, Reveal(w, NewCase(w, es[i]), es[j]), es[k]).phase == Answered
  {
    i := First(es, 0, OpenOf(w, id));
    j, k := RevealedPath(w, es, i, NewCase(w, es[i]));
  }

  lemma RevealedPath(w: World, es: seq<Note>, i: nat, made: Case) returns (j: nat, k: nat)
    requires i < |es| && made.phase == Open && AfterOpen(w, es, i, made).phase == Answered
    ensures j == First(es, i + 1, RevealOf(w, made.id, made.challenger)) < |es| && Reveal(w, made, es[j]).phase == Revealed
    ensures k == First(es, j + 1, DecisionOf(w, Reveal(w, made, es[j]))) < |es|
    ensures Answer(w, Reveal(w, made, es[j]), es[k]).phase == Answered
  {
    j := First(es, i + 1, RevealOf(w, made.id, made.challenger));
    k := First(es, j + 1, DecisionOf(w, Reveal(w, made, es[j])));
  }

  lemma FirstOpenMeaning(w: World, es: seq<Note>, id: string, i: nat)
    requires i == First(es, 0, OpenOf(w, id)) < |es|
    ensures OpensFirst(w, es, id, i)
  {
    assert forall x :: 0 <= x < i ==> !OpenOf(w, id)(es[x]);
  }

  lemma FirstRevealMeaning(w: World, es: seq<Note>, id: string, i: nat, j: nat)
    requires OpensFirst(w, es, id, i)
    requires j == First(es, i + 1, RevealOf(w, id, es[i].body.actor)) < |es|
    requires Reveal(w, NewCase(w, es[i]), es[j]).phase == Revealed
    ensures RevealsInTime(w, es, id, i, j)
  {
    assert forall x :: i + 1 <= x < j ==> !RevealOf(w, id, es[i].body.actor)(es[x]);
  }

  lemma FirstDecisionMeaning(w: World, es: seq<Note>, id: string, i: nat, j: nat, k: nat)
    requires OpensFirst(w, es, id, i) && i < j < |es|
    requires Reveal(w, NewCase(w, es[i]), es[j]).phase == Revealed
    requires k == First(es, j + 1, DecisionOf(w, Reveal(w, NewCase(w, es[i]), es[j]))) < |es|
    requires Answer(w, Reveal(w, NewCase(w, es[i]), es[j]), es[k]).phase == Answered
    ensures AnswersFirst(w, es, id, i, j, k)
  {
    assert forall x :: j + 1 <= x < k ==> !DecisionOf(w, Reveal(w, NewCase(w, es[i]), es[j]))(es[x]);
  }

  lemma FirstIs(es: seq<Note>, from: nat, p: Note -> bool, r: nat)
    requires from <= r < |es| && p(es[r]) && forall x :: from <= x < r ==> !p(es[x])
    ensures First(es, from, p) == r
  {
  }

  lemma EarnedIsAnswered(w: World, es: seq<Note>, id: string, i: nat, j: nat, k: nat)
    requires Earned(w, es, id, i, j, k)
    ensures Declared(w, es, id).Some? && Declared(w, es, id).value.phase == Answered
    ensures Declared(w, es, id).value.answerActor == Some(es[k].body.actor)
    ensures Declared(w, es, id).value.output == Some(Text(w, es[k], "output_commitment"))
  {
    var made := NewCase(w, es[i]);
    FirstIs(es, 0, OpenOf(w, id), i);
    FirstIs(es, i + 1, RevealOf(w, id, made.challenger), j);
    FirstIs(es, j + 1, DecisionOf(w, Reveal(w, made, es[j])), k);
  }

  // ----- finality -----

  /** The event would still be accepted although its challenge is decided at `t`: a matching reveal or a rightful
      answer whose effective instant is not after its deadline. */
  predicate Backdated(w: World, c: Case, e: Note) {
    || (&& c.phase == Open && RevealOf(w, c.id, c.challenger)(e)
        && CommitmentTo(w, Text(w, e, "seed")) == c.commitment && Either(When(w, e), c.deadline) <= c.deadline)
    || (&& c.phase == Revealed && c.revealedAt.Some? && Says(e, "answer") && IdOf(w, e) == c.id
        && AnswerAt(w, c, e) <= AnswerBy(c) && ByTarget(c, e))
  }

  /** The instant the protocol gives an event that concerns this challenge. */
  predicate NotBefore(w: World, e: Note, t: Instant) { When(w, e).Some? && When(w, e).value >= t }

  /** A decided verdict survives the next event, at any later instant, exactly when that event is not backdated. */
  lemma VerdictMovesIff(w: World, c: Case, e: Note, t: Instant, later: Instant)
    requires CaseKept(c.id, c) && c.window > 0.0 && (c.phase == Revealed ==> c.revealedAt.value <= c.deadline)
    requires t <= later && Terminal(Verdict(c, t))
    ensures Verdict(c, later) == Verdict(c, t)
    ensures Verdict(Advance(w, c, e), later) != Verdict(c, t) <==> Backdated(w, c, e)
  {
  }

  /** An event with a readable stamp at or after the deciding instant is never backdated. */
  lemma LaterIsNotBackdated(w: World, c: Case, e: Note, t: Instant)
    requires Terminal(Verdict(c, t)) && NotBefore(w, e, t)
    ensures !Backdated(w, c, e)
  {
  }

  /** Windows are positive, and a revealed challenge was revealed by its deadline. */
  ghost predicate CaseTimely(c: Case) {
    c.window > 0.0 && (c.phase == Revealed ==> c.revealedAt.Some? && c.revealedAt.value <= c.deadline)
  }

  lemma {:induction false} ReplayIsTimely(w: World, es: seq<Note>, id: string)
    requires id in Replay(w, es).cases
    ensures CaseKept(id, Replay(w, es).cases[id]) && CaseTimely(Replay(w, es).cases[id])
  {
    var front, last := es[..|es| - 1], es[|es| - 1];
    ReplaySnoc(w, front, last, id);
    assert es == front + [last];
    if id in Replay(w, front).cases { ReplayIsTimely(w, front, id); }
  }

  /** Once a challenge is decided at an instant, no continuation whose events about it carry readable stamps at or
      after that instant changes the verdict, at whatever later instant it is asked for. */
  lemma {:induction false} VerdictIsFinal(w: World, es: seq<Note>, more: seq<Note>, id: string, t: Instant, later: Instant)
    requires id in Replay(w, es).cases && Terminal(Verdict(Replay(w, es).cases[id], t)) && t <= later
    requires forall e :: e in more && e.body.kind == Challenge && IdOf(w, e) == id ==> NotBefore(w, e, t)
    ensures id in Replay(w, es + more).cases
    ensures Verdict(Replay(w, es + more).cases[id], later) == Verdict(Replay(w, es).cases[id], t)
    decreases |more|
  {
    if more == [] {
      assert es + more == es;
      ReplayIsTimely(w, es, id);
      var c := Replay(w, es).cases[id];
      SameVerdictLater(c, t, later);
    } else {
      var front, last := more[..|more| - 1], more[|more| - 1];
      VerdictIsFinal(w, es, front, id, t, t);
      assert forall e :: e in front ==> e in more;
      assert es + more == es + front + [last];
      FinalStep(w, es + front, last, id, t, later);
    }
  }

  lemma SameVerdictLater(c: Case, t: Instant, later: Instant)
    requires Terminal(Verdict(c, t)) && t <= later
    ensures Verdict(c, later) == Verdict(c, t)
  {
  }

  lemma FinalStep(w: World, es: seq<Note>, e: Note, id: string, t: Instant, later: Instant)
    requires id in Replay(w, es).cases && Terminal(Verdict(Replay(w, es).cases[id], t)) && t <= later
    requires e.body.kind == Challenge && IdOf(w, e) == id ==> NotBefore(w, e, t)
    ensures id in Replay(w, es + [e]).cases
    ensures Verdict(Replay(w, es + [e]).cases[id], later) == Verdict(Replay(w, es).cases[id], t)
  {
    var c := Replay(w, es).cases[id];
    ReplayIsTimely(w, es, id);
    ReplaySnoc(w, es, e, id);
    VerdictMovesIff(w, c, e, t, later);
    if e.body.kind == Challenge && IdOf(w, e) == id { LaterIsNotBackdated(w, c, e, t); }
  }

  /** `m` is the greatest readable stamp of the challenge events, and missing when there is none. */
  ghost predicate GreatestStamp(w: World, es: seq<Note>, m: Option<Instant>) {
    && (m.Some? ==> exists i :: 0 <= i < |es| && StampAt(w, es, i) == m)
    && forall i :: 0 <= i < |es| && StampAt(w, es, i).Some? ==> m.Some? && StampAt(w, es, i).value <= m.value
  }

  function StampAt(w: World, es: seq<Note>, i: nat): Option<Instant>
    requires i < |es|
  {
    if es[i].body.kind == Challenge then When(w, es[i]) else None
  }

  lemma GreatestSnoc(w: World, es: seq<Note>, e: Note, m: Option<Instant>)
    requires GreatestStamp(w, es, m)
    ensures GreatestStamp(w, es + [e], if e.body.kind == Challenge then Later(m, When(w, e)) else m)
  {
    var all := es + [e];
    assert forall i :: 0 <= i < |es| ==> StampAt(w, all, i) == StampAt(w, es, i);
    assert StampAt(w, all, |es|) == if e.body.kind == Challenge then When(w, e) else None;
  }

  /** The instant used when none is given never goes back: the latest readable stamp of any challenge event. */
  lemma {:induction false} LatestSeen(w: World, es: seq<Note>)
    ensures GreatestStamp(w, es, Replay(w, es).maxSeen)
  {
    if es != [] {
      var front, last := es[..|es| - 1], es[|es| - 1];
      LatestSeen(w, front);
      GreatestSnoc(w, front, last, Replay(w, front).maxSeen);
      assert es == front + [last];
    }
  }

  /** An unreadable stamp breaks finality: a challenge that is void because nobody revealed by its deadline comes
      back as revealed when its challenger then reveals the seed in an event whose stamp cannot be read. */
  lemma UnreadableStampRevives(w: World, id: string, first: Note, second: Note, t: Instant)
    requires OpenOf(w, id)(first) && RevealOf(w, id, first.body.actor)(second)
    requires CommitmentTo(w, Text(w, second, "seed")) == Text(w, first, "seed_commitment") && When(w, second) == None
    requires Deadline(w, first).value < t <= Deadline(w, first).value + Window(w, first).value
    ensures id in Replay(w, [first]).cases && Verdict(Replay(w, [first]).cases[id], t) == Void
    ensures id in Replay(w, [first, second]).cases && Verdict(Replay(w, [first, second]).cases[id], t) == Revealed
  {
    assert [] + [first] == [first] && [first] + [second] == [first, second];
    ReplaySnoc(w, [], first, id);
    ReplaySnoc(w, [first], second, id);
  }
}
