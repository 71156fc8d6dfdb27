/** Per-actor accuracy profiles and the confidences computed with them (adl_lite/calibration.py). Floats are reals. */
module Calibrations {
  import opened Basics

  const DEFAULT_ACCURACY := 0.5
  const GENERAL := "general"

  // ----- the profiles -----

  type Profiles = map<string, real>

  /** The global profiles and those of each context. */
  datatype Book = Book(profiles: Profiles, contexts: map<string, Profiles>)

  function Clamped(p: Profiles): Profiles { map a | a in p :: Clamp(p[a]) }

  /** What loading gives: nothing when there is no file, otherwise the file's scores, clamped. */
  function Loaded(disk: Option<Book>): Book {
    match disk
    case None => Book(map[], map[])
    case Some(b) => Book(Clamped(b.profiles), map c | c in b.contexts :: Clamped(b.contexts[c]))
  }

  predicate InContext(b: Book, actor: string, context: string) { context in b.contexts && actor in b.contexts[context] }

  predicate Knows(b: Book, actor: string, context: string) { actor in b.profiles || InContext(b, actor, context) }

  /** The context's score if there is one, else the global score, else one half. */
  function Score(b: Book, actor: string, context: string): real {
    if context != GENERAL && InContext(b, actor, context) then b.contexts[context][actor]
    else if actor in b.profiles then b.profiles[actor]
    else DEFAULT_ACCURACY
  }

  function Written(b: Book, actor: string, score: real, context: string): Book {
    if context == GENERAL then b.(profiles := b.profiles[actor := score])
    else b.(contexts := b.contexts[context := (if context in b.contexts then b.contexts[context] else map[])[actor := score]])
  }

  /** The calibrator's state: what it holds and what its file holds. */
  datatype State = State(held: Book, disk: Option<Book>)

  /** Asking for an actor the calibrator does not know makes it load its file first. */
  function AfterRead(s: State, actor: string, context: string): State {
    if Knows(s.held, actor, context) then s else s.(held := Loaded(s.disk))
  }

  function Accuracy(s: State, actor: string, context: string): real { Score(AfterRead(s, actor, context).held, actor, context) }

  function AfterUpdate(s: State, actor: string, observed: real, context: string): State {
    var b := Written(s.held, actor, Clamp(observed), context);
    State(b, Some(b))
  }

  function Smoothed(alpha: real, observed: real, current: real): real { alpha * observed + (1.0 - alpha) * current }

  function AfterEwma(s: State, actor: string, observed: real, context: string, alpha: real): State {
    AfterUpdate(AfterRead(s, actor, context), actor, Smoothed(alpha, observed, Accuracy(s, actor, context)), context)
  }

  predicate Unit(v: real) { 0.0 <= v <= 1.0 }

  predicate AllUnit(p: Profiles) { forall a :: a in p ==> Unit(p[a]) }

  /** Every score a calibrator holds is a probability. */
  predicate Sane(b: Book) { AllUnit(b.profiles) && forall c :: c in b.contexts ==> AllUnit(b.contexts[c]) }

  lemma LoadedIsSane(disk: Option<Book>)
    ensures Sane(Loaded(disk))
  {
  }

  lemma ScoreIsUnit(b: Book, actor: string, context: string)
    requires Sane(b)
    ensures Unit(Score(b, actor, context))
  {
    if InContext(b, actor, context) { assert AllUnit(b.contexts[context]); }
  }

  lemma WrittenIsSane(b: Book, actor: string, score: real, context: string)
    requires Sane(b) && Unit(score)
    ensures Sane(Written(b, actor, score, context))
    ensures Score(Written(b, actor, score, context), actor, context) == score
    ensures Knows(Written(b, actor, score, context), actor, context)
  {
  }

  // ----- what reads return, without the definitions above -----

  /** The book has a score of the actor for this very context; the general one is the actor's global score. */
  predicate Own(b: Book, actor: string, context: string) {
    if context == "general" then actor in b.profiles else context in b.contexts && actor in b.contexts[context]
  }

  /** Asked for an actor in a context, the book answers with the context's own score, else with the global one, else with a half. */
  predicate Answers(b: Book, actor: string, context: string, score: real) {
    && (context != "general" && Own(b, actor, context) ==> context in b.contexts && actor in b.contexts[context] && score == b.contexts[context][actor])
    && (context == "general" || !Own(b, actor, context) ==> score == if actor in b.profiles then b.profiles[actor] else 0.5)
  }

  lemma AnswersIff(b: Book, actor: string, context: string, score: real)
    ensures Answers(b, actor, context, score) <==> score == Score(b, actor, context)
  {
  }

  /** The file's book as it comes back from loading: the same actors in the same contexts, each with its score cut to [0, 1]. */
  lemma LoadingCuts(b: Book, actor: string, context: string)
    ensures Own(Loaded(Some(b)), actor, context) <==> Own(b, actor, context)
    ensures CutTo(Score(b, actor, context), Score(Loaded(Some(b)), actor, context))
    ensures !Own(Loaded(None), actor, context) && Score(Loaded(None), actor, context) == 0.5
    ensures Sane(b) ==> Loaded(Some(b)) == b
  {
    if Sane(b) {
      forall c | c in b.contexts ensures Clamped(b.contexts[c]) == b.contexts[c] { assert AllUnit(b.contexts[c]); }
      assert Clamped(b.profiles) == b.profiles;
    }
  }

  /** Everybody else has the score it had, in every context. */
  ghost predicate OthersKept(before: Book, after: Book, actor: string) {
    forall a, c :: a != actor ==> (Own(after, a, c) <==> Own(before, a, c)) && Score(after, a, c) == Score(before, a, c)
  }

  /** The actor keeps its score in every other context, except that a new global score shows where it has none of its own. */
  ghost predicate OwnKept(before: Book, after: Book, actor: string, context: string) {
    forall c :: c != context ==>
      && (Own(after, actor, c) <==> Own(before, actor, c))
      && Score(after, actor, c) == if context == "general" && !Own(before, actor, c) then Score(after, actor, "general") else Score(before, actor, c)
  }

  /** Nothing but the score of this actor in this context is new, and it is the observed one, cut to [0, 1]. */
  ghost predicate OnlyWrote(before: Book, after: Book, actor: string, context: string, observed: real) {
    && OthersKept(before, after, actor) && OwnKept(before, after, actor, context)
    && Own(after, actor, context) && CutTo(observed, Score(after, actor, context))
  }

  lemma WritesOnly(b: Book, actor: string, observed: real, context: string)
    ensures OnlyWrote(b, Written(b, actor, Clamp(observed), context), actor, context, observed)
  {
  }

  /** A calibrator that has not read its file overwrites it: what the file said of everybody else is gone, and they are back at a
      half. */
  lemma UnreadFileIsLost(disk: Book, actor: string, observed: real, context: string, other: string, c: string)
    requires other != actor
    ensures var after := AfterUpdate(State(Book(map[], map[]), Some(disk)), actor, observed, context);
      Score(Loaded(after.disk), other, c) == 0.5
  {
    WritesOnly(Book(map[], map[]), actor, observed, context);
    WrittenIsSane(Book(map[], map[]), actor, Clamp(observed), context);
    LoadingCuts(Written(Book(map[], map[]), actor, Clamp(observed), context), other, c);
  }

  class MARGINCalibrator {
    var held: Book
    var disk: Option<Book>

    ghost function View(): State
      reads this
    {
      State(held, disk)
    }

    /** The file may hold scores of another run, or none. */
    constructor (disk: Option<Book>)
      ensures held == Book(map[], map[]) && this.disk == disk && Sane(held)
    {
      held, this.disk := Book(map[], map[]), disk;
    }

    method GetAccuracy(actor: string, context: string) returns (score: real)
      requires Sane(held)
      modifies this`held
      ensures View() == AfterRead(old(View()), actor, context) && Sane(held)
      ensures score == Accuracy(old(View()), actor, context) && Unit(score)
      ensures Answers(held, actor, context, score)
      ensures old(actor in held.profiles) || old(context in held.contexts && actor in held.contexts[context]) ==> held == old(held)
      ensures !old(actor in held.profiles) && !old(context in held.contexts && actor in held.contexts[context]) ==> held == Loaded(disk)
    {
      if actor !in held.profiles && !InContext(held, actor, context) {
        LoadedIsSane(disk);
        held := Loaded(disk);
      }
      ScoreIsUnit(held, actor, context);
      if context != GENERAL {
        var scores := if context in held.contexts then held.contexts[context] else map[];
        if actor in scores { return scores[actor]; }
      }
      score := if actor in held.profiles then held.profiles[actor] else DEFAULT_ACCURACY;
    }

    method UpdateAccuracy(actor: string, observed: real, context: string)
      requires Sane(held)
      modifies this
      ensures View() == AfterUpdate(old(View()), actor, observed, context) && Sane(held)
      ensures OnlyWrote(old(held), held, actor, context, observed)
      ensures Loaded(disk) == held
    {
      WritesOnly(held, actor, observed, context);
      WrittenIsSane(held, actor, Clamp(observed), context);
      if context == GENERAL {
        held := held.(profiles := held.profiles[actor := Clamp(observed)]);
      } else {
        if context !in held.contexts {
          held := held.(contexts := held.contexts[context := map[]]);
        }
        held := held.(contexts := held.contexts[context := held.contexts[context][actor := Clamp(observed)]]);
        assert held.contexts == Written(old(held), actor, Clamp(observed), context).contexts;
      }
      disk := Some(held);
      LoadingCuts(held, actor, context);
    }

    method UpdateAccuracyEwma(actor: string, observed: real, context: string, alpha: real)
      requires Sane(held)
      modifies this
      ensures View() == AfterEwma(old(View()), actor, observed, context, alpha) && Sane(held)
      ensures var before := AfterRead(old(View()), actor, context).held;
        OnlyWrote(before, held, actor, context, Smoothed(alpha, observed, Score(before, actor, context)))
      ensures Loaded(disk) == held
    {
      var current := GetAccuracy(actor, context);
      UpdateAccuracy(actor, Smoothed(alpha, observed, current), context);
    }
  }

  // ----- repeated smoothing -----

  function Pow(b: real, n: nat): real { if n == 0 then 1.0 else b * Pow(b, n - 1) }

  /** `n` smoothed updates with the same observation. */
  function AfterMany(s: State, actor: string, x: real, context: string, alpha: real, n: nat): State {
    if n == 0 then s else AfterEwma(AfterMany(s, actor, x, context, alpha, n - 1), actor, x, context, alpha)
  }

  lemma SmoothedStaysUnit(alpha: real, x: real, current: real)
    requires Unit(alpha) && Unit(x) && Unit(current)
    ensures Unit(Smoothed(alpha, x, current))
  {
    var p := Scaled(alpha, x);
    var q := Scaled(1.0 - alpha, current);
    assert Smoothed(alpha, x, current) == p + q;
  }

  lemma Scaled(k: real, v: real) returns (p: real)
    requires k >= 0.0 && Unit(v)
    ensures p == k * v && 0.0 <= p <= k
  {
    p := k * v;
  }

  lemma OneUpdate(s: State, actor: string, x: real, context: string, alpha: real)
    requires Sane(s.held) && Unit(alpha) && Unit(x)
    ensures var after := AfterEwma(s, actor, x, context, alpha);
      && Sane(after.held)
      && Unit(Smoothed(alpha, x, Accuracy(s, actor, context)))
      && Accuracy(after, actor, context) == Smoothed(alpha, x, Accuracy(s, actor, context))
  {
    var read := AfterRead(s, actor, context);
    AccuracyIsUnit(s, actor, context);
    SmoothedStaysUnit(alpha, x, Accuracy(s, actor, context));
    WrittenIsSane(read.held, actor, Smoothed(alpha, x, Accuracy(s, actor, context)), context);
  }

  /** A gap after `n` steps that each leave the share `keep` of it. */
  function Decayed(keep: real, n: nat, gap: real): real { if n == 0 then gap else Times(keep, Decayed(keep, n - 1, gap)) }

  function Times(a: real, b: real): real { a * b }

  lemma {:induction false} DecayedIsPower(keep: real, n: nat, gap: real)
    ensures Decayed(keep, n, gap) == Times(Pow(keep, n), gap)
  {
    if n > 0 {
      DecayedIsPower(keep, n - 1, gap);
      Associates(keep, Pow(keep, n - 1), gap);
    }
  }

  lemma Associates(a: real, b: real, c: real)
    ensures a * (b * c) == a * b * c
  {
  }

  lemma SmoothingShrinksGap(alpha: real, x: real, current: real)
    ensures Smoothed(alpha, x, current) - x == Times(1.0 - alpha, current - x)
  {
  }

  lemma {:induction false} GapDecays(s: State, actor: string, x: real, context: string, alpha: real, n: nat)
    requires Sane(s.held) && Unit(alpha) && Unit(x)
    ensures Sane(AfterMany(s, actor, x, context, alpha, n).held)
    ensures Accuracy(AfterMany(s, actor, x, context, alpha, n), actor, context) - x == Decayed(1.0 - alpha, n, Accuracy(s, actor, context) - x)
  {
    if n > 0 {
      GapDecays(s, actor, x, context, alpha, n - 1);
      var before := AfterMany(s, actor, x, context, alpha, n - 1);
      OneUpdate(before, actor, x, context, alpha);
      SmoothingShrinksGap(alpha, x, Accuracy(before, actor, context));
    }
  }

  /** After `n` updates with the observation `x` the distance to `x` is exactly the n-th power of 1 - alpha times what it
      was, in every context; and no update needed clamping. */
  lemma EwmaDistance(s: State, actor: string, x: real, context: string, alpha: real, n: nat)
    requires Sane(s.held) && Unit(alpha) && Unit(x)
    ensures var after := AfterMany(s, actor, x, context, alpha, n);
      && Accuracy(after, actor, context) - x == Times(Pow(1.0 - alpha, n), Accuracy(s, actor, context) - x)
      && Unit(Accuracy(after, actor, context)) && Unit(Smoothed(alpha, x, Accuracy(after, actor, context)))
  {
    DistanceIsPower(s, actor, x, context, alpha, n);
    ManyStayUnit(s, actor, x, context, alpha, n);
  }

  lemma DistanceIsPower(s: State, actor: string, x: real, context: string, alpha: real, n: nat)
    requires Sane(s.held) && Unit(alpha) && Unit(x)
    ensures Accuracy(AfterMany(s, actor, x, context, alpha, n), actor, context) - x == Times(Pow(1.0 - alpha, n), Accuracy(s, actor, context) - x)
  {
    GapDecays(s, actor, x, context, alpha, n);
    DecayedIsPower(1.0 - alpha, n, Accuracy(s, actor, context) - x);
  }

  lemma ManyStayUnit(s: State, actor: string, x: real, context: string, alpha: real, n: nat)
    requires Sane(s.held) && Unit(alpha) && Unit(x)
    ensures var accuracy := Accuracy(AfterMany(s, actor, x, context, alpha, n), actor, context);
      Unit(accuracy) && Unit(Smoothed(alpha, x, accuracy))
  {
    GapDecays(s, actor, x, context, alpha, n);
    AccuracyIsUnit(AfterMany(s, actor, x, context, alpha, n), actor, context);
    SmoothedStaysUnit(alpha, x, Accuracy(AfterMany(s, actor, x, context, alpha, n), actor, context));
  }

  lemma AccuracyIsUnit(s: State, actor: string, context: string)
    requires Sane(s.held)
    ensures Unit(Accuracy(s, actor, context)) && Sane(AfterRead(s, actor, context).held)
  {
    LoadedIsSane(s.disk);
    ScoreIsUnit(AfterRead(s, actor, context).held, actor, context);
  }
}
