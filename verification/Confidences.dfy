/** Confidences weighted by accuracy and by time (adl_lite/calibration.py). */
module Confidences {
  import opened Basics
  import opened Calibrations

  /** A VALIDATE event: who, how sure, when. */
  datatype Vote = Vote(actor: string, confidence: real, ts: int)

  // ----- per-actor maxima -----

  /** The actors in the order in which they first voted: a Python dictionary keeps it. */
  function Voters(vs: seq<Vote>): (order: seq<string>)
    ensures forall i, j :: 0 <= i < j < |order| ==> order[i] != order[j]
    ensures forall a :: a in order <==> exists i :: 0 <= i < |vs| && vs[i].actor == a
  {
    if vs == [] then [] else
      var front, a := Voters(vs[..|vs| - 1]), vs[|vs| - 1].actor;
      assert forall i :: 0 <= i < |vs| - 1 ==> vs[..|vs| - 1][i] == vs[i];
      if a in front then front else front + [a]
  }

  /** An actor that comes earlier in the list cast a vote before the other cast any. */
  lemma {:induction false} VotersInOrder(vs: seq<Vote>, i: nat, j: nat) returns (p: nat)
    requires i < j < |Voters(vs)|
    ensures p < |vs| && vs[p].actor == Voters(vs)[i] && forall q :: 0 <= q <= p ==> vs[q].actor != Voters(vs)[j]
  {
    var front, a := vs[..|vs| - 1], vs[|vs| - 1].actor;
    assert forall q :: 0 <= q < |front| ==> front[q] == vs[q];
    if j < |Voters(front)| {
      p := VotersInOrder(front, i, j);
    } else {
      assert Voters(front)[i] in Voters(front);
      p :| 0 <= p < |front| && front[p].actor == Voters(front)[i];
      assert Voters(vs)[j] == a && a !in Voters(front);
    }
  }

  /** The greatest confidence an actor reported, and at least zero. */
  function Peak(vs: seq<Vote>, actor: string): real {
    if vs == [] then 0.0
    else
      var front, v := Peak(vs[..|vs| - 1], actor), vs[|vs| - 1];
      if v.actor == actor then MaxReal(front, v.confidence) else front
  }

  lemma {:induction false} PeakIsMaximum(vs: seq<Vote>, actor: string)
    ensures Peak(vs, actor) >= 0.0
    ensures forall i :: 0 <= i < |vs| && vs[i].actor == actor ==> vs[i].confidence <= Peak(vs, actor)
    ensures Peak(vs, actor) == 0.0 || exists i :: 0 <= i < |vs| && vs[i].actor == actor && vs[i].confidence == Peak(vs, actor)
  {
    if vs != [] {
      var front := vs[..|vs| - 1];
      PeakIsMaximum(front, actor);
      assert forall i :: 0 <= i < |front| ==> front[i] == vs[i];
    }
  }

  function Peaks(vs: seq<Vote>, actors: seq<string>): (ps: seq<real>)
    ensures |ps| == |actors|
  {
    seq(|actors|, i requires 0 <= i < |actors| => Peak(vs, actors[i]))
  }

  // ----- weighted means -----

  function Sum(ws: seq<real>): real { if ws == [] then 0.0 else Sum(ws[..|ws| - 1]) + ws[|ws| - 1] }

  function WeightedSum(xs: seq<real>, ws: seq<real>): real
    requires |xs| == |ws|
  {
    if xs == [] then 0.0 else WeightedSum(xs[..|xs| - 1], ws[..|ws| - 1]) + Times(xs[|xs| - 1], ws[|ws| - 1])
  }

  predicate NonNegative(ws: seq<real>) { forall i :: 0 <= i < |ws| ==> ws[i] >= 0.0 }

  predicate Within(xs: seq<real>, lo: real, hi: real) { forall i :: 0 <= i < |xs| ==> lo <= xs[i] <= hi }

  /** `r` is at least the least and at most the greatest of the values. */
  ghost predicate Between(xs: seq<real>, r: real) {
    (exists i :: 0 <= i < |xs| && xs[i] <= r) && (exists j :: 0 <= j < |xs| && r <= xs[j])
  }

  lemma {:induction false} WeightedSumBounds(xs: seq<real>, ws: seq<real>, lo: real, hi: real)
    requires |xs| == |ws| && NonNegative(ws) && Within(xs, lo, hi)
    ensures Sum(ws) >= 0.0 && lo * Sum(ws) <= WeightedSum(xs, ws) <= hi * Sum(ws)
  {
    if xs != [] {
      var x, w := xs[|xs| - 1], ws[|ws| - 1];
      WeightedSumBounds(xs[..|xs| - 1], ws[..|ws| - 1], lo, hi);
      TermBounds(x, w, lo, hi);
      Distributes(lo, Sum(ws[..|ws| - 1]), w);
      Distributes(hi, Sum(ws[..|ws| - 1]), w);
    }
  }

  lemma TermBounds(x: real, w: real, lo: real, hi: real)
    requires w >= 0.0 && lo <= x <= hi
    ensures lo * w <= Times(x, w) <= hi * w
  {
  }

  lemma Distributes(a: real, b: real, c: real)
    ensures a * (b + c) == a * b + a * c
  {
  }

  lemma {:induction false} Extremes(xs: seq<real>) returns (i: nat, j: nat)
    requires xs != []
    ensures i < |xs| && j < |xs| && Within(xs, xs[i], xs[j])
  {
    if |xs| == 1 {
      i, j := 0, 0;
    } else {
      var last := |xs| - 1;
      i, j := Extremes(xs[..last]);
      assert Within(xs[..last], xs[i], xs[j]);
      assert forall k :: 0 <= k < last ==> xs[..last][k] == xs[k];
      if xs[last] < xs[i] { i := last; }
      if xs[last] > xs[j] { j := last; }
    }
  }

  function Mean(xs: seq<real>, ws: seq<real>): real
    requires |xs| == |ws| && Sum(ws) > 0.0
  {
    Quotient(WeightedSum(xs, ws), Sum(ws))
  }

  function Quotient(n: real, d: real): real
    requires d > 0.0
  {
    n / d
  }

  lemma MeanBalances(xs: seq<real>, ws: seq<real>)
    requires |xs| == |ws| && Sum(ws) > 0.0
    ensures Times(Mean(xs, ws), Sum(ws)) == WeightedSum(xs, ws)
  {
  }

  /** A mean with non-negative weights that are not all zero lies between the least and the greatest value. */
  lemma MeanIsBetween(xs: seq<real>, ws: seq<real>)
    requires |xs| == |ws| && NonNegative(ws) && Sum(ws) > 0.0
    ensures Between(xs, Mean(xs, ws))
  {
    var i, j := Extremes(xs);
    MeanBounds(xs, ws, xs[i], xs[j]);
  }

  lemma MeanBounds(xs: seq<real>, ws: seq<real>, lo: real, hi: real)
    requires |xs| == |ws| && NonNegative(ws) && Sum(ws) > 0.0 && Within(xs, lo, hi)
    ensures lo <= Mean(xs, ws) <= hi
  {
    WeightedSumBounds(xs, ws, lo, hi);
    QuotientBounds(WeightedSum(xs, ws), Sum(ws), lo, hi);
  }

  lemma QuotientBounds(n: real, d: real, lo: real, hi: real)
    requires d > 0.0 && lo * d <= n <= hi * d
    ensures lo <= Quotient(n, d) <= hi
  {
    var q := Quotient(n, d);
    assert q * d == n;
    if q < lo { TimesLess(q, lo, d); }
    if q > hi { TimesLess(hi, q, d); }
  }

  lemma TimesLess(a: real, b: real, d: real)
    requires a < b && d > 0.0
    ensures a * d < b * d
  {
  }

  /** Every confidence reported is a probability. */
  predicate AllProbable(vs: seq<Vote>) { forall i :: 0 <= i < |vs| ==> Unit(vs[i].confidence) }

  lemma PeaksAreProbable(vs: seq<Vote>, actors: seq<string>)
    requires AllProbable(vs)
    ensures Within(Peaks(vs, actors), 0.0, 1.0)
  {
    forall i | 0 <= i < |actors| ensures Unit(Peak(vs, actors[i])) { PeakIsMaximum(vs, actors[i]); }
  }

  /** The dictionary `actor_max`, with its keys in insertion order. */
  method ActorMax(vs: seq<Vote>) returns (order: seq<string>, best: map<string, real>)
    ensures order == Voters(vs) && forall a :: a in best <==> a in order
    ensures forall a :: a in best ==> best[a] == Peak(vs, a)
  {
    order, best := [], map[];
    for i := 0 to |vs|
      invariant order == Voters(vs[..i]) && forall a :: a in best <==> a in order
      invariant forall a :: a in best ==> best[a] == Peak(vs[..i], a)
      invariant forall a :: a !in best ==> Peak(vs[..i], a) == 0.0
    {
      TakeSnoc(vs, i);
      var v := vs[i];
      if v.actor !in best { order := order + [v.actor]; }
      best := best[v.actor := MaxReal(if v.actor in best then best[v.actor] else 0.0, v.confidence)];
    }
    assert vs[..|vs|] == vs;
  }

  /** What the calibrator holds once the first `n` of the actors have been asked for: the first unknown one made it load its
      file. */
  function HeldAfter(s: State, actors: seq<string>, n: nat): Book
    requires n <= |actors|
  {
    if exists j :: 0 <= j < n && !Knows(s.held, actors[j], GENERAL) then Loaded(s.disk) else s.held
  }

  lemma HeldSnoc(s: State, actors: seq<string>, n: nat)
    requires n < |actors|
    ensures HeldAfter(s, actors, n + 1) == AfterRead(State(HeldAfter(s, actors, n), s.disk), actors[n], GENERAL).held
  {
  }

  /** The weight of each actor is its score in what the calibrator holds when it is asked for. */
  predicate ReadWeights(s: State, actors: seq<string>, ws: seq<real>) {
    |ws| <= |actors| && forall i :: 0 <= i < |ws| ==> ws[i] == Score(HeldAfter(s, actors, i + 1), actors[i], GENERAL)
  }

  lemma WeightsSnoc(s: State, actors: seq<string>, ws: seq<real>, w: real)
    requires ReadWeights(s, actors, ws) && |ws| < |actors| && w == Score(HeldAfter(s, actors, |ws| + 1), actors[|ws|], GENERAL)
    ensures ReadWeights(s, actors, ws + [w]) && (NonNegative(ws) && w >= 0.0 ==> NonNegative(ws + [w]))
  {
  }

  lemma FreshWeights(s: State, actors: seq<string>, ws: seq<real>)
    requires ReadWeights(s, actors, ws)
    ensures s.held == Book(map[], map[]) || s.held == Loaded(s.disk) ==> AreScores(Loaded(s.disk), actors, ws)
  {
    if s.held == Book(map[], map[]) {
      forall i | 0 <= i < |ws| ensures ws[i] == Score(Loaded(s.disk), actors[i], GENERAL) {
        assert !Knows(s.held, actors[0], GENERAL);
      }
    }
  }

  /** The mean of the per-actor maxima, each weighted by its actor's accuracy as the calibrator reads it: for a new calibrator,
      and for one that holds what its file holds, the scores of the file. */
  method CalibratedConfidence(vs: seq<Vote>, calibrator: MARGINCalibrator) returns (r: real, ghost weights: seq<real>)
    requires Sane(calibrator.held)
    modifies calibrator`held
    ensures Sane(calibrator.held) && |weights| == |Voters(vs)| && NonNegative(weights)
    ensures Sum(weights) <= 0.0 ==> r == 0.0
    ensures Sum(weights) > 0.0 ==> r == MinReal(1.0, Mean(Peaks(vs, Voters(vs)), weights))
    ensures r <= 1.0 && (Sum(weights) > 0.0 && r < 1.0 ==> Times(r, Sum(weights)) == WeightedSum(Peaks(vs, Voters(vs)), weights))
    ensures Sum(weights) > 0.0 && AllProbable(vs) ==> Between(Peaks(vs, Voters(vs)), r)
    ensures ReadWeights(old(calibrator.View()), Voters(vs), weights)
    ensures old(calibrator.held == Book(map[], map[]) || InSync(calibrator)) ==> AreScores(Loaded(calibrator.disk), Voters(vs), weights)
    ensures calibrator.held == HeldAfter(old(calibrator.View()), Voters(vs), |Voters(vs)|)
  {
    weights := [];
    if vs == [] { return 0.0, weights; }
    ghost var start := calibrator.View();
    var order, best := ActorMax(vs);
    var total, accuracies;
    total, accuracies, weights := Totals(vs, order, best, calibrator);
    FreshWeights(start, order, weights);
    NonNegativeSum(weights);
    if accuracies == 0.0 { return 0.0, weights; }
    r := MinReal(1.0, Quotient(total, accuracies));
    MeanBalances(Peaks(vs, order), weights);
    if AllProbable(vs) { ProbableMean(vs, order, weights); }
  }

  predicate InSync(c: MARGINCalibrator)
    reads c
  {
    c.held == Loaded(c.disk)
  }

  predicate AreScores(b: Book, actors: seq<string>, ws: seq<real>)
    requires |ws| <= |actors|
  {
    forall i :: 0 <= i < |ws| ==> ws[i] == Score(b, actors[i], GENERAL)
  }

  method Totals(vs: seq<Vote>, order: seq<string>, best: map<string, real>, calibrator: MARGINCalibrator)
    returns (total: real, accuracies: real, ghost weights: seq<real>)
    requires Sane(calibrator.held)
    requires forall i :: 0 <= i < |order| ==> order[i] in best && best[order[i]] == Peak(vs, order[i])
    modifies calibrator`held
    ensures Sane(calibrator.held) && |weights| == |order| && NonNegative(weights)
    ensures total == WeightedSum(Peaks(vs, order), weights) && accuracies == Sum(weights)
    ensures ReadWeights(old(calibrator.View()), order, weights)
    ensures calibrator.held == HeldAfter(old(calibrator.View()), order, |order|)
  {
    total, accuracies, weights := 0.0, 0.0, [];
    ghost var peaks, start := Peaks(vs, order), calibrator.View();
    for i := 0 to |order|
      invariant Sane(calibrator.held) && |weights| == i && NonNegative(weights)
      invariant total == WeightedSum(peaks[..i], weights) && accuracies == Sum(weights)
      invariant ReadWeights(start, order, weights) && calibrator.held == HeldAfter(start, order, i)
    {
      HeldSnoc(start, order, i);
      var accuracy := calibrator.GetAccuracy(order[i], GENERAL);
      SumsSnoc(peaks, weights, i, accuracy);
      WeightsSnoc(start, order, weights, accuracy);
      total, accuracies := total + Times(best[order[i]], accuracy), accuracies + accuracy;
      weights := weights + [accuracy];
    }
    assert peaks[..|order|] == peaks;
  }

  lemma ProbableMean(vs: seq<Vote>, order: seq<string>, weights: seq<real>)
    requires AllProbable(vs) && |weights| == |order| && NonNegative(weights) && Sum(weights) > 0.0
    ensures Between(Peaks(vs, order), Mean(Peaks(vs, order), weights)) && Mean(Peaks(vs, order), weights) <= 1.0
  {
    PeaksAreProbable(vs, order);
    MeanIsBetween(Peaks(vs, order), weights);
    MeanBounds(Peaks(vs, order), weights, 0.0, 1.0);
  }

  lemma {:induction false} NonNegativeSum(ws: seq<real>)
    requires NonNegative(ws)
    ensures Sum(ws) >= 0.0
  {
    if ws != [] { NonNegativeSum(ws[..|ws| - 1]); }
  }

  lemma SumsSnoc(xs: seq<real>, ws: seq<real>, i: nat, w: real)
    requires i == |ws| < |xs|
    ensures Sum(ws + [w]) == Sum(ws) + w
    ensures WeightedSum(xs[..i + 1], ws + [w]) == WeightedSum(xs[..i], ws) + Times(xs[i], w)
  {
    assert (ws + [w])[..i] == ws;
    assert xs[..i + 1][..i] == xs[..i];
  }

  // ----- smoothing over time -----

  /** The first of the actor's votes that reached its greatest confidence. */
  function FirstPeak(vs: seq<Vote>, actor: string): (v: Vote)
    requires exists i :: 0 <= i < |vs| && vs[i].actor == actor
    ensures v in vs && v.actor == actor
    ensures forall i :: 0 <= i < |vs| && vs[i].actor == actor ==> vs[i].confidence <= v.confidence
  {
    var front, last := vs[..|vs| - 1], vs[|vs| - 1];
    if last.actor != actor then FirstPeak(front, actor)
    else if exists i :: 0 <= i < |front| && front[i].actor == actor then
      var before := FirstPeak(front, actor);
      if last.confidence > before.confidence then last else before
    else last
  }

  /** Its actor reported less before it, and never more. */
  lemma {:induction false} FirstPeakIsFirst(vs: seq<Vote>, actor: string) returns (k: nat)
    requires exists i :: 0 <= i < |vs| && vs[i].actor == actor
    ensures k < |vs| && vs[k] == FirstPeak(vs, actor) && vs[k].actor == actor
    ensures forall i :: 0 <= i < k && vs[i].actor == actor ==> vs[i].confidence < vs[k].confidence
    ensures forall i :: k < i < |vs| && vs[i].actor == actor ==> vs[i].confidence <= vs[k].confidence
  {
    var front, last := vs[..|vs| - 1], vs[|vs| - 1];
    assert forall i :: 0 <= i < |front| ==> front[i] == vs[i];
    k := |front|;
    if exists i :: 0 <= i < |front| && front[i].actor == actor {
      var before := FirstPeakIsFirst(front, actor);
      if last.actor != actor || last.confidence <= front[before].confidence { k := before; }
    }
  }

  lemma FirstPeakSnoc(vs: seq<Vote>, v: Vote, actor: string)
    requires actor in Voters(vs) || actor == v.actor
    ensures actor in Voters(vs + [v])
    ensures FirstPeak(vs + [v], actor) ==
      if actor == v.actor && (actor !in Voters(vs) || v.confidence > FirstPeak(vs, actor).confidence) then v else FirstPeak(vs, actor)
  {
    var all := vs + [v];
    assert all[..|vs|] == vs && all[|vs|] == v;
    assert actor in Voters(vs) <==> exists i :: 0 <= i < |vs| && vs[i].actor == actor;
  }

  lemma FirstPeakIsPeak(vs: seq<Vote>, actor: string)
    requires actor in Voters(vs)
    ensures MaxReal(0.0, FirstPeak(vs, actor).confidence) == Peak(vs, actor)
  {
    PeakIsMaximum(vs, actor);
    var v := FirstPeak(vs, actor);
    var i :| 0 <= i < |vs| && vs[i] == v;
  }

  predicate Earlier(a: Vote, b: Vote) { a.ts <= b.ts }

  function FirstPeaks(vs: seq<Vote>, actors: seq<string>): (ps: seq<Vote>)
    requires forall a :: a in actors ==> a in Voters(vs)
    ensures |ps| == |actors|
  {
    seq(|actors|, i requires 0 <= i < |actors| && actors[i] in Voters(vs) => FirstPeak(vs, actors[i]))
  }

  /** S(t) = alpha * x(t) + (1 - alpha) * S(t - 1), started at the first value. */
  function Fold(alpha: real, xs: seq<real>): real
    requires xs != []
  {
    if |xs| == 1 then xs[0] else Smoothed(alpha, xs[|xs| - 1], Fold(alpha, xs[..|xs| - 1]))
  }

  function ConfidencesOf(vs: seq<Vote>): (xs: seq<real>)
    ensures |xs| == |vs|
  {
    seq(|vs|, i requires 0 <= i < |vs| => vs[i].confidence)
  }

  /** The peaks in the order of their timestamps; actors who peaked at the same instant stay in voting order. */
  function InTimeOrder(vs: seq<Vote>): seq<Vote> { SortBy(FirstPeaks(vs, Voters(vs)), Earlier) }

  lemma SmoothedBetween(alpha: real, x: real, c: real, lo: real, hi: real)
    requires Unit(alpha) && lo <= x <= hi && lo <= c <= hi
    ensures lo <= Smoothed(alpha, x, c) <= hi
  {
    SmoothedOver(alpha, x - lo, c - lo);
    SmoothedOver(alpha, hi - x, hi - c);
    Shifted(alpha, x, c, lo);
    Shifted(alpha, x, c, hi);
    Mirrored(alpha, x - hi, c - hi);
    assert hi - x == -(x - hi) && hi - c == -(c - hi);
  }

  lemma SmoothedOver(alpha: real, x: real, c: real)
    requires Unit(alpha) && x >= 0.0 && c >= 0.0
    ensures Smoothed(alpha, x, c) >= 0.0
  {
    var p, q := Times(alpha, x), Times(1.0 - alpha, c);
    assert p >= 0.0;
    assert q >= 0.0;
  }

  lemma Shifted(alpha: real, x: real, c: real, shift: real)
    ensures Smoothed(alpha, x - shift, c - shift) == Smoothed(alpha, x, c) - shift
  {
  }

  lemma Mirrored(alpha: real, x: real, c: real)
    ensures Smoothed(alpha, -x, -c) == -Smoothed(alpha, x, c)
  {
  }

  lemma {:induction false} FoldBounds(alpha: real, xs: seq<real>, lo: real, hi: real)
    requires xs != [] && Unit(alpha) && Within(xs, lo, hi)
    ensures lo <= Fold(alpha, xs) <= hi
  {
    if |xs| > 1 {
      FoldBounds(alpha, xs[..|xs| - 1], lo, hi);
      SmoothedBetween(alpha, xs[|xs| - 1], Fold(alpha, xs[..|xs| - 1]), lo, hi);
    }
  }

  /** Smoothing with a factor in [0, 1] stays between the least and the greatest value. */
  lemma FoldIsBetween(alpha: real, xs: seq<real>)
    requires xs != [] && Unit(alpha)
    ensures Between(xs, Fold(alpha, xs))
  {
    var i, j := Extremes(xs);
    FoldBounds(alpha, xs, xs[i], xs[j]);
  }

  // ----- the weight of each peak -----

  /** The share of the i-th of `n` values: the newest has alpha, each older one a further factor of 1 - alpha, and the oldest has
      what is left. */
  function Shares(alpha: real, n: nat): (ws: seq<real>)
    ensures |ws| == n
  {
    seq(n, i requires 0 <= i < n => if i == 0 then Pow(1.0 - alpha, n - 1) else Times(alpha, Pow(1.0 - alpha, n - 1 - i)))
  }

  function Scale(k: real, ws: seq<real>): (ks: seq<real>)
    ensures |ks| == |ws|
  {
    seq(|ws|, i requires 0 <= i < |ws| => Times(k, ws[i]))
  }

  lemma SharesSnoc(alpha: real, n: nat)
    requires n > 0
    ensures Shares(alpha, n + 1) == Scale(1.0 - alpha, Shares(alpha, n)) + [alpha]
  {
    var keep, ws := 1.0 - alpha, Shares(alpha, n);
    forall i | 0 <= i < n ensures Shares(alpha, n + 1)[i] == Times(keep, ws[i]) {
      PowStep(keep, n - 1 - i);
      if i > 0 { Swapped(alpha, keep, Pow(keep, n - 1 - i)); }
    }
    TimesOne(alpha);
    assert Shares(alpha, n + 1)[n] == Times(alpha, Pow(keep, 0));
  }

  lemma PowStep(b: real, n: nat)
    ensures Pow(b, n + 1) == Times(b, Pow(b, n)) && Pow(b, 0) == 1.0
  {
  }

  lemma TimesOne(a: real)
    ensures Times(a, 1.0) == a == Times(1.0, a)
  {
  }

  lemma Swapped(a: real, b: real, c: real)
    ensures Times(a, Times(b, c)) == Times(b, Times(a, c))
  {
  }

  lemma {:induction false} ScaledSum(k: real, xs: seq<real>, ws: seq<real>)
    requires |xs| == |ws|
    ensures WeightedSum(xs, Scale(k, ws)) == Times(k, WeightedSum(xs, ws)) && Sum(Scale(k, ws)) == Times(k, Sum(ws))
  {
    if xs != [] {
      var n := |xs| - 1;
      ScaledSum(k, xs[..n], ws[..n]);
      assert Scale(k, ws)[..n] == Scale(k, ws[..n]);
      Swapped(xs[n], k, ws[n]);
      Distributes(k, WeightedSum(xs[..n], ws[..n]), Times(xs[n], ws[n]));
      Distributes(k, Sum(ws[..n]), ws[n]);
    }
  }

  /** The closed form: smoothing is the weighted sum in which the i-th of n values has the share alpha(1-alpha)^(n-1-i), the first
      one (1-alpha)^(n-1); and the shares add up to one. */
  lemma {:induction false} FoldIsWeighted(alpha: real, xs: seq<real>)
    requires xs != []
    ensures Fold(alpha, xs) == WeightedSum(xs, Shares(alpha, |xs|)) && Sum(Shares(alpha, |xs|)) == 1.0
  {
    var n := |xs| - 1;
    if n == 0 {
      SingleShare(alpha, xs);
    } else {
      FoldIsWeighted(alpha, xs[..n]);
      WeightedSnoc(alpha, xs, n);
      FoldStep(alpha, xs[n], Fold(alpha, xs[..n]));
    }
  }

  lemma SingleShare(alpha: real, xs: seq<real>)
    requires |xs| == 1
    ensures WeightedSum(xs, Shares(alpha, 1)) == xs[0] && Sum(Shares(alpha, 1)) == 1.0
  {
    SumsSnoc(xs, [], 0, 1.0);
    TimesOne(xs[0]);
    PowStep(1.0 - alpha, 0);
    assert Shares(alpha, 1)[0] == Pow(1.0 - alpha, 0);
    assert xs[..1] == xs && Shares(alpha, 1) == [] + [1.0];
  }

  lemma WeightedSnoc(alpha: real, xs: seq<real>, n: nat)
    requires 0 < n && |xs| == n + 1
    ensures WeightedSum(xs, Shares(alpha, n + 1)) == Times(1.0 - alpha, WeightedSum(xs[..n], Shares(alpha, n))) + Times(xs[n], alpha)
    ensures Sum(Shares(alpha, n + 1)) == Times(1.0 - alpha, Sum(Shares(alpha, n))) + alpha
  {
    var ws := Shares(alpha, n);
    SharesSnoc(alpha, n);
    ScaledSum(1.0 - alpha, xs[..n], ws);
    SumsSnoc(xs, Scale(1.0 - alpha, ws), n, alpha);
    assert xs[..n + 1] == xs;
  }

  lemma FoldStep(alpha: real, x: real, before: real)
    ensures Smoothed(alpha, x, before) == Times(1.0 - alpha, before) + Times(x, alpha)
    ensures Times(1.0 - alpha, 1.0) + alpha == 1.0
  {
  }

  // ----- a smoothing factor of one -----

  /** The last vote is its actor's first or raises its actor's maximum. */
  predicate Raises(vs: seq<Vote>)
    requires vs != []
  {
    var front, v := vs[..|vs| - 1], vs[|vs| - 1];
    v.actor in Voters(front) ==> v.confidence > FirstPeak(front, v.actor).confidence
  }

  /** No actor who voted first after the last vote's actor has its peak at the instant of the last vote. */
  predicate LastToJoin(vs: seq<Vote>)
    requires vs != []
  {
    NoTieBehind(FirstPeaks(vs, Voters(vs)), vs[|vs| - 1])
  }

  predicate NoTieBehind(ps: seq<Vote>, v: Vote) {
    forall i, j :: 0 <= i < j < |ps| && ps[i].actor == v.actor ==> ps[j].ts != v.ts
  }

  /** The last vote raised its actor's maximum and wins the ties at its instant. */
  predicate Decides(vs: seq<Vote>)
    requires vs != []
  {
    Raises(vs) && LastToJoin(vs)
  }

  /** The last of the votes that decided when it was cast. */
  function LastDeciding(vs: seq<Vote>): (v: Vote)
    requires vs != []
    ensures v in vs
  {
    if |vs| == 1 || Decides(vs) then vs[|vs| - 1] else LastDeciding(vs[..|vs| - 1])
  }

  predicate InTime(vs: seq<Vote>) { forall i, j :: 0 <= i < j < |vs| ==> vs[i].ts <= vs[j].ts }

  // ----- the last of the latest -----

  /** The last among the latest. */
  function LastLatest(ps: seq<Vote>): Vote
    requires ps != []
  {
    if |ps| == 1 then ps[0]
    else
      var later := LastLatest(ps[1..]);
      if ps[0].ts <= later.ts then later else ps[0]
  }

  predicate LatestAt(ps: seq<Vote>, k: int) {
    && 0 <= k < |ps|
    && forall i :: 0 <= i < |ps| ==> if i <= k then ps[i].ts <= ps[k].ts else ps[i].ts < ps[k].ts
  }

  lemma {:induction false} LastLatestAt(ps: seq<Vote>) returns (k: nat)
    requires ps != []
    ensures LatestAt(ps, k) && ps[k] == LastLatest(ps)
  {
    if |ps| == 1 {
      k := 0;
    } else {
      var rest := ps[1..];
      k := LastLatestAt(rest);
      assert forall i :: 0 < i < |ps| ==> ps[i] == rest[i - 1];
      k := if ps[0].ts <= rest[k].ts then k + 1 else 0;
    }
  }

  lemma LatestIsLast(ps: seq<Vote>, k: nat)
    requires LatestAt(ps, k)
    ensures LastLatest(ps) == ps[k]
  {
    var j := LastLatestAt(ps);
    assert j == k by {
      assert ps[j].ts <= ps[k].ts <= ps[j].ts;
    }
  }

  lemma SortedVotes(ps: seq<Vote>)
    ensures SortedBy(SortBy(ps, Earlier), Earlier) && |SortBy(ps, Earlier)| == |ps|
  {
    assert TotalPreorder(Earlier);
    SortSorts(ps, Earlier);
    SortKeepsElements(ps, Earlier);
  }

  /** The stable sort lists the last of the latest at the end. */
  lemma {:induction false} EndOfSorted(ps: seq<Vote>)
    requires ps != []
    ensures var sorted := SortBy(ps, Earlier); sorted != [] && sorted[|sorted| - 1] == LastLatest(ps)
  {
    SortedVotes(ps[1..]);
    EndOfInsert(ps[0], SortBy(ps[1..], Earlier));
    if |ps| > 1 { EndOfSorted(ps[1..]); }
  }

  lemma {:induction false} EndOfInsert(v: Vote, sorted: seq<Vote>)
    requires SortedBy(sorted, Earlier)
    ensures var out := Insert(v, sorted, Earlier);
      out != [] && out[|out| - 1] == if sorted == [] || sorted[|sorted| - 1].ts < v.ts then v else sorted[|sorted| - 1]
  {
    if sorted != [] {
      assert |sorted| > 1 ==> Earlier(sorted[0], sorted[|sorted| - 1]);
      if !Earlier(v, sorted[0]) { EndOfInsert(v, sorted[1..]); }
    }
  }

  // ----- the latest peak decides -----

  lemma PeaksOfNewcomer(vs: seq<Vote>, v: Vote)
    requires v.actor !in Voters(vs)
    ensures FirstPeaks(vs + [v], Voters(vs + [v])) == FirstPeaks(vs, Voters(vs)) + [v]
  {
    VotersSnoc(vs, v);
    var ps, qs := FirstPeaks(vs, Voters(vs)), FirstPeaks(vs + [v], Voters(vs + [v]));
    forall i | 0 <= i < |ps| ensures qs[i] == ps[i] {
      assert Voters(vs)[i] in Voters(vs);
      FirstPeakSnoc(vs, v, Voters(vs)[i]);
    }
    FirstPeakSnoc(vs, v, v.actor);
  }

  lemma PeaksOfKnown(vs: seq<Vote>, v: Vote, k: nat)
    requires k < |Voters(vs)| && Voters(vs)[k] == v.actor
    ensures Voters(vs + [v]) == Voters(vs)
    ensures FirstPeaks(vs + [v], Voters(vs + [v])) ==
            if Raises(vs + [v]) then FirstPeaks(vs, Voters(vs))[k := v] else FirstPeaks(vs, Voters(vs))
  {
    VotersSnoc(vs, v);
    assert (vs + [v])[..|vs|] == vs;
    var ps, qs := FirstPeaks(vs, Voters(vs)), FirstPeaks(vs + [v], Voters(vs + [v]));
    forall i | 0 <= i < |ps| ensures qs[i] == if i == k && Raises(vs + [v]) then v else ps[i] {
      assert Voters(vs)[i] in Voters(vs);
      FirstPeakSnoc(vs, v, Voters(vs)[i]);
    }
  }

  lemma PeakAmongVotes(vs: seq<Vote>, u: Vote)
    requires u in FirstPeaks(vs, Voters(vs))
    ensures u in vs
  {
    var i :| 0 <= i < |Voters(vs)| && FirstPeaks(vs, Voters(vs))[i] == u;
    assert Voters(vs)[i] in Voters(vs);
  }

  lemma PeaksNotAfter(vs: seq<Vote>, v: Vote)
    requires InTime(vs + [v])
    ensures InTime(vs) && forall u :: u in FirstPeaks(vs, Voters(vs)) ==> u.ts <= v.ts
  {
    var all := vs + [v];
    assert forall i :: 0 <= i < |vs| ==> all[i] == vs[i];
    forall u | u in vs ensures u.ts <= v.ts {
      var i :| 0 <= i < |vs| && vs[i] == u;
      assert all[i].ts <= all[|vs|].ts;
    }
    forall u | u in FirstPeaks(vs, Voters(vs)) ensures u in vs { PeakAmongVotes(vs, u); }
  }

  predicate TiedBehind(ps: seq<Vote>, k: int, t: int) { exists j :: k < j < |ps| && 0 <= j && ps[j].ts == t }

  /** Of peaks none of which is after `v`, with `v` put at `k`, the last of the latest is `v` unless one behind it is as late. */
  lemma LatestReplaced(ps: seq<Vote>, k: nat, v: Vote)
    requires k < |ps| && forall i :: 0 <= i < |ps| ==> ps[i].ts <= v.ts
    ensures LastLatest(ps[k := v]) == if TiedBehind(ps, k, v.ts) then LastLatest(ps) else v
  {
    var qs := ps[k := v];
    if TiedBehind(ps, k, v.ts) {
      var m := LastLatestAt(ps);
      var j :| k < j < |ps| && ps[j].ts == v.ts;
      assert ps[j].ts <= ps[m].ts;
      assert LatestAt(qs, m);
      LatestIsLast(qs, m);
    } else {
      assert LatestAt(qs, k);
      LatestIsLast(qs, k);
    }
  }

  lemma PeakActor(vs: seq<Vote>, i: nat)
    requires i < |Voters(vs)|
    ensures FirstPeaks(vs, Voters(vs))[i].actor == Voters(vs)[i]
  {
    assert Voters(vs)[i] in Voters(vs);
  }

  lemma TieInList(ps: seq<Vote>, k: nat, v: Vote)
    requires k < |ps| && forall i :: 0 <= i < |ps| ==> (ps[i].actor == v.actor <==> i == k)
    ensures NoTieBehind(ps[k := v], v) <==> !TiedBehind(ps, k, v.ts)
  {
    var qs := ps[k := v];
    assert qs[k].actor == v.actor;
    assert forall j :: k < j < |ps| ==> qs[j] == ps[j];
    if !NoTieBehind(qs, v) {
      var i, j :| 0 <= i < j < |qs| && qs[i].actor == v.actor && qs[j].ts == v.ts;
      assert i == k && ps[j].ts == v.ts;
    }
  }

  lemma TieBehind(vs: seq<Vote>, v: Vote, k: nat)
    requires k < |Voters(vs)| && Voters(vs)[k] == v.actor && Raises(vs + [v])
    ensures LastToJoin(vs + [v]) <==> !TiedBehind(FirstPeaks(vs, Voters(vs)), k, v.ts)
  {
    var ps := FirstPeaks(vs, Voters(vs));
    PeaksOfKnown(vs, v, k);
    forall i | 0 <= i < |ps| ensures ps[i].actor == v.actor <==> i == k { PeakActor(vs, i); }
    TieInList(ps, k, v);
  }

  lemma NewcomerDecides(vs: seq<Vote>, v: Vote)
    requires v.actor !in Voters(vs)
    ensures Decides(vs + [v])
  {
    assert (vs + [v])[..|vs|] == vs;
    PeaksOfNewcomer(vs, v);
    forall i | 0 <= i < |Voters(vs)| ensures FirstPeaks(vs, Voters(vs))[i].actor != v.actor {
      PeakActor(vs, i);
      assert Voters(vs)[i] in Voters(vs);
    }
  }

  lemma LatestOfNewcomer(vs: seq<Vote>, v: Vote)
    requires InTime(vs + [v]) && v.actor !in Voters(vs)
    ensures FirstPeaks(vs + [v], Voters(vs + [v])) != [] && LastLatest(FirstPeaks(vs + [v], Voters(vs + [v]))) == v
  {
    PeaksNotAfter(vs, v);
    PeaksOfNewcomer(vs, v);
    AppendedIsLatest(FirstPeaks(vs, Voters(vs)), v);
  }

  lemma AppendedIsLatest(ps: seq<Vote>, v: Vote)
    requires forall u :: u in ps ==> u.ts <= v.ts
    ensures LastLatest(ps + [v]) == v
  {
    assert forall i :: 0 <= i < |ps| ==> (ps + [v])[i] in ps;
    LatestIsLast(ps + [v], |ps|);
  }

  lemma LatestOfKnown(vs: seq<Vote>, v: Vote, k: nat)
    requires InTime(vs + [v]) && k < |Voters(vs)| && Voters(vs)[k] == v.actor
    ensures var ps, qs := FirstPeaks(vs, Voters(vs)), FirstPeaks(vs + [v], Voters(vs + [v]));
      ps != [] && qs != [] && LastLatest(qs) == if Decides(vs + [v]) then v else LastLatest(ps)
  {
    PeaksNotAfter(vs, v);
    PeaksOfKnown(vs, v, k);
    if Raises(vs + [v]) {
      TieBehind(vs, v, k);
      LatestReplaced(FirstPeaks(vs, Voters(vs)), k, v);
    }
  }

  /** The last of the latest peaks is the vote that decided last. */
  lemma {:induction false} LatestPeakDecides(vs: seq<Vote>)
    requires vs != [] && InTime(vs)
    ensures FirstPeaks(vs, Voters(vs)) != [] && LastLatest(FirstPeaks(vs, Voters(vs))) == LastDeciding(vs)
  {
    var front, v := vs[..|vs| - 1], vs[|vs| - 1];
    assert vs == front + [v];
    if v.actor !in Voters(front) {
      LatestOfNewcomer(front, v);
      NewcomerDecides(front, v);
    } else {
      LatestPeakDecides(front);
      var k :| 0 <= k < |Voters(front)| && Voters(front)[k] == v.actor;
      LatestOfKnown(front, v, k);
    }
  }

  lemma AlphaOneIsEnd(vs: seq<Vote>)
    requires vs != []
    ensures FirstPeaks(vs, Voters(vs)) != [] && InTimeOrder(vs) != []
    ensures Fold(1.0, ConfidencesOf(InTimeOrder(vs))) == LastLatest(FirstPeaks(vs, Voters(vs))).confidence
  {
    SomePeak(vs);
    EndOfSorted(FirstPeaks(vs, Voters(vs)));
    var xs := ConfidencesOf(InTimeOrder(vs));
    assert Fold(1.0, xs) == xs[|xs| - 1];
  }

  /** With a smoothing factor of one and votes in time order, as in every chain, the result is not the confidence of the last
      VALIDATE but that of the last one that raised its actor's maximum -- among votes of one instant, of the actor that
      joined the vote last. */
  lemma AlphaOneIsLastDeciding(vs: seq<Vote>)
    requires vs != [] && InTime(vs)
    ensures InTimeOrder(vs) != [] && Fold(1.0, ConfidencesOf(InTimeOrder(vs))) == LastDeciding(vs).confidence
  {
    AlphaOneIsEnd(vs);
    LatestPeakDecides(vs);
  }

  /** So it equals the last-VALIDATE strategy exactly when the last vote decides, or when the vote that decided last reported the
      same confidence. */
  lemma AlphaOneIsLastVoteIff(vs: seq<Vote>)
    requires vs != [] && InTime(vs)
    ensures InTimeOrder(vs) != []
    ensures Fold(1.0, ConfidencesOf(InTimeOrder(vs))) == vs[|vs| - 1].confidence <==>
              Decides(vs) || (|vs| > 1 && LastDeciding(vs[..|vs| - 1]).confidence == vs[|vs| - 1].confidence)
  {
    AlphaOneIsLastDeciding(vs);
    if |vs| == 1 {
      assert vs == [] + [vs[0]];
      NewcomerDecides([], vs[0]);
    }
  }

  method EwmaConfidence(vs: seq<Vote>, alpha: real) returns (r: real)
    ensures vs == [] ==> r == 0.0
    ensures vs != [] ==> InTimeOrder(vs) != [] && r == Clamp(Fold(alpha, ConfidencesOf(InTimeOrder(vs))))
    ensures vs != [] ==> CutTo(WeightedSum(ConfidencesOf(InTimeOrder(vs)), Shares(alpha, |InTimeOrder(vs)|)), r)
    ensures vs != [] && AllProbable(vs) && Unit(alpha) ==> Between(ConfidencesOf(InTimeOrder(vs)), r)
  {
    if vs == [] { return 0.0; }
    var order, best := ActorPeaks(vs);
    var list := seq(|order|, i requires 0 <= i < |order| && order[i] in best => best[order[i]]);
    assert list == FirstPeaks(vs, order);
    SomePeak(vs);
    var ewma := Smooth(SortBy(list, Earlier), alpha);
    r := Clamp(ewma);
    FoldIsWeighted(alpha, ConfidencesOf(InTimeOrder(vs)));
    if AllProbable(vs) && Unit(alpha) { ProbableFold(vs, alpha); }
  }

  lemma SomePeak(vs: seq<Vote>)
    requires vs != []
    ensures InTimeOrder(vs) != []
  {
    assert vs[0].actor in Voters(vs);
    SortKeepsElements(FirstPeaks(vs, Voters(vs)), Earlier);
  }

  method Smooth(sorted: seq<Vote>, alpha: real) returns (ewma: real)
    requires sorted != []
    ensures ewma == Fold(alpha, ConfidencesOf(sorted))
  {
    ewma := sorted[0].confidence;
    ghost var xs := ConfidencesOf(sorted);
    for i := 1 to |sorted|
      invariant ewma == Fold(alpha, xs[..i])
    {
      assert xs[..i + 1][..i] == xs[..i];
      ewma := Smoothed(alpha, sorted[i].confidence, ewma);
    }
    assert xs[..|sorted|] == xs;
  }

  lemma ProbableFold(vs: seq<Vote>, alpha: real)
    requires vs != [] && AllProbable(vs) && Unit(alpha)
    ensures InTimeOrder(vs) != []
    ensures Unit(Fold(alpha, ConfidencesOf(InTimeOrder(vs)))) && Between(ConfidencesOf(InTimeOrder(vs)), Fold(alpha, ConfidencesOf(InTimeOrder(vs))))
  {
    var list, sorted := FirstPeaks(vs, Voters(vs)), InTimeOrder(vs);
    SortKeepsElements(list, Earlier);
    assert vs[0].actor in Voters(vs);
    forall i | 0 <= i < |sorted| ensures Unit(sorted[i].confidence) {
      assert sorted[i] in multiset(sorted);
      assert sorted[i] in list;
    }
    FoldBounds(alpha, ConfidencesOf(sorted), 0.0, 1.0);
    FoldIsBetween(alpha, ConfidencesOf(sorted));
  }

  /** The dictionary from actor to its first peak, with its keys in insertion order. */
  method ActorPeaks(vs: seq<Vote>) returns (order: seq<string>, best: map<string, Vote>)
    ensures order == Voters(vs) && AreFirstPeaks(vs, order, best)
  {
    order, best := [], map[];
    for i := 0 to |vs|
      invariant order == Voters(vs[..i]) && AreFirstPeaks(vs[..i], order, best)
    {
      TakeSnoc(vs, i);
      var v := vs[i];
      PeaksSnoc(vs[..i], v, order, best);
      if v.actor !in best { order := order + [v.actor]; }
      if v.actor !in best || v.confidence > best[v.actor].confidence { best := best[v.actor := v]; }
    }
    assert vs[..|vs|] == vs;
  }

  ghost predicate AreFirstPeaks(vs: seq<Vote>, order: seq<string>, best: map<string, Vote>) {
    && (forall a :: a in best <==> a in order)
    && forall a :: a in best ==> a in Voters(vs) && best[a] == FirstPeak(vs, a)
  }

  lemma VotersSnoc(vs: seq<Vote>, v: Vote)
    ensures Voters(vs + [v]) == if v.actor in Voters(vs) then Voters(vs) else Voters(vs) + [v.actor]
  {
    assert (vs + [v])[..|vs|] == vs;
  }

  /** What the dictionary holds after the vote `v`. */
  function WithVote(best: map<string, Vote>, v: Vote): (after: map<string, Vote>)
    ensures after.Keys == best.Keys + {v.actor}
    ensures forall a :: a in after ==>
              after[a] == if a == v.actor && (a !in best || v.confidence > best[a].confidence) then v else best[a]
  {
    if v.actor !in best || v.confidence > best[v.actor].confidence then best[v.actor := v] else best
  }

  lemma PeaksSnoc(vs: seq<Vote>, v: Vote, order: seq<string>, best: map<string, Vote>)
    requires order == Voters(vs) && AreFirstPeaks(vs, order, best)
    ensures Voters(vs + [v]) == if v.actor in best then order else order + [v.actor]
    ensures AreFirstPeaks(vs + [v], Voters(vs + [v]), WithVote(best, v))
  {
    VotersSnoc(vs, v);
    var after, all := WithVote(best, v), vs + [v];
    assert forall a :: a in after.Keys <==> a in Voters(all);
    forall a | a in after ensures a in Voters(all) && after[a] == FirstPeak(all, a) {
      FirstPeakSnoc(vs, v, a);
    }
  }
}
