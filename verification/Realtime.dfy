/** Detection of laundering patterns at the moment an event is appended (adl_lite/realtime.py). */
module RealtimeWatchers {
  import opened Basics
  import opened Events

  /** An event as the detector reads its type and payload. */
  datatype Transfer = Transfer(kind: EventType, actor: string, flagged: bool, amount: real, recipient: string)

  datatype Alert =
    | Smurfing(count: nat) | RapidMovement(count: nat) | FanOut(targets: nat)
    | Validated(actor: string) | Deprecated(actor: string)
    | ChainSize(milestone: string, length: nat)
    | LargeTransaction(amount: real)

  const WINDOW := 5
  const THRESHOLD := 1000.0
  const RAPID := 10
  const FAN := 5
  const LARGE := 1000000.0

  function Flagged(es: seq<Transfer>): (fs: seq<Transfer>)
    ensures |fs| <= |es|
  {
    if es == [] then [] else
      var front, last := Flagged(es[..|es| - 1]), es[|es| - 1];
      if last.flagged then front + [last] else front
  }

  function Amounts(fs: seq<Transfer>): (a: seq<real>)
    ensures |a| == |fs|
  {
    seq(|fs|, i requires 0 <= i < |fs| => fs[i].amount)
  }

  function Recipients(fs: seq<Transfer>): set<string> { set i | 0 <= i < |fs| && fs[i].recipient != "" :: fs[i].recipient }

  predicate Small(a: seq<real>, lo: nat, hi: nat)
    requires lo <= hi <= |a|
  {
    forall k :: lo <= k < hi ==> a[k] < THRESHOLD
  }

  /** The last five amounts are small and, if there are more, the five before the last were not all small. */
  predicate Fires(a: seq<real>) {
    && |a| >= WINDOW
    && Small(a, |a| - WINDOW, |a|)
    && (|a| == WINDOW || !Small(a, |a| - WINDOW - 1, |a| - 1))
  }

  /** What the laundering rules find in the flagged events. */
  datatype Found = Found(smurfing: bool, rapid: bool, fanOut: bool, count: nat)

  function Patterns(chain: seq<Transfer>, e: Transfer): Found {
    if !e.flagged then Found(false, false, false, 0)
    else
      var fs := Flagged(chain);
      Found(Fires(Amounts(fs)), |fs| == RAPID, |Recipients(fs)| == FAN, |fs|)
  }

  function LaunderingAlerts(p: Found): seq<Alert> {
    When(p.smurfing, Smurfing(p.count)) + When(p.rapid, RapidMovement(p.count)) + When(p.fanOut, FanOut(FAN))
  }

  function StatusAlerts(e: Transfer): seq<Alert> {
    When(e.kind == Validate, Validated(e.actor)) + When(e.kind == Deprecate, Deprecated(e.actor))
  }

  /** Chain lengths that are reported, and how. */
  function SizeAlerts(length: nat): seq<Alert> {
    When(length == 100, ChainSize("chain_large", length)) + When(length == 1000, ChainSize("chain_xlarge", length))
    + When(length == 10000, ChainSize("chain_huge", length))
  }

  function AmountAlerts(e: Transfer): seq<Alert> { When(e.amount >= LARGE, LargeTransaction(e.amount)) }

  function AllAlerts(p: Found, e: Transfer, length: nat): seq<Alert> {
    LaunderingAlerts(p) + (StatusAlerts(e) + (SizeAlerts(length) + AmountAlerts(e)))
  }

  /** All rules, for the event that was appended last. */
  function AlertsFor(chain: seq<Transfer>, e: Transfer): seq<Alert> { AllAlerts(Patterns(chain, e), e, |chain|) }

  /** All alerts of a stream whose every event is appended and then checked. */
  function StreamAlerts(es: seq<Transfer>): seq<Alert> {
    if es == [] then [] else StreamAlerts(es[..|es| - 1]) + AlertsFor(es, es[|es| - 1])
  }

  /** The alert types by which callers filter and count. */
  datatype AlertType = SmurfingType | RapidType | FanOutType | ValidatedType | DeprecatedType | SizeType | LargeType

  function TypeOf(a: Alert): AlertType {
    match a
    case Smurfing(_) => SmurfingType
    case RapidMovement(_) => RapidType
    case FanOut(_) => FanOutType
    case Validated(_) => ValidatedType
    case Deprecated(_) => DeprecatedType
    case ChainSize(_, _) => SizeType
    case LargeTransaction(_) => LargeType
  }

  /** How many of the alerts are of a type. */
  function Tally(alerts: seq<Alert>, t: AlertType): nat {
    if alerts == [] then 0 else Tally(alerts[..|alerts| - 1], t) + One(TypeOf(alerts[|alerts| - 1]) == t)
  }

  function One(b: bool): nat { if b then 1 else 0 }

  // ----- maximal blocks -----

  /** Positions lo to hi hold a maximal run of small amounts, of at least five. */
  predicate MaximalBlock(a: seq<real>, lo: nat, hi: nat) {
    && lo + 5 <= hi <= |a|
    && (forall k :: lo <= k < hi ==> a[k] < 1000.0)
    && (lo == 0 || a[lo - 1] >= 1000.0)
    && (hi == |a| || a[hi] >= 1000.0)
  }

  predicate StartsBlock(a: seq<real>, lo: nat) {
    lo + WINDOW <= |a| && Small(a, lo, lo + WINDOW) && (lo == 0 || a[lo - 1] >= THRESHOLD)
  }

  function BlockStarts(a: seq<real>): set<nat> { set lo | 0 <= lo < |a| && StartsBlock(a, lo) }

  /** Where the run of small amounts that covers `from` ends. */
  function RunEnd(a: seq<real>, from: nat): (hi: nat)
    requires from <= |a|
    ensures from <= hi <= |a| && Small(a, from, hi) && (hi == |a| || a[hi] >= THRESHOLD)
    decreases |a| - from
  {
    if from == |a| || a[from] >= THRESHOLD then from else RunEnd(a, from + 1)
  }

  /** The starts are exactly the starts of maximal blocks, and a start has one block. */
  lemma StartsAreBlocks(a: seq<real>, lo: nat)
    ensures lo in BlockStarts(a) <==> exists hi: nat :: MaximalBlock(a, lo, hi)
    ensures forall hi: nat, other: nat :: MaximalBlock(a, lo, hi) && MaximalBlock(a, lo, other) ==> hi == other
  {
    if lo in BlockStarts(a) {
      var hi := RunEnd(a, lo + WINDOW);
      assert MaximalBlock(a, lo, hi);
    }
    if hi: nat :| MaximalBlock(a, lo, hi) {
      assert StartsBlock(a, lo);
    }
    forall hi: nat, other: nat | MaximalBlock(a, lo, hi) && MaximalBlock(a, lo, other) ensures hi == other {
      assert hi < |a| ==> a[hi] >= THRESHOLD;
      assert other < |a| ==> a[other] >= THRESHOLD;
    }
  }

  /** A new amount starts a block exactly when the detector fires. */
  lemma StartsSnoc(a: seq<real>, x: real)
    ensures BlockStarts(a + [x]) == BlockStarts(a) + (if Fires(a + [x]) then {|a| + 1 - WINDOW} else {})
    ensures Fires(a + [x]) ==> |a| + 1 - WINDOW !in BlockStarts(a)
  {
    var b := a + [x];
    forall lo: nat | lo + WINDOW <= |a| ensures StartsBlock(b, lo) <==> StartsBlock(a, lo) {
      assert forall k :: 0 <= k < |a| ==> b[k] == a[k];
    }
    if |b| >= WINDOW {
      var lo := |b| - WINDOW;
      assert Small(b, lo, |b|) && lo > 0 ==> (!Small(b, lo - 1, |b| - 1) <==> b[lo - 1] >= THRESHOLD);
      assert StartsBlock(b, lo) <==> Fires(b);
    }
  }

  lemma {:induction false} TallyConcat(x: seq<Alert>, y: seq<Alert>, t: AlertType)
    ensures Tally(x + y, t) == Tally(x, t) + Tally(y, t)
  {
    if y == [] {
      assert x + y == x;
    } else {
      assert (x + y)[..|x + y| - 1] == x + y[..|y| - 1];
      TallyConcat(x, y[..|y| - 1], t);
    }
  }

  /** At most one alert. */
  function When(fires: bool, a: Alert): seq<Alert> { if fires then [a] else [] }

  lemma TallyWhen(fires: bool, a: Alert, t: AlertType)
    ensures Tally(When(fires, a), t) == One(fires && TypeOf(a) == t)
  {
    if fires { assert [a][..0] == []; }
  }

  lemma TallyThree(f: bool, a: Alert, g: bool, b: Alert, h: bool, c: Alert, t: AlertType)
    ensures Tally(When(f, a) + When(g, b) + When(h, c), t) == One(f && TypeOf(a) == t) + One(g && TypeOf(b) == t) + One(h && TypeOf(c) == t)
  {
    TallyWhen(f, a, t);
    TallyWhen(g, b, t);
    TallyWhen(h, c, t);
    TallyConcat(When(f, a) + When(g, b), When(h, c), t);
    TallyConcat(When(f, a), When(g, b), t);
  }

  lemma TallyStatus(e: Transfer, t: AlertType)
    ensures Tally(StatusAlerts(e), t) == One(e.kind == Validate && t == ValidatedType) + One(e.kind == Deprecate && t == DeprecatedType)
  {
    TallyWhen(e.kind == Validate, Validated(e.actor), t);
    TallyWhen(e.kind == Deprecate, Deprecated(e.actor), t);
    TallyConcat(When(e.kind == Validate, Validated(e.actor)), When(e.kind == Deprecate, Deprecated(e.actor)), t);
  }

  /** What one check raises of a type. */
  function RaisedOf(p: Found, e: Transfer, length: nat, t: AlertType): nat {
    match t
    case SmurfingType => One(p.smurfing)
    case RapidType => One(p.rapid)
    case FanOutType => One(p.fanOut)
    case ValidatedType => One(e.kind == Validate)
    case DeprecatedType => One(e.kind == Deprecate)
    case SizeType => One(length == 100 || length == 1000 || length == 10000)
    case LargeType => One(e.amount >= LARGE)
  }

  lemma TallyLaundering(p: Found, t: AlertType)
    ensures Tally(LaunderingAlerts(p), t) == One(p.smurfing && t == SmurfingType) + One(p.rapid && t == RapidType) + One(p.fanOut && t == FanOutType)
  {
    TallyThree(p.smurfing, Smurfing(p.count), p.rapid, RapidMovement(p.count), p.fanOut, FanOut(FAN), t);
  }

  lemma TallySizes(n: nat, t: AlertType)
    ensures Tally(SizeAlerts(n), t) == One(t == SizeType && (n == 100 || n == 1000 || n == 10000))
  {
    TallyThree(n == 100, ChainSize("chain_large", n), n == 1000, ChainSize("chain_xlarge", n), n == 10000, ChainSize("chain_huge", n), t);
  }

  lemma TallyFour(l: seq<Alert>, s: seq<Alert>, z: seq<Alert>, m: seq<Alert>, t: AlertType)
    ensures Tally(l + (s + (z + m)), t) == Tally(l, t) + Tally(s, t) + Tally(z, t) + Tally(m, t)
  {
    TallyConcat(l, s + (z + m), t);
    TallyConcat(s, z + m, t);
    TallyConcat(z, m, t);
  }

  /** What the four rules raise of a type, rule by rule. */
  lemma RaisedByRules(p: Found, e: Transfer, n: nat, t: AlertType, l: nat, s: nat, z: nat, m: nat)
    requires l == One(p.smurfing && t == SmurfingType) + One(p.rapid && t == RapidType) + One(p.fanOut && t == FanOutType)
    requires s == One(e.kind == Validate && t == ValidatedType) + One(e.kind == Deprecate && t == DeprecatedType)
    requires z == One(t == SizeType && (n == 100 || n == 1000 || n == 10000))
    requires m == One(e.amount >= LARGE && t == LargeType)
    ensures l + s + z + m == RaisedOf(p, e, n, t)
  {
  }

  lemma TallyAmount(e: Transfer, t: AlertType)
    ensures Tally(AmountAlerts(e), t) == One(e.amount >= LARGE && t == LargeType)
  {
    TallyWhen(e.amount >= LARGE, LargeTransaction(e.amount), t);
  }

  lemma TallyCheck(p: Found, e: Transfer, n: nat, t: AlertType)
    ensures Tally(AllAlerts(p, e, n), t) == RaisedOf(p, e, n, t)
  {
    var l, s, z, m := LaunderingAlerts(p), StatusAlerts(e), SizeAlerts(n), AmountAlerts(e);
    TallyFour(l, s, z, m, t);
    TallyLaundering(p, t);
    TallyStatus(e, t);
    TallySizes(n, t);
    TallyAmount(e, t);
    RaisedByRules(p, e, n, t, Tally(l, t), Tally(s, t), Tally(z, t), Tally(m, t));
  }

  /** One more event: the alerts of a type are those before and what its check raises. */
  lemma TallySnoc(es: seq<Transfer>, p: Found, t: AlertType)
    requires es != [] && p == Patterns(es, es[|es| - 1])
    ensures var e := es[|es| - 1];
      Tally(StreamAlerts(es), t) == Tally(StreamAlerts(es[..|es| - 1]), t) + RaisedOf(p, e, |es|, t)
  {
    TallyConcat(StreamAlerts(es[..|es| - 1]), AllAlerts(p, es[|es| - 1], |es|), t);
    TallyCheck(p, es[|es| - 1], |es|, t);
  }

  /** What the laundering rules find does not matter to the other types. */
  lemma TallyOther(es: seq<Transfer>, t: AlertType)
    requires es != [] && !t.SmurfingType? && !t.RapidType? && !t.FanOutType?
    ensures Tally(StreamAlerts(es), t) == Tally(StreamAlerts(es[..|es| - 1]), t) + RaisedOf(Found(false, false, false, 0), es[|es| - 1], |es|, t)
  {
    TallySnoc(es, Patterns(es, es[|es| - 1]), t);
  }

  lemma BlocksAfter(a: seq<real>, x: real)
    ensures |BlockStarts(a + [x])| == |BlockStarts(a)| + One(Fires(a + [x]))
  {
    StartsSnoc(a, x);
  }

  lemma AmountsSnoc(es: seq<Transfer>)
    requires es != []
    ensures var front, e := es[..|es| - 1], es[|es| - 1];
      Amounts(Flagged(es)) == if e.flagged then Amounts(Flagged(front)) + [e.amount] else Amounts(Flagged(front))
  {
  }

  /** One more event starts a block exactly when the rule finds one. */
  lemma BlocksSnoc(es: seq<Transfer>)
    requires es != []
    ensures var e := es[|es| - 1];
      |BlockStarts(Amounts(Flagged(es)))| == |BlockStarts(Amounts(Flagged(es[..|es| - 1])))| + One(e.flagged && Fires(Amounts(Flagged(es))))
  {
    AmountsSnoc(es);
    if es[|es| - 1].flagged { BlocksAfter(Amounts(Flagged(es[..|es| - 1])), es[|es| - 1].amount); }
  }

  /** Over any stream, there is one smurfing alert for each maximal block of at least five consecutive small amounts
      among the flagged events. */
  lemma {:induction false} OneAlertPerBlock(es: seq<Transfer>)
    ensures Tally(StreamAlerts(es), SmurfingType) == |BlockStarts(Amounts(Flagged(es)))|
  {
    if es != [] {
      OneAlertPerBlock(es[..|es| - 1]);
      TallySnoc(es, Patterns(es, es[|es| - 1]), SmurfingType);
      BlocksSnoc(es);
    }
  }

  /** Rapid movement is reported once, and exactly when there are ten flagged events. */
  lemma {:induction false} RapidOnce(es: seq<Transfer>)
    ensures Tally(StreamAlerts(es), RapidType) == if |Flagged(es)| >= 10 then 1 else 0
  {
    if es != [] {
      var front, last := es[..|es| - 1], es[|es| - 1];
      RapidOnce(front);
      TallySnoc(es, Patterns(es, last), RapidType);
    }
  }

  /** How many flagged events it takes until `n` recipients are named; one more than there are when they never are. */
  function Reaching(fs: seq<Transfer>, n: nat): (k: nat)
    ensures k <= |fs| + 1 && (k <= |fs| <==> |Recipients(fs)| >= n)
  {
    if |Recipients(fs)| < n then |fs| + 1
    else if fs == [] then 0
    else if |Recipients(fs[..|fs| - 1])| >= n then Reaching(fs[..|fs| - 1], n)
    else |fs|
  }

  /** It is the least such number. */
  lemma {:induction false} ReachingIsLeast(fs: seq<Transfer>, n: nat, k: nat)
    requires k <= |fs|
    ensures |Recipients(fs[..k])| >= n <==> Reaching(fs, n) <= k
  {
    assert fs[..|fs|] == fs;
    if k < |fs| {
      var front, last := fs[..|fs| - 1], fs[|fs| - 1];
      assert fs == front + [last] && front[..k] == fs[..k];
      ReachingIsLeast(front, n, k);
      RecipientsGrow(front, last);
    }
  }

  lemma RecipientsGrow(fs: seq<Transfer>, e: Transfer)
    ensures |Recipients(fs)| <= |Recipients(fs + [e])| <= |Recipients(fs)| + 1
  {
    RecipientsSnoc(fs, e);
    if e.recipient != "" && e.recipient !in Recipients(fs) {
      assert |Recipients(fs) + {e.recipient}| == |Recipients(fs)| + 1;
    } else {
      assert Recipients(fs + [e]) == Recipients(fs);
    }
  }

  lemma ReachingSnoc(fs: seq<Transfer>, e: Transfer, n: nat)
    requires n > 0
    ensures Reaching(fs + [e], n) == if |Recipients(fs)| >= n then Reaching(fs, n)
                                     else if |Recipients(fs + [e])| >= n then |fs| + 1 else |fs| + 2
  {
    assert (fs + [e])[..|fs|] == fs;
    RecipientsGrow(fs, e);
  }

  /** Fan-out is not reported once: over any stream there is one alert for each flagged event from the one that names the fifth
      recipient up to, and without, the one that names the sixth. */
  lemma {:induction false} FanOutAlerts(es: seq<Transfer>)
    ensures Tally(StreamAlerts(es), FanOutType) == Reaching(Flagged(es), 6) - Reaching(Flagged(es), 5)
  {
    if es == [] {
      assert Recipients([]) == {};
    } else {
      var front, last := es[..|es| - 1], es[|es| - 1];
      FanOutAlerts(front);
      TallySnoc(es, Patterns(es, last), FanOutType);
      if last.flagged {
        var fs := Flagged(front);
        assert Flagged(es) == fs + [last];
        RecipientsGrow(fs, last);
        ReachingSnoc(fs, last, FAN);
        ReachingSnoc(fs, last, FAN + 1);
      }
    }
  }

  lemma RecipientsSnoc(fs: seq<Transfer>, e: Transfer)
    ensures Recipients(fs + [e]) == Recipients(fs) + (if e.recipient == "" then {} else {e.recipient})
  {
    var all := fs + [e];
    assert forall i :: 0 <= i < |fs| ==> all[i] == fs[i];
    assert all[|fs|] == e;
  }

  // ----- the other rules -----

  /** How many events are of the kind. */
  function CountKind(es: seq<Transfer>, k: EventType): nat {
    if es == [] then 0 else CountKind(es[..|es| - 1], k) + One(es[|es| - 1].kind == k)
  }

  /** How many amounts are a million or more. */
  function CountLarge(es: seq<Transfer>): nat {
    if es == [] then 0 else CountLarge(es[..|es| - 1]) + One(es[|es| - 1].amount >= 1000000.0)
  }

  function StatusType(k: EventType): AlertType
    requires k == Validate || k == Deprecate
  {
    if k == Validate then ValidatedType else DeprecatedType
  }

  /** Over any stream: one alert for each VALIDATE and each DEPRECATE. */
  lemma {:induction false} StatusReported(es: seq<Transfer>, k: EventType)
    requires k == Validate || k == Deprecate
    ensures Tally(StreamAlerts(es), StatusType(k)) == CountKind(es, k)
  {
    if es != [] {
      StatusReported(es[..|es| - 1], k);
      TallyOther(es, StatusType(k));
    }
  }

  /** One for each amount of a million or more. */
  lemma {:induction false} LargeReported(es: seq<Transfer>)
    ensures Tally(StreamAlerts(es), LargeType) == CountLarge(es)
  {
    if es != [] {
      LargeReported(es[..|es| - 1]);
      TallyOther(es, LargeType);
    }
  }

  lemma PassedSnoc(n: nat)
    ensures Passed(n + 1) == Passed(n) + One(n + 1 == 100 || n + 1 == 1000 || n + 1 == 10000)
  {
  }

  /** How many of the reported lengths `n` has reached. */
  function Passed(n: nat): nat { One(n >= 100) + One(n >= 1000) + One(n >= 10000) }

  /** And one when the chain reaches a hundred, a thousand and ten thousand events. */
  lemma {:induction false} SizeReportedOnce(es: seq<Transfer>)
    ensures Tally(StreamAlerts(es), SizeType) == One(|es| >= 100) + One(|es| >= 1000) + One(|es| >= 10000)
  {
    if es != [] {
      SizeReportedOnce(es[..|es| - 1]);
      assert Tally(StreamAlerts(es[..|es| - 1]), SizeType) == Passed(|es| - 1);
      TallyOther(es, SizeType);
      PassedSnoc(|es| - 1);
    }
  }

  function MilestoneAlerts(ms: seq<(nat, string)>, size: nat): seq<Alert> {
    if ms == [] then []
    else MilestoneAlerts(ms[..|ms| - 1], size) + When(size == ms[|ms| - 1].0, ChainSize(ms[|ms| - 1].1, size))
  }

  lemma MilestonesAreSizes(size: nat)
    ensures MilestoneAlerts([(100, "chain_large"), (1000, "chain_xlarge"), (10000, "chain_huge")], size) == SizeAlerts(size)
  {
    var a: (nat, string), b: (nat, string), c: (nat, string) := (100, "chain_large"), (1000, "chain_xlarge"), (10000, "chain_huge");
    assert [a, b, c][..2] == [a, b] && [a, b][..1] == [a] && [a][..0] == [];
    assert MilestoneAlerts([], size) == [];
    assert MilestoneAlerts([a], size) == When(size == 100, ChainSize("chain_large", size));
    assert MilestoneAlerts([a, b], size) == MilestoneAlerts([a], size) + When(size == 1000, ChainSize("chain_xlarge", size));
  }

  // ----- one check -----

  /** Flagging picks events one by one and keeps their order. */
  lemma {:induction false} FlaggedOfConcat(a: seq<Transfer>, b: seq<Transfer>)
    ensures Flagged(a + b) == Flagged(a) + Flagged(b)
  {
    if b == [] {
      assert a + b == a;
    } else {
      var n := |b| - 1;
      assert (a + b)[..|a + b| - 1] == a + b[..n];
      FlaggedOfConcat(a, b[..n]);
    }
  }

  lemma FlaggedOfOne(e: Transfer)
    ensures Flagged([e]) == if e.flagged then [e] else []
  {
    assert [e][..0] == [];
  }

  /** The amounts end in at least five under a thousand, and the one before those five, if there is one, is not under it. */
  predicate FiveSmallAtLast(a: seq<real>) {
    && |a| >= 5 && (forall k :: |a| - 5 <= k < |a| ==> a[k] < 1000.0)
    && (|a| > 5 ==> a[|a| - 6] >= 1000.0)
  }

  lemma FiresIff(a: seq<real>)
    ensures Fires(a) <==> FiveSmallAtLast(a)
  {
    if |a| > WINDOW && Small(a, |a| - WINDOW, |a|) {
      assert Small(a, |a| - WINDOW - 1, |a| - 1) <==> a[|a| - 6] < 1000.0;
    }
  }

  /** What the rules have to say about the event `e` at the end of the chain. */
  predicate Alarming(chain: seq<Transfer>, e: Transfer, a: Alert) {
    match a
    case Smurfing(n) => e.flagged && FiveSmallAtLast(Amounts(Flagged(chain))) && n == |Flagged(chain)|
    case RapidMovement(n) => e.flagged && n == |Flagged(chain)| == 10
    case FanOut(n) => e.flagged && n == |Recipients(Flagged(chain))| == 5
    case Validated(actor) => e.kind == Validate && actor == e.actor
    case Deprecated(actor) => e.kind == Deprecate && actor == e.actor
    case ChainSize(milestone, n) =>
      n == |chain| && ((n == 100 && milestone == "chain_large") || (n == 1000 && milestone == "chain_xlarge") || (n == 10000 && milestone == "chain_huge"))
    case LargeTransaction(x) => x == e.amount && x >= 1000000.0
  }

  lemma InThree(f: bool, x: Alert, g: bool, y: Alert, h: bool, z: Alert, a: Alert)
    ensures a in When(f, x) + When(g, y) + When(h, z) <==> (f && a == x) || (g && a == y) || (h && a == z)
  {
  }

  lemma StatusIff(chain: seq<Transfer>, e: Transfer, a: Alert)
    ensures a in StatusAlerts(e) <==> Alarming(chain, e, a) && (a.Validated? || a.Deprecated?)
  {
  }

  lemma SizeIff(chain: seq<Transfer>, e: Transfer, a: Alert)
    ensures a in SizeAlerts(|chain|) <==> Alarming(chain, e, a) && a.ChainSize?
  {
    var n := |chain|;
    InThree(n == 100, ChainSize("chain_large", n), n == 1000, ChainSize("chain_xlarge", n), n == 10000, ChainSize("chain_huge", n), a);
  }

  lemma LaunderingIff(chain: seq<Transfer>, e: Transfer, a: Alert)
    ensures a in LaunderingAlerts(Patterns(chain, e)) <==> Alarming(chain, e, a) && (a.Smurfing? || a.RapidMovement? || a.FanOut?)
  {
    var p := Patterns(chain, e);
    FiresIff(Amounts(Flagged(chain)));
    InThree(p.smurfing, Smurfing(p.count), p.rapid, RapidMovement(p.count), p.fanOut, FanOut(FAN), a);
  }

  lemma InFour(l: seq<Alert>, s: seq<Alert>, z: seq<Alert>, m: seq<Alert>, a: Alert)
    ensures a in l + (s + (z + m)) <==> a in l || a in s || a in z || a in m
  {
  }

  /** One check raises exactly the alerts that are called for, with what they tell. */
  lemma AlertIff(chain: seq<Transfer>, e: Transfer, a: Alert)
    ensures a in AlertsFor(chain, e) <==> Alarming(chain, e, a)
  {
    LaunderingIff(chain, e, a);
    StatusIff(chain, e, a);
    SizeIff(chain, e, a);
    InFour(LaunderingAlerts(Patterns(chain, e)), StatusAlerts(e), SizeAlerts(|chain|), AmountAlerts(e), a);
  }

  /** The place of a rule in the order of the checks. */
  function Rank(t: AlertType): nat {
    match t
    case SmurfingType => 0 case RapidType => 1 case FanOutType => 2 case ValidatedType => 3
    case DeprecatedType => 4 case SizeType => 5 case LargeType => 6
  }

  /** At most one alert of each type, in the order of the rules. */
  predicate InRuleOrder(alerts: seq<Alert>) {
    forall i, j :: 0 <= i < j < |alerts| ==> Rank(TypeOf(alerts[i])) < Rank(TypeOf(alerts[j]))
  }

  predicate Ranked(alerts: seq<Alert>, lo: nat, hi: nat) {
    InRuleOrder(alerts) && forall i :: 0 <= i < |alerts| ==> lo <= Rank(TypeOf(alerts[i])) < hi
  }

  lemma RankedConcat(x: seq<Alert>, y: seq<Alert>, lo: nat, m: nat, hi: nat)
    requires Ranked(x, lo, m) && Ranked(y, m, hi) && lo <= m <= hi
    ensures Ranked(x + y, lo, hi)
  {
    var z := x + y;
    assert forall i :: 0 <= i < |x| ==> z[i] == x[i];
    assert forall i :: |x| <= i < |z| ==> z[i] == y[i - |x|];
  }

  lemma RankedWhen(f: bool, a: Alert, r: nat)
    requires Rank(TypeOf(a)) == r
    ensures Ranked(When(f, a), r, r + 1)
  {
  }

  lemma RankedThree(f: bool, x: Alert, g: bool, y: Alert, h: bool, z: Alert, r: nat)
    requires Rank(TypeOf(x)) == r && Rank(TypeOf(y)) == r + 1 && Rank(TypeOf(z)) == r + 2
    ensures Ranked(When(f, x) + When(g, y) + When(h, z), r, r + 3)
  {
  }

  lemma RankedLaundering(p: Found)
    ensures Ranked(LaunderingAlerts(p), 0, 3)
  {
    RankedThree(p.smurfing, Smurfing(p.count), p.rapid, RapidMovement(p.count), p.fanOut, FanOut(FAN), 0);
  }

  lemma RankedStatus(e: Transfer)
    ensures Ranked(StatusAlerts(e), 3, 5)
  {
    RankedWhen(e.kind == Validate, Validated(e.actor), 3);
    RankedWhen(e.kind == Deprecate, Deprecated(e.actor), 4);
    RankedConcat(When(e.kind == Validate, Validated(e.actor)), When(e.kind == Deprecate, Deprecated(e.actor)), 3, 4, 5);
  }

  lemma RankedSize(n: nat)
    ensures Ranked(SizeAlerts(n), 5, 6)
  {
  }

  lemma AlertsInRuleOrder(chain: seq<Transfer>, e: Transfer)
    ensures InRuleOrder(AlertsFor(chain, e))
  {
    var l, s, z, m := LaunderingAlerts(Patterns(chain, e)), StatusAlerts(e), SizeAlerts(|chain|), AmountAlerts(e);
    RankedLaundering(Patterns(chain, e));
    RankedStatus(e);
    RankedSize(|chain|);
    RankedWhen(e.amount >= LARGE, LargeTransaction(e.amount), 6);
    RankedConcat(z, m, 5, 6, 7);
    RankedConcat(s, z + m, 3, 5, 7);
    RankedConcat(l, s + (z + m), 0, 3, 7);
  }

  // ----- the watcher -----

  class RealtimeWatcher {
    var alerts: seq<Alert>

    constructor ()
      ensures alerts == []
    {
      alerts := [];
    }

    static method CheckLaunderingPatterns(chain: seq<Transfer>, e: Transfer) returns (fired: seq<Alert>)
      ensures fired == LaunderingAlerts(Patterns(chain, e))
    {
      fired := [];
      if !e.flagged { return; }
      var flagged, amounts := FlaggedEvents(chain);
      var smurfing := WindowFires(amounts);
      if smurfing { fired := fired + [Smurfing(|flagged|)]; }
      if |flagged| == RAPID { fired := fired + [RapidMovement(|flagged|)]; }
      var targets := UniqueTargets(flagged);
      if |targets| == FAN { fired := fired + [FanOut(|targets|)]; }
    }

    static method FlaggedEvents(chain: seq<Transfer>) returns (flagged: seq<Transfer>, amounts: seq<real>)
      ensures flagged == Flagged(chain) && amounts == Amounts(flagged)
    {
      flagged, amounts := [], [];
      for i := 0 to |chain|
        invariant flagged == Flagged(chain[..i]) && amounts == Amounts(flagged)
      {
        assert chain[..i + 1][..i] == chain[..i];
        if chain[i].flagged {
          flagged := flagged + [chain[i]];
          amounts := amounts + [chain[i].amount];
        }
      }
      assert chain[..|chain|] == chain;
    }

    static method UniqueTargets(flagged: seq<Transfer>) returns (targets: set<string>)
      ensures targets == Recipients(flagged)
    {
      targets := {};
      for i := 0 to |flagged|
        invariant targets == Recipients(flagged[..i])
      {
        TakeSnoc(flagged, i);
        RecipientsSnoc(flagged[..i], flagged[i]);
        if flagged[i].recipient != "" {
          targets := targets + {flagged[i].recipient};
        }
      }
      assert flagged[..|flagged|] == flagged;
    }

    /** The five latest amounts are small, and it is the first time or the window before was not. */
    static method WindowFires(amounts: seq<real>) returns (fires: bool)
      ensures fires == Fires(amounts)
    {
      fires := false;
      if |amounts| >= WINDOW {
        var recentSmall := AllSmall(amounts[|amounts| - WINDOW..]);
        SmallSlice(amounts, |amounts| - WINDOW, |amounts|);
        if recentSmall {
          var previous := if |amounts| > WINDOW then amounts[|amounts| - WINDOW - 1..|amounts| - 1] else [];
          var previousSmall := AllSmall(previous);
          if |amounts| > WINDOW { SmallSlice(amounts, |amounts| - WINDOW - 1, |amounts| - 1); }
          fires := |previous| < WINDOW || !previousSmall;
        }
      }
    }

    static method AllSmall(xs: seq<real>) returns (all: bool)
      ensures all <==> Small(xs, 0, |xs|)
    {
      for i := 0 to |xs|
        invariant Small(xs, 0, i)
      {
        if xs[i] >= THRESHOLD { return false; }
      }
      all := true;
    }

    static lemma SmallSlice(a: seq<real>, lo: nat, hi: nat)
      requires lo <= hi <= |a|
      ensures Small(a, lo, hi) <==> Small(a[lo..hi], 0, hi - lo)
    {
      if Small(a[lo..hi], 0, hi - lo) {
        forall k | lo <= k < hi ensures a[k] < THRESHOLD { assert a[lo..hi][k - lo] < THRESHOLD; }
      }
    }

    /** Called with the chain right after `e` was appended to it. */
    method Check(chain: seq<Transfer>, e: Transfer) returns (fired: seq<Alert>)
      modifies this
      ensures fired == AlertsFor(chain, e) && alerts == old(alerts) + fired
    {
      fired := CheckLaunderingPatterns(chain, e);
      var status := CheckStatusTransition(e);
      var size := CheckHighFrequency(|chain|);
      var amount := CheckAmountThreshold(e);
      fired := fired + (status + (size + amount));
      alerts := alerts + fired;
    }

    static method CheckStatusTransition(e: Transfer) returns (fired: seq<Alert>)
      ensures fired == StatusAlerts(e)
    {
      fired := [];
      if e.kind == Validate {
        fired := fired + [Validated(e.actor)];
      } else if e.kind == Deprecate {
        fired := fired + [Deprecated(e.actor)];
      }
    }

    static method CheckHighFrequency(size: nat) returns (fired: seq<Alert>)
      ensures fired == SizeAlerts(size)
    {
      var milestones := [(100, "chain_large"), (1000, "chain_xlarge"), (10000, "chain_huge")];
      fired := [];
      for i := 0 to |milestones|
        invariant fired == MilestoneAlerts(milestones[..i], size)
      {
        TakeSnoc(milestones, i);
        if size == milestones[i].0 { fired := fired + [ChainSize(milestones[i].1, size)]; }
      }
      assert milestones[..3] == milestones;
      MilestonesAreSizes(size);
    }

    static method CheckAmountThreshold(e: Transfer) returns (fired: seq<Alert>)
      ensures fired == AmountAlerts(e)
    {
      fired := [];
      if e.amount >= LARGE { fired := fired + [LargeTransaction(e.amount)]; }
    }
  }

  lemma StreamSnoc(es: seq<Transfer>, e: Transfer)
    ensures StreamAlerts(es + [e]) == StreamAlerts(es) + AlertsFor(es + [e], e)
  {
    assert (es + [e])[..|es|] == es;
  }

  /** A watcher attached to a chain: every append is followed by a check. */
  method Watch(es: seq<Transfer>) returns (watcher: RealtimeWatcher)
    ensures fresh(watcher) && watcher.alerts == StreamAlerts(es)
    ensures Tally(watcher.alerts, SmurfingType) == |BlockStarts(Amounts(Flagged(es)))|
  {
    watcher := new RealtimeWatcher();
    var chain := [];
    for i := 0 to |es|
      invariant fresh(watcher) && chain == es[..i] && watcher.alerts == StreamAlerts(chain)
    {
      TakeSnoc(es, i);
      StreamSnoc(chain, es[i]);
      chain := chain + [es[i]];
      var _ := watcher.Check(chain, es[i]);
    }
    assert es[..|es|] == es;
    OneAlertPerBlock(es);
  }
}
