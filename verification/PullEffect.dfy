/** What `SyncManager.pull` does to the chain it pulls from (adl_lite/sync_manager.py): the events new to the
    receiver are relinked in place, so the sender's list still verifies only when it continues the receiver's. */
module PullEffects {
  import opened Basics
  import opened Events
  import opened TailHash
  import opened SyncManagers

  ghost function RecordOf(rs: seq<Record>, id: string): (r: Record)
    requires id in IdSet(rs)
    ensures r in rs && r.Id() == id
  {
    var r :| r in rs && r.Id() == id; r
  }

  /** The list `center` after its events unknown to the receiver were relinked into `out`. */
  ghost function Relinked(known: set<string>, out: seq<Record>, center: seq<Record>): (rs: seq<Record>)
    requires IdSet(center) <= IdSet(out)
    ensures |rs| == |center|
  {
    seq(|center|, i requires 0 <= i < |center| =>
      assert center[i] in center;
      if center[i].Id() in known then center[i] else RecordOf(out, center[i].Id()))
  }

  lemma RelinkedAt(known: set<string>, out: seq<Record>, center: seq<Record>, i: nat)
    requires IdSet(center) <= IdSet(out) && i < |center|
    ensures Relinked(known, out, center)[i].Id() == center[i].Id()
    ensures if center[i].Id() in known then Relinked(known, out, center)[i] == center[i]
            else Relinked(known, out, center)[i] in out
  {
    assert center[i] in center;
  }

  /** The sender's list after `edge` has pulled from it. */
  ghost function AfterPull(H: Hasher, edge: seq<Record>, center: seq<Record>): seq<Record>
    requires IdSet(center) <= IdSet(Received(H, edge, center))
  {
    Relinked(IdSet(edge), Received(H, edge, center), center)
  }

  /** The sender's history is the receiver's, followed by the new events in the order they are taken. */
  ghost predicate Continues(edge: seq<Record>, center: seq<Record>) {
    && |edge| <= |center| && Contents(edge) == Contents(center[..|edge|])
    && NewFor(IdSet(edge), center) == center[|edge|..]
  }

  lemma UniqueById(rs: seq<Record>, i: nat, r: Record)
    requires Axiom5(rs) && i < |rs| && r in rs && r.Id() == rs[i].Id()
    ensures r == rs[i]
  {
    var k :| 0 <= k < |rs| && rs[k] == r;
  }

  lemma SameIds(a: seq<Record>, b: seq<Record>)
    requires Contents(a) == Contents(b)
    ensures |a| == |b| && forall i :: 0 <= i < |a| ==> a[i].Id() == b[i].Id() && a[i].Ts() == b[i].Ts()
    ensures IdSet(a) == IdSet(b)
  {
    assert |Contents(a)| == |a| && |Contents(b)| == |b|;
    forall i | 0 <= i < |a| ensures a[i].Id() == b[i].Id() && a[i].Ts() == b[i].Ts() {
      assert Contents(a)[i] == Contents(b)[i];
    }
    forall id ensures id in IdSet(a) <==> id in IdSet(b) {
      if id in IdSet(a) { var i :| 0 <= i < |a| && a[i].Id() == id; assert b[i] in b; }
      if id in IdSet(b) { var i :| 0 <= i < |b| && b[i].Id() == id; assert a[i] in a; }
    }
  }

  // ----- a sender that continues the receiver is left as it was -----

  /** Appending behind tails that look alike writes the same records. */
  lemma {:induction false} SameSuffix(H: Hasher, a: seq<Record>, b: seq<Record>, fs: seq<Fact>)
    requires a != [] && b != []
    requires a[|a| - 1].Id() == b[|b| - 1].Id() && a[|a| - 1].hash == b[|b| - 1].hash && a[|a| - 1].Ts() == b[|b| - 1].Ts()
    ensures AppendAll(H, a, fs)[|a|..] == AppendAll(H, b, fs)[|b|..]
  {
    if fs == [] {
    } else {
      var n := |fs| - 1;
      SameSuffix(H, a, b, fs[..n]);
      AppendAllKeepsBase(H, a, fs[..n]);
      AppendAllKeepsBase(H, b, fs[..n]);
      var p, q := AppendAll(H, a, fs[..n]), AppendAll(H, b, fs[..n]);
      if n > 0 {
        assert p[|p| - 1] == p[|a|..][n - 1] == q[|b|..][n - 1] == q[|q| - 1];
      } else {
        assert p == a && q == b;
      }
      assert Link(H, p, fs[n]) == Link(H, q, fs[n]);
    }
  }

  lemma ReappendSuffix(H: Hasher, rs: seq<Record>, k: nat)
    requires AppendBuilt(H, rs) && k <= |rs|
    ensures AppendAll(H, rs[..k], Facts(rs[k..])) == rs
  {
    Reappend(H, rs);
    BuiltPrefix(H, rs, k);
    Reappend(H, rs[..k]);
    assert Facts(rs) == Facts(rs[..k]) + Facts(rs[k..]);
    AppendAllSplit(H, [], Facts(rs[..k]), Facts(rs[k..]));
  }

  lemma ReceivedWhenContinuing(H: Hasher, edge: seq<Record>, center: seq<Record>)
    requires AppendBuilt(H, edge) && AppendBuilt(H, center) && Continues(edge, center)
    ensures Received(H, edge, center)[|edge|..] == center[|edge|..]
    ensures |Received(H, edge, center)| == |center|
  {
    var k := |edge|;
    Reappend(H, edge);
    ReappendSuffix(H, center, k);
    ReceivedShape(H, edge, center);
    if k > 0 {
      SameIds(edge, center[..k]);
      BuiltLinks(H, edge, k - 1);
      BuiltLinks(H, center, k - 1);
      assert Contents(edge)[k - 1] == Contents(center[..k])[k - 1];
      SameSuffix(H, edge, center[..k], Facts(center[k..]));
    } else {
      assert edge == [] && center[..0] == [];
    }
  }

  lemma ContinuingIsUntouched(edge: seq<Record>, center: seq<Record>, out: seq<Record>)
    requires Axiom5(out) && IdSet(center) <= IdSet(out) && Continues(edge, center)
    requires |out| == |center| && out[|edge|..] == center[|edge|..]
    ensures Relinked(IdSet(edge), out, center) == center
  {
    var k := |edge|;
    var rs := Relinked(IdSet(edge), out, center);
    SameIds(edge, center[..k]);
    forall i | 0 <= i < |center| ensures rs[i] == center[i] {
      RelinkedAt(IdSet(edge), out, center, i);
      if i >= k {
        assert out[i] == out[k..][i - k] == center[k..][i - k] == center[i];
        if rs[i] in out { UniqueById(out, i, rs[i]); }
      } else {
        assert edge[i] in edge && edge[i].Id() == center[..k][i].Id();
      }
    }
  }

  // ----- a sender that still verifies continues the receiver -----

  /** What a pull does, in terms of the lists alone: `out` extends `edge` by the bodies of `added`, the
      events of `center` whose ids are not `known`. */
  ghost predicate Pulled(H: Hasher, known: set<string>, edge: seq<Record>, center: seq<Record>, added: seq<Record>, out: seq<Record>) {
    && HashLinked(H, out) && Axiom5(out) && Extends(out, edge, added)
    && IdSet(center) <= IdSet(out) && Axiom5(center) && Axiom5(added)
    && forall r :: r in added <==> r in center && r.Id() !in known
  }

  lemma ExtendsAt(out: seq<Record>, own: seq<Record>, added: seq<Record>, m: nat)
    requires Extends(out, own, added) && m < |added|
    ensures |own| + m < |out| && out[|own| + m].fact.body == added[m].fact.body
  {
  }

  lemma NewIndex(known: set<string>, center: seq<Record>, added: seq<Record>, i: nat) returns (m: nat)
    requires forall r :: r in added <==> r in center && r.Id() !in known
    requires i < |center| && center[i].Id() !in known
    ensures m < |added| && added[m] == center[i]
  {
    assert center[i] in center;
    m :| 0 <= m < |added| && added[m] == center[i];
  }

  /** Where the new event at `i` ended up in the receiver's list. */
  lemma PositionOf(H: Hasher, known: set<string>, edge: seq<Record>, center: seq<Record>, added: seq<Record>, out: seq<Record>, i: nat) returns (p: nat)
    requires Pulled(H, known, edge, center, added, out)
    requires i < |center| && center[i].Id() !in known
    ensures |edge| <= p < |out| && Relinked(known, out, center)[i] == out[p]
    ensures out[p].fact.body == center[i].fact.body
  {
    var m := NewIndex(known, center, added, i);
    ExtendsAt(out, edge, added, m);
    p := |edge| + m;
    RelinkedAt(known, out, center, i);
    UniqueById(out, p, Relinked(known, out, center)[i]);
  }

  lemma NoArchiveAfterPull(H: Hasher, known: set<string>, edge: seq<Record>, center: seq<Record>, added: seq<Record>, out: seq<Record>)
    requires Pulled(H, known, edge, center, added, out) && !HasArchive(center)
    ensures !HasArchive(Relinked(known, out, center))
  {
    var rs := Relinked(known, out, center);
    forall i | 0 <= i < |rs| ensures rs[i].Kind() != Archive {
      assert center[i].Kind() != Archive;
      RelinkedAt(known, out, center, i);
      if center[i].Id() !in known { var p := PositionOf(H, known, edge, center, added, out, i); }
    }
  }

  lemma NeighboursOf(H: Hasher, rs: seq<Record>, i: nat)
    requires HashLinked(H, rs) && i < |rs|
    ensures if i == 0 then rs[0].prevId == None
            else rs[i].prevId == Some(rs[i - 1].Id()) && rs[i].prevHash == rs[i - 1].hash
  {
    assert HashLinkedAt(H, rs, i);
  }

  /** A record of a linked list whose link names the record at `q` stands right behind it. */
  lemma LinkFixesPosition(H: Hasher, out: seq<Record>, p: nat, q: nat)
    requires HashLinked(H, out) && Axiom5(out) && p < |out| && q < |out|
    requires out[p].prevId == Some(out[q].Id())
    ensures p == q + 1
  {
    NeighboursOf(H, out, p);
    assert p > 0 && out[p - 1].Id() == out[q].Id();
  }

  lemma IndexOfId(rs: seq<Record>, id: string) returns (q: nat)
    requires id in IdSet(rs)
    ensures q < |rs| && rs[q].Id() == id
  {
    q :| 0 <= q < |rs| && rs[q].Id() == id;
  }

  /** The first new event must have landed right behind the receiver's old tail, and the tails agree. */
  lemma FirstNewEvent(H: Hasher, known: set<string>, edge: seq<Record>, center: seq<Record>, added: seq<Record>, out: seq<Record>, i: nat)
    requires Pulled(H, known, edge, center, added, out)
    requires HashLinked(H, Relinked(known, out, center))
    requires i < |center| && center[i].Id() !in known
    requires i > 0 ==> center[i - 1].Id() in known && center[i - 1].Id() in IdSet(edge)
    ensures |edge| < |out| && Relinked(known, out, center)[i] == out[|edge|]
    ensures if i == 0 then edge == [] else edge != [] && edge[|edge| - 1].hash == center[i - 1].hash
  {
    var rs := Relinked(known, out, center);
    var p := PositionOf(H, known, edge, center, added, out, i);
    NeighboursOf(H, rs, i);
    NeighboursOf(H, out, p);
    if i > 0 {
      RelinkedAt(known, out, center, i - 1);
      var q := IndexOfId(edge, center[i - 1].Id());
      assert out[q] == edge[q];
      assert out[p].prevId == Some(rs[i - 1].Id()) == Some(out[q].Id());
      LinkFixesPosition(H, out, p, q);
      assert out[p - 1] == edge[|edge| - 1];
    }
  }

  lemma HistoriesAgree(H: Hasher, edge: seq<Record>, center: seq<Record>, i: nat)
    requires AppendBuilt(H, edge) && AppendBuilt(H, center) && 0 < i <= |center| && edge != []
    requires edge[|edge| - 1].hash == center[i - 1].hash
    ensures CollisionBetween(H, edge, center) || (|edge| == i && Contents(edge) == Contents(center[..i]))
  {
    BuiltIsHashLinked(H, edge);
    BuiltIsHashLinked(H, center);
    HashLinkedPrefix(H, center, i);
    SameTailSameContents(H, edge, center[..i]);
    assert |Contents(edge)| == |edge| && |Contents(center[..i])| == i;
    if CollisionBetween(H, edge, center[..i]) {
      var x, y :| x in Contents(edge) && y in Contents(center[..i]) && Collision(H, x, y);
      assert Contents(center[..i]) == Contents(center)[..i];
      assert y in Contents(center);
    }
  }

  lemma BuiltIsHashLinked(H: Hasher, rs: seq<Record>)
    requires AppendBuilt(H, rs)
    ensures HashLinked(H, rs)
  {
    forall i | 0 <= i < |rs| ensures HashLinkedAt(H, rs, i) { BuiltLinks(H, rs, i); }
  }

  /** Behind a new event that stands at `x` in the receiver's list, the next one stands at `x + 1`. */
  lemma NextNewEvent(H: Hasher, known: set<string>, edge: seq<Record>, center: seq<Record>, added: seq<Record>, out: seq<Record>, j: nat, x: nat)
    requires Pulled(H, known, edge, center, added, out)
    requires HashLinked(H, Relinked(known, out, center))
    requires 0 < j < |center| && center[j].Id() !in known
    requires x < |out| && Relinked(known, out, center)[j - 1] == out[x]
    ensures x + 1 < |out| && Relinked(known, out, center)[j] == out[x + 1]
    ensures out[x + 1].fact.body == center[j].fact.body
  {
    NeighboursOf(H, Relinked(known, out, center), j);
    RelinkedAt(known, out, center, j - 1);
    var p := PositionOf(H, known, edge, center, added, out, j);
    LinkFixesPosition(H, out, p, x);
  }

  ghost predicate InStep(rs: seq<Record>, out: seq<Record>, j: int) {
    0 < j < |rs| && j - 1 < |out| && rs[j - 1] == out[j - 1] ==> j < |out| && rs[j] == out[j]
  }

  lemma {:induction false} StepByStep(rs: seq<Record>, out: seq<Record>, k: nat, j: nat)
    requires k < |out| && k <= j < |rs| && rs[k] == out[k]
    requires forall m :: k < m < |rs| ==> InStep(rs, out, m)
    ensures j < |out| && rs[j] == out[j]
    decreases j
  {
    if j > k {
      StepByStep(rs, out, k, j - 1);
      assert InStep(rs, out, j);
    }
  }

  lemma NextInStep(H: Hasher, known: set<string>, edge: seq<Record>, center: seq<Record>, added: seq<Record>, out: seq<Record>, m: nat)
    requires Pulled(H, known, edge, center, added, out)
    requires HashLinked(H, Relinked(known, out, center))
    requires 0 < m < |center| && center[m].Id() !in known
    ensures InStep(Relinked(known, out, center), out, m)
  {
    var rs := Relinked(known, out, center);
    if m - 1 < |out| && rs[m - 1] == out[m - 1] {
      NextNewEvent(H, known, edge, center, added, out, m, m - 1);
    }
  }

  /** Behind the first new event the sender's order is the order of appending. */
  lemma SameOrder(H: Hasher, known: set<string>, edge: seq<Record>, center: seq<Record>, added: seq<Record>, out: seq<Record>)
    requires Pulled(H, known, edge, center, added, out)
    requires HashLinked(H, Relinked(known, out, center))
    requires forall m :: |edge| <= m < |center| ==> center[m].Id() !in known
    ensures forall m :: |edge| < m < |center| ==> InStep(Relinked(known, out, center), out, m)
  {
    var rs := Relinked(known, out, center);
    forall m | |edge| < m < |center| ensures InStep(rs, out, m) {
      NextInStep(H, known, edge, center, added, out, m);
    }
  }

  lemma RestIsNew(known: set<string>, edge: seq<Record>, center: seq<Record>)
    requires known == IdSet(edge)
    requires Axiom5(center) && |edge| <= |center| && Contents(edge) == Contents(center[..|edge|])
    ensures forall m :: |edge| <= m < |center| ==> center[m].Id() !in known
    ensures forall m :: 0 <= m < |edge| ==> center[m].Id() in known
  {
    var k := |edge|;
    SameIds(edge, center[..k]);
    forall m | k <= m < |center| ensures center[m].Id() !in known {
      forall q | 0 <= q < k ensures edge[q].Id() != center[m].Id() {
        assert edge[q].Id() == center[..k][q].Id() == center[q].Id();
      }
    }
    forall m | 0 <= m < k ensures center[m].Id() in known {
      assert edge[m] in edge && edge[m].Id() == center[..k][m].Id();
    }
  }

  lemma TakenAt(H: Hasher, known: set<string>, edge: seq<Record>, center: seq<Record>, added: seq<Record>, out: seq<Record>, j: nat)
    requires Pulled(H, known, edge, center, added, out) && |edge| <= j < |center| && j < |out|
    requires out[j].Id() == center[j].Id()
    ensures j - |edge| < |added| && added[j - |edge|] == center[j]
  {
    var m := j - |edge|;
    ExtendsAt(out, edge, added, m);
    assert added[m] in added;
    UniqueById(center, j, added[m]);
  }

  /** The new events are taken in the sender's order. */
  lemma SameOrderMeansContinuing(H: Hasher, known: set<string>, edge: seq<Record>, center: seq<Record>, added: seq<Record>, out: seq<Record>)
    requires Pulled(H, known, edge, center, added, out)
    requires HashLinked(H, Relinked(known, out, center))
    requires known == IdSet(edge) && |edge| < |center| && Contents(edge) == Contents(center[..|edge|])
    requires |edge| < |out| && Relinked(known, out, center)[|edge|] == out[|edge|]
    ensures added == center[|edge|..]
  {
    RestIsNew(known, edge, center);
    SameOrder(H, known, edge, center, added, out);
    InOrder(H, known, edge, center, added, out);
  }

  lemma InOrder(H: Hasher, known: set<string>, edge: seq<Record>, center: seq<Record>, added: seq<Record>, out: seq<Record>)
    requires Pulled(H, known, edge, center, added, out) && |edge| < |center| && |edge| < |out|
    requires Relinked(known, out, center)[|edge|] == out[|edge|]
    requires forall m :: |edge| < m < |center| ==> InStep(Relinked(known, out, center), out, m)
    requires forall m :: 0 <= m < |edge| ==> center[m].Id() in known
    ensures added == center[|edge|..]
  {
    var rs := Relinked(known, out, center);
    forall m | 0 <= m < |center| - |edge| ensures Matches(added, center, |edge|, m) {
      assert |edge| + m < |out| && rs[|edge| + m] == out[|edge| + m] by { StepByStep(rs, out, |edge|, |edge| + m); }
      MatchesAt(H, known, edge, center, added, out, m);
    }
    assert added == center[|edge|..] by { NoMoreThan(known, edge, center, added); }
  }

  lemma MatchesAt(H: Hasher, known: set<string>, edge: seq<Record>, center: seq<Record>, added: seq<Record>, out: seq<Record>, m: nat)
    requires Pulled(H, known, edge, center, added, out) && m < |center| - |edge| && |edge| + m < |out|
    requires Relinked(known, out, center)[|edge| + m] == out[|edge| + m]
    ensures Matches(added, center, |edge|, m)
  {
    RelinkedAt(known, out, center, |edge| + m);
    TakenAt(H, known, edge, center, added, out, |edge| + m);
  }

  ghost predicate Matches(added: seq<Record>, center: seq<Record>, k: nat, m: int)
    requires k <= |center|
  {
    0 <= m < |center| - k ==> m < |added| && added[m] == center[k + m]
  }

  lemma NoMoreThan(known: set<string>, edge: seq<Record>, center: seq<Record>, added: seq<Record>)
    requires |edge| < |center| && Axiom5(added)
    requires forall m :: 0 <= m < |center| - |edge| ==> Matches(added, center, |edge|, m)
    requires forall r :: r in added ==> r in center && r.Id() !in known
    requires forall i :: 0 <= i < |edge| ==> center[i].Id() in known
    ensures added == center[|edge|..]
  {
    var k := |edge|;
    var n := |center| - k;
    assert Matches(added, center, k, n - 1);
    var last := |added| - 1;
    assert added[last] in added;
    var q :| 0 <= q < |center| && center[q] == added[last];
    assert q >= k && Matches(added, center, k, q - k);
    SameIndex(added, q - k, last);
    forall m | 0 <= m < n ensures added[m] == center[k..][m] { assert Matches(added, center, k, m); }
  }

  lemma SameIndex(rs: seq<Record>, i: int, j: int)
    requires Axiom5(rs) && 0 <= i < |rs| && 0 <= j < |rs| && rs[i].Id() == rs[j].Id()
    ensures i == j
  {
  }

  lemma PullIsPulled(H: Hasher, edge: seq<Record>, center: seq<Record>)
    requires AppendBuilt(H, edge) && Axiom5(edge) && Axiom5(center)
    ensures Pulled(H, IdSet(edge), edge, center, NewFor(IdSet(edge), center), Received(H, edge, center))
  {
    ReceivedShape(H, edge, center);
    ReceivedIds(H, edge, center);
    NewForMeaning(IdSet(edge), center);
    BuiltIsHashLinked(H, Received(H, edge, center));
  }

  /** After a pull that takes something, the sender's list verifies exactly when it continues the
      receiver's -- or two contents of the two chains collide. */
  lemma PullLeavesSenderIff(H: Hasher, concept: string, edge: seq<Record>, center: seq<Record>)
    requires AppendBuilt(H, edge) && AppendBuilt(H, center) && Axiom5(edge)
    requires WellFormed(H, concept, center) && !HasArchive(center)
    requires NewFor(IdSet(edge), center) != []
    ensures IdSet(center) <= IdSet(Received(H, edge, center))
    ensures CollisionBetween(H, edge, center) ||
            (WellFormed(H, concept, AfterPull(H, edge, center)) <==> Continues(edge, center))
  {
    var out := Received(H, edge, center);
    PullIsPulled(H, edge, center);
    if Continues(edge, center) {
      ReceivedWhenContinuing(H, edge, center);
      ContinuingIsUntouched(edge, center, out);
    } else if WellFormed(H, concept, AfterPull(H, edge, center)) {
      StillVerifies(H, concept, edge, center);
    }
  }

  lemma StillVerifies(H: Hasher, concept: string, edge: seq<Record>, center: seq<Record>)
    requires AppendBuilt(H, edge) && AppendBuilt(H, center) && Axiom5(edge) && Axiom5(center) && !HasArchive(center)
    requires NewFor(IdSet(edge), center) != [] && IdSet(center) <= IdSet(Received(H, edge, center))
    requires WellFormed(H, concept, AfterPull(H, edge, center))
    ensures CollisionBetween(H, edge, center) || Continues(edge, center)
  {
    var out := Received(H, edge, center);
    var added := NewFor(IdSet(edge), center);
    PullIsPulled(H, edge, center);
    NoArchiveAfterPull(H, IdSet(edge), edge, center, added, out);
    VerifiedIsHashLinked(H, concept, AfterPull(H, edge, center));
    assert added[0] in added;
    var i := FirstNew(IdSet(edge), center);
    FirstNewEvent(H, IdSet(edge), edge, center, added, out, i);
    if i > 0 { HistoriesAgree(H, edge, center, i); }
    if !CollisionBetween(H, edge, center) {
      assert |edge| == i && Contents(edge) == Contents(center[..i]);
      SameOrderMeansContinuing(H, IdSet(edge), edge, center, added, out);
    }
  }

  lemma FirstNew(known: set<string>, rs: seq<Record>) returns (i: nat)
    requires exists r :: r in rs && r.Id() !in known
    ensures i < |rs| && rs[i].Id() !in known && forall j :: 0 <= j < i ==> rs[j].Id() in known
  {
    i := 0;
    while rs[i].Id() in known
      invariant i < |rs| && forall j :: 0 <= j < i ==> rs[j].Id() in known
      invariant exists k :: i <= k < |rs| && rs[k].Id() !in known
      decreases |rs| - i
    {
      i := i + 1;
    }
  }
}
