/** The bracketing of merges (adl_lite/crdt.py): exactly when merging three chains is associative, whatever versions of their
    events they hold. */
module CrdtBrackets {
  import opened Basics
  import opened Events
  import opened Crdt
  import opened CrdtLaws

  // ----- the events that end up at one instant -----

  /** The facts that `at` sends to the instant `t`, in order. */
  function Landing(fs: seq<Fact>, at: Fact -> Time, t: Time): seq<Fact> {
    if fs == [] then []
    else (if at(fs[0]) == t then [fs[0]] else []) + Landing(fs[1..], at, t)
  }

  lemma {:induction false} LandingSelects(fs: seq<Fact>, at: Fact -> Time, t: Time, f: Fact)
    ensures f in Landing(fs, at, t) <==> f in fs && at(f) == t
  {
    if fs != [] {
      LandingSelects(fs[1..], at, t, f);
      assert fs == [fs[0]] + fs[1..];
    }
  }

  lemma LandingOfCons(f: Fact, fs: seq<Fact>, at: Fact -> Time, t: Time)
    ensures Landing([f] + fs, at, t) == if at(f) == t then [f] + Landing(fs, at, t) else Landing(fs, at, t)
  {
    assert ([f] + fs)[1..] == fs;
  }

  lemma InsertBehind(f: Fact, g: Fact, fs: seq<Fact>)
    requires !Earlier(f, g)
    ensures Insert(f, [g] + fs, Earlier) == [g] + Insert(f, fs, Earlier)
  {
    assert ([g] + fs)[1..] == fs;
  }

  lemma {:induction false} LandingOfInsert(f: Fact, fs: seq<Fact>, at: Fact -> Time, t: Time)
    requires SortedBy(fs, Earlier)
    ensures Landing(Insert(f, fs, Earlier), at, t) ==
            if at(f) == t then Insert(f, Landing(fs, at, t), Earlier) else Landing(fs, at, t)
  {
    if fs == [] || Earlier(f, fs[0]) {
      LandingOfCons(f, fs, at, t);
      FirstOfLanding(f, fs, at, t);
    } else {
      var g, rest := fs[0], fs[1..];
      assert fs == [g] + rest;
      LandingOfInsert(f, rest, at, t);
      InsertBehind(f, g, rest);
      LandingOfCons(g, rest, at, t);
      LandingOfCons(g, Insert(f, rest, Earlier), at, t);
      InsertBehind(f, g, Landing(rest, at, t));
    }
  }

  /** What lands is not before the first of a sorted list. */
  lemma FirstOfLanding(f: Fact, fs: seq<Fact>, at: Fact -> Time, t: Time)
    requires SortedBy(fs, Earlier) && (fs == [] || Earlier(f, fs[0]))
    ensures Insert(f, Landing(fs, at, t), Earlier) == [f] + Landing(fs, at, t)
  {
    var l := Landing(fs, at, t);
    if l != [] {
      LandingSelects(fs, at, t, l[0]);
      var k :| 0 <= k < |fs| && fs[k] == l[0];
      assert k > 0 ==> Earlier(fs[0], fs[k]);
    }
  }

  lemma SortOfCons(f: Fact, fs: seq<Fact>)
    ensures SortBy([f] + fs, Earlier) == Insert(f, SortBy(fs, Earlier), Earlier)
  {
    assert ([f] + fs)[1..] == fs;
  }

  /** Sorting and picking out what lands at an instant can be done in either order. */
  lemma {:induction false} LandingOfSorted(fs: seq<Fact>, at: Fact -> Time, t: Time)
    ensures Landing(SortBy(fs, Earlier), at, t) == SortBy(Landing(fs, at, t), Earlier)
  {
    if fs != [] {
      var g, rest := fs[0], fs[1..];
      assert fs == [g] + rest;
      LandingOfSorted(rest, at, t);
      SlicesOfSorted(rest);
      SortOfCons(g, rest);
      LandingOfInsert(g, SortBy(rest, Earlier), at, t);
      LandingOfCons(g, rest, at, t);
      SortOfCons(g, Landing(rest, at, t));
    }
  }

  /** No two events that land at `t` stand out of time order. */
  ghost predicate InTimeAt(fs: seq<Fact>, at: Fact -> Time, t: Time) {
    forall i, j :: 0 <= i < j < |fs| && at(fs[i]) == t && at(fs[j]) == t ==> fs[i].ts <= fs[j].ts
  }

  lemma {:induction false} LandingSortedIff(fs: seq<Fact>, at: Fact -> Time, t: Time)
    ensures SortedBy(Landing(fs, at, t), Earlier) <==> InTimeAt(fs, at, t)
  {
    if fs != [] {
      var g, rest := fs[0], fs[1..];
      assert fs == [g] + rest;
      LandingSortedIff(rest, at, t);
      LandingOfCons(g, rest, at, t);
      InTimeSplit(fs, at, t);
      SortedSplit(g, Landing(rest, at, t));
      LaterLanding(g, rest, at, t);
    }
  }

  lemma LaterLanding(g: Fact, fs: seq<Fact>, at: Fact -> Time, t: Time)
    ensures (forall f :: f in Landing(fs, at, t) ==> g.ts <= f.ts) <==> (forall f :: f in fs && at(f) == t ==> g.ts <= f.ts)
  {
    forall f ensures f in Landing(fs, at, t) <==> f in fs && at(f) == t { LandingSelects(fs, at, t, f); }
  }

  lemma SortedSplit(f: Fact, fs: seq<Fact>)
    ensures SortedBy([f] + fs, Earlier) <==> SortedBy(fs, Earlier) && forall g :: g in fs ==> f.ts <= g.ts
  {
    var all := [f] + fs;
    assert all[1..] == fs;
    if SortedBy(all, Earlier) {
      forall g | g in fs ensures f.ts <= g.ts {
        var k :| 0 <= k < |fs| && fs[k] == g;
        assert Earlier(all[0], all[k + 1]);
      }
      forall i, j | 0 <= i < j < |fs| ensures Earlier(fs[i], fs[j]) { assert Earlier(all[i + 1], all[j + 1]); }
    }
  }

  lemma InTimeSplit(fs: seq<Fact>, at: Fact -> Time, t: Time)
    requires fs != []
    ensures InTimeAt(fs, at, t) <==> InTimeAt(fs[1..], at, t) && (at(fs[0]) == t ==> forall g :: g in fs[1..] && at(g) == t ==> fs[0].ts <= g.ts)
  {
    var rest := fs[1..];
    assert forall k :: 0 <= k < |rest| ==> rest[k] == fs[k + 1];
    if InTimeAt(fs, at, t) {
      forall i, j | 0 <= i < j < |rest| && at(rest[i]) == t && at(rest[j]) == t ensures rest[i].ts <= rest[j].ts {
        assert fs[i + 1].ts <= fs[j + 1].ts;
      }
      forall g | g in rest && at(g) == t && at(fs[0]) == t ensures fs[0].ts <= g.ts {
        var k :| 0 <= k < |rest| && rest[k] == g;
        assert fs[0].ts <= fs[k + 1].ts;
      }
    }
    if InTimeAt(rest, at, t) && (at(fs[0]) == t ==> forall g :: g in rest && at(g) == t ==> fs[0].ts <= g.ts) {
      forall i, j | 0 <= i < j < |fs| && at(fs[i]) == t && at(fs[j]) == t ensures fs[i].ts <= fs[j].ts {
        assert fs[j] == rest[j - 1];
        if i > 0 { assert fs[i] == rest[i - 1]; }
      }
    }
  }

  // ----- versions of versions -----

  /** Where the events end up when `c` is merged behind them. */
  function Ends(c: seq<Fact>): Fact -> Time { (f: Fact) => Version(f, c).ts }

  lemma SettledOfCons(f: Fact, fs: seq<Fact>, c: seq<Fact>)
    ensures Settled([f] + fs, c) == [Version(f, c)] + Settled(fs, c)
  {
  }

  lemma AtInstantOfCons(f: Fact, fs: seq<Fact>, t: Time)
    ensures AtInstant([f] + fs, t) == if f.ts == t then [f] + AtInstant(fs, t) else AtInstant(fs, t)
  {
    assert ([f] + fs)[1..] == fs;
  }

  lemma {:induction false} SettledAtInstant(fs: seq<Fact>, c: seq<Fact>, t: Time)
    ensures AtInstant(Settled(fs, c), t) == Settled(Landing(fs, Ends(c), t), c)
  {
    if fs != [] {
      var g, rest := fs[0], fs[1..];
      assert fs == [g] + rest;
      SettledAtInstant(rest, c, t);
      SettledOfCons(g, rest, c);
      AtInstantOfCons(Version(g, c), Settled(rest, c), t);
      LandingOfCons(g, rest, Ends(c), t);
      SettledOfCons(g, Landing(rest, Ends(c), t), c);
    }
  }

  lemma SettledOfConcat(a: seq<Fact>, b: seq<Fact>, c: seq<Fact>)
    ensures Settled(a + b, c) == Settled(a, c) + Settled(b, c)
  {
  }

  lemma {:induction false} SettledOfMinus(b: seq<Fact>, known: set<string>, c: seq<Fact>)
    ensures Settled(Minus(b, known), c) == Minus(Settled(b, c), known)
  {
    if b != [] {
      SettledOfMinus(b[1..], known, c);
      assert Settled(b, c)[1..] == Settled(b[1..], c);
      var rest := Minus(b[1..], known);
      assert Settled([b[0]] + rest, c) == [Version(b[0], c)] + Settled(rest, c);
    }
  }

  lemma VersionOfOnly(f: Fact, xs: seq<Fact>, g: Fact)
    requires DistinctIds(xs) && g in xs && g.body.id == f.body.id
    ensures Version(f, xs) == Newer(f, g)
  {
    var k :| 0 <= k < |xs| && xs[k] == g;
    FindIs(xs, f.body.id, k);
  }

  lemma VersionUnknown(f: Fact, xs: seq<Fact>)
    requires f.body.id !in FactIds(xs)
    ensures Version(f, xs) == f
  {
    FoundIsKnown(xs, f.body.id);
  }

  lemma NewerAssociates(f: Fact, g: Fact, h: Fact)
    ensures Newer(f, Newer(g, h)) == Newer(Newer(f, g), h)
  {
  }

  lemma MergeIds(b: seq<Fact>, c: seq<Fact>)
    requires DistinctIds(b) && DistinctIds(c)
    ensures DistinctIds(MergeFacts(b, c)) && FactIds(MergeFacts(b, c)) == FactIds(b) + FactIds(c)
    ensures forall g :: g in MergeFacts(b, c) <==> g in Settled(b, c) || g in Minus(c, FactIds(b))
  {
    var u, v := UnionById(b, c), MergeFacts(b, c);
    UnionShape(b, c);
    UnionHasDistinctIds(b, c);
    SortedUnion(u);
    assert forall g :: g in u <==> g in Set(u);
    assert forall g :: g in v <==> g in Set(v);
    forall g | g in v ensures g.body.id in FactIds(b) + FactIds(c) {
      if g in Settled(b, c) { SettledIds(b, c, g); } else { MinusSelects(c, FactIds(b), g); }
    }
    forall f | f in b ensures f.body.id in FactIds(v) {
      var i :| 0 <= i < |b| && b[i] == f;
      assert Settled(b, c)[i] in v;
    }
    forall f | f in c && f.body.id !in FactIds(b) ensures f.body.id in FactIds(v) { MinusSelects(c, FactIds(b), f); }
  }

  /** A version of the second chain that the first has no later version of is in the merge. */
  lemma NewcomerStays(a: seq<Fact>, b: seq<Fact>, f: Fact)
    requires DistinctIds(a) && DistinctIds(b) && f in b && forall g :: g in a && g.body.id == f.body.id ==> g.ts <= f.ts
    ensures f in MergeFacts(a, b)
  {
    MergeIds(a, b);
    if g :| g in a && g.body.id == f.body.id {
      var i :| 0 <= i < |a| && a[i] == g;
      VersionOfOnly(g, b, f);
      assert Settled(a, b)[i] == f;
    } else {
      MinusSelects(b, FactIds(a), f);
    }
  }

  /** Merging two chains behind an event keeps the version that merging them one after the other keeps. */
  lemma VersionOfMerge(f: Fact, b: seq<Fact>, c: seq<Fact>)
    requires DistinctIds(b) && DistinctIds(c)
    ensures Version(f, MergeFacts(b, c)) == Version(Version(f, b), c)
  {
    MergeIds(b, c);
    if g :| g in b && g.body.id == f.body.id {
      var i :| 0 <= i < |b| && b[i] == g;
      assert Settled(b, c)[i] == Version(g, c);
      VersionOfOnly(f, b, g);
      VersionOfOnly(f, MergeFacts(b, c), Version(g, c));
      NewestOfThree(f, g, c);
    } else {
      VersionUnknown(f, b);
      if h :| h in c && h.body.id == f.body.id {
        MinusSelects(c, FactIds(b), h);
        VersionOfOnly(f, c, h);
        VersionOfOnly(f, MergeFacts(b, c), h);
      } else {
        VersionUnknown(f, c);
        VersionUnknown(f, MergeFacts(b, c));
      }
    }
  }

  lemma NewestOfThree(f: Fact, g: Fact, c: seq<Fact>)
    requires DistinctIds(c) && f.body.id == g.body.id
    ensures Newer(f, Version(g, c)) == Version(Newer(f, g), c)
  {
    if h :| h in c && h.body.id == g.body.id {
      VersionOfOnly(g, c, h);
      VersionOfOnly(Newer(f, g), c, h);
      NewerAssociates(f, g, h);
    } else {
      VersionUnknown(g, c);
      VersionUnknown(Newer(f, g), c);
    }
  }

  lemma SettledTwice(a: seq<Fact>, b: seq<Fact>, c: seq<Fact>)
    requires DistinctIds(b) && DistinctIds(c)
    ensures Settled(a, MergeFacts(b, c)) == Settled(Settled(a, b), c)
  {
    forall i | 0 <= i < |a| ensures Version(a[i], MergeFacts(b, c)) == Version(Version(a[i], b), c) { VersionOfMerge(a[i], b, c); }
  }

  // ----- both bracketings at one instant -----

  /** Merging `a` with the merge of the others lists the union of `a` and `b`, in the versions that survive `c`, and then what
      is new in `c`. */
  lemma RightAtInstant(a: seq<Fact>, b: seq<Fact>, c: seq<Fact>, t: Time)
    requires DistinctIds(a) && DistinctIds(b) && DistinctIds(c)
    ensures AtInstant(MergeFacts(a, MergeFacts(b, c)), t) ==
            AtInstant(Settled(UnionById(a, b), c), t) + AtInstant(Minus(c, FactIds(a) + FactIds(b)), t)
  {
    MergeIds(b, c);
    MergeAtInstant(a, MergeFacts(b, c), t);
    RightFirst(a, b, c, t);
    RightRest(a, b, c, t);
    JoinIsAssociative(AtInstant(Settled(a, MergeFacts(b, c)), t), AtInstant(Minus(Settled(b, c), FactIds(a)), t),
                      AtInstant(Minus(c, FactIds(a) + FactIds(b)), t));
  }

  /** What a merge lists at one instant: the events of the first chain in their surviving versions, then the new ones. */
  lemma MergeAtInstant(a: seq<Fact>, b: seq<Fact>, t: Time)
    requires DistinctIds(a) && DistinctIds(b)
    ensures AtInstant(MergeFacts(a, b), t) == AtInstant(Settled(a, b), t) + AtInstant(Minus(b, FactIds(a)), t)
  {
    UnionShape(a, b);
    SortIsStable(UnionById(a, b), t);
    AtInstantOfConcat(Settled(a, b), Minus(b, FactIds(a)), t);
  }

  lemma RightFirst(a: seq<Fact>, b: seq<Fact>, c: seq<Fact>, t: Time)
    requires DistinctIds(a) && DistinctIds(b) && DistinctIds(c)
    ensures AtInstant(Settled(UnionById(a, b), c), t) ==
            AtInstant(Settled(a, MergeFacts(b, c)), t) + AtInstant(Minus(Settled(b, c), FactIds(a)), t)
  {
    UnionShape(a, b);
    SettledOfConcat(Settled(a, b), Minus(b, FactIds(a)), c);
    SettledOfMinus(b, FactIds(a), c);
    SettledTwice(a, b, c);
    AtInstantOfConcat(Settled(Settled(a, b), c), Minus(Settled(b, c), FactIds(a)), t);
  }

  lemma RightRest(a: seq<Fact>, b: seq<Fact>, c: seq<Fact>, t: Time)
    requires DistinctIds(a) && DistinctIds(b) && DistinctIds(c)
    ensures AtInstant(Minus(MergeFacts(b, c), FactIds(a)), t) ==
            AtInstant(Minus(Settled(b, c), FactIds(a)), t) + AtInstant(Minus(c, FactIds(a) + FactIds(b)), t)
  {
    var known := FactIds(a);
    MinusAtInstant(MergeFacts(b, c), known, t);
    SortIsStable(UnionById(b, c), t);
    MinusAtInstant(UnionById(b, c), known, t);
    UnionShape(b, c);
    MinusOfConcat(Settled(b, c), Minus(c, FactIds(b)), known);
    MinusTwice(c, FactIds(b), known);
    assert FactIds(b) + known == known + FactIds(b);
    AtInstantOfConcat(Minus(Settled(b, c), known), Minus(c, known + FactIds(b)), t);
  }

  /** Merging `c` into the merge of the others lists the same events, the union sorted by the older versions. */
  lemma LeftAtInstant(a: seq<Fact>, b: seq<Fact>, c: seq<Fact>, t: Time)
    requires DistinctIds(a) && DistinctIds(b) && DistinctIds(c)
    ensures AtInstant(MergeFacts(MergeFacts(a, b), c), t) ==
            AtInstant(Settled(MergeFacts(a, b), c), t) + AtInstant(Minus(c, FactIds(a) + FactIds(b)), t)
  {
    MergeIds(a, b);
    MergeAtInstant(MergeFacts(a, b), c, t);
  }

  // ----- the condition -----

  /** No two events of `w` whose versions surviving `c` share an instant stand out of time order in `w`. */
  ghost predicate NoOvertaking(w: seq<Fact>, c: seq<Fact>) {
    forall i, j :: 0 <= i < j < |w| && Version(w[i], c).ts == Version(w[j], c).ts ==> w[i].ts <= w[j].ts
  }

  lemma NoOvertakingIff(w: seq<Fact>, c: seq<Fact>)
    ensures NoOvertaking(w, c) <==> forall t :: InTimeAt(w, Ends(c), t)
  {
    if forall t :: InTimeAt(w, Ends(c), t) {
      forall i, j | 0 <= i < j < |w| && Version(w[i], c).ts == Version(w[j], c).ts ensures w[i].ts <= w[j].ts {
        assert InTimeAt(w, Ends(c), Version(w[i], c).ts);
        assert Ends(c)(w[i]) == Ends(c)(w[j]);
      }
    }
  }

  /** Lists of the same distinct ids are told apart by any versions of their events. */
  lemma SameAfterSettling(x: seq<Fact>, y: seq<Fact>, c: seq<Fact>)
    requires DistinctIds(x) && (forall f :: f in x ==> f in y) && DistinctIds(y) && Settled(x, c) == Settled(y, c)
    ensures x == y
  {
    assert |x| == |Settled(x, c)| == |Settled(y, c)| == |y|;
    forall i | 0 <= i < |x| ensures x[i] == y[i] {
      assert Settled(x, c)[i].body.id == x[i].body.id && Settled(y, c)[i].body.id == y[i].body.id;
      assert x[i] in y;
      var k :| 0 <= k < |y| && y[k] == x[i];
      assert y[k].body.id == y[i].body.id;
    }
  }

  lemma {:induction false} LandingDistinct(fs: seq<Fact>, at: Fact -> Time, t: Time)
    requires DistinctIds(fs)
    ensures DistinctIds(Landing(fs, at, t))
  {
    if fs != [] {
      LandingDistinct(fs[1..], at, t);
      var rest := Landing(fs[1..], at, t);
      forall k | 0 <= k < |rest| ensures rest[k].body.id != fs[0].body.id {
        LandingSelects(fs[1..], at, t, rest[k]);
        var i :| 0 <= i < |fs[1..]| && fs[1..][i] == rest[k];
        assert fs[i + 1] == rest[k];
      }
    }
  }

  /** Sorting first changes nothing at an instant exactly when what lands there is in time order. */
  lemma SortedFirstIff(w: seq<Fact>, c: seq<Fact>, t: Time)
    requires DistinctIds(w)
    ensures AtInstant(Settled(SortBy(w, Earlier), c), t) == AtInstant(Settled(w, c), t) <==> InTimeAt(w, Ends(c), t)
  {
    var l := Landing(w, Ends(c), t);
    SettledAtInstant(SortBy(w, Earlier), c, t);
    SettledAtInstant(w, c, t);
    LandingOfSorted(w, Ends(c), t);
    LandingSortedIff(w, Ends(c), t);
    LandingDistinct(w, Ends(c), t);
    SortUnderSettling(l, c);
  }

  lemma SortUnderSettling(l: seq<Fact>, c: seq<Fact>)
    requires DistinctIds(l)
    ensures Settled(SortBy(l, Earlier), c) == Settled(l, c) <==> SortedBy(l, Earlier)
  {
    var s := SortBy(l, Earlier);
    SortedUnion(l);
    SlicesOfSorted(l);
    if SortedBy(l, Earlier) {
      SortOfSorted(l, Earlier);
    } else if Settled(s, c) == Settled(l, c) {
      forall f | f in s ensures f in l { assert f in Set(s); }
      SameAfterSettling(s, l, c);
    }
  }

  /** Merging three chains of distinct ids is associative exactly when, in the union of the first two, no two events whose
      versions surviving the third share an instant stand out of time order. */
  lemma AssociatesIff(a: seq<Fact>, b: seq<Fact>, c: seq<Fact>)
    requires DistinctIds(a) && DistinctIds(b) && DistinctIds(c)
    ensures MergeFacts(MergeFacts(a, b), c) == MergeFacts(a, MergeFacts(b, c)) <==> NoOvertaking(UnionById(a, b), c)
  {
    var w := UnionById(a, b);
    UnionHasDistinctIds(a, b);
    forall t
      ensures AtInstant(MergeFacts(MergeFacts(a, b), c), t) == AtInstant(MergeFacts(a, MergeFacts(b, c)), t) <==> InTimeAt(w, Ends(c), t)
    {
      LeftAtInstant(a, b, c, t);
      RightAtInstant(a, b, c, t);
      SortedFirstIff(w, c, t);
      SameFronts(AtInstant(Settled(MergeFacts(a, b), c), t), AtInstant(Settled(w, c), t), AtInstant(Minus(c, FactIds(a) + FactIds(b)), t));
    }
    NoOvertakingIff(w, c);
    MergesEqualIff(MergeFacts(a, b), c, a, MergeFacts(b, c));
  }

  lemma SameFronts(x: seq<Fact>, y: seq<Fact>, z: seq<Fact>)
    ensures x + z == y + z <==> x == y
  {
    if x + z == y + z {
      assert |x| == |y|;
      assert x == (x + z)[..|x|] && y == (y + z)[..|y|];
    }
  }

  lemma MergesEqualIff(a: seq<Fact>, b: seq<Fact>, c: seq<Fact>, d: seq<Fact>)
    ensures MergeFacts(a, b) == MergeFacts(c, d) <==> SameSlices(MergeFacts(a, b), MergeFacts(c, d))
  {
    SlicesOfSorted(UnionById(a, b));
    SlicesOfSorted(UnionById(c, d));
    if SameSlices(MergeFacts(a, b), MergeFacts(c, d)) { SlicesDetermineSorted(MergeFacts(a, b), MergeFacts(c, d)); }
  }

  /** The chains written from the merged events, links and hashes included, are equal exactly then. */
  lemma RecordsAssociateIff(H: Hasher, a: seq<Fact>, b: seq<Fact>, c: seq<Fact>)
    requires DistinctIds(a) && DistinctIds(b) && DistinctIds(c)
    ensures AppendAll(H, [], MergeFacts(MergeFacts(a, b), c)) == AppendAll(H, [], MergeFacts(a, MergeFacts(b, c)))
            <==> NoOvertaking(UnionById(a, b), c)
  {
    AssociatesIff(a, b, c);
    SlicesOfSorted(UnionById(MergeFacts(a, b), c));
    SlicesOfSorted(UnionById(a, MergeFacts(b, c)));
    AppendAllFacts(H, MergeFacts(MergeFacts(a, b), c));
    AppendAllFacts(H, MergeFacts(a, MergeFacts(b, c)));
  }

  /** So it is on chains that agree on the events they share, ties included. */
  lemma MergeAssociates(a: seq<Fact>, b: seq<Fact>, c: seq<Fact>)
    requires DistinctIds(a) && DistinctIds(b) && DistinctIds(c) && OneVersion(Set(a) + Set(b) + Set(c))
    ensures MergeFacts(MergeFacts(a, b), c) == MergeFacts(a, MergeFacts(b, c))
  {
    var w := UnionById(a, b);
    UnionShape(a, b);
    SettledAgreeing(a, b);
    forall i | 0 <= i < |w| ensures Version(w[i], c) == w[i] {
      assert w[i] in a || w[i] in b by { if w[i] !in a { assert w[i] in Minus(b, FactIds(a)); MinusSelects(b, FactIds(a), w[i]); } }
      assert w[i] in Set(a) + Set(b) + Set(c) && (Version(w[i], c) in c ==> Version(w[i], c) in Set(a) + Set(b) + Set(c));
    }
    AssociatesIff(a, b, c);
  }

  // ----- where it fails -----

  /** With different versions of one event it does matter, whatever the two events are: the earlier merge has already sorted
      by the older version. */
  lemma BracketingMatters(x: Body, y: Body, t: Time)
    requires x.id != y.id
    ensures var a, b, c := [Fact(x, t), Fact(y, t + 1)], [Fact(x, t + 2)], [Fact(x, t + 3), Fact(y, t + 3)];
      && MergeFacts(MergeFacts(a, b), c) == [Fact(y, t + 3), Fact(x, t + 3)]
      && MergeFacts(a, MergeFacts(b, c)) == [Fact(x, t + 3), Fact(y, t + 3)]
  {
    var x0, y1, x2, x3, y3 := Fact(x, t), Fact(y, t + 1), Fact(x, t + 2), Fact(x, t + 3), Fact(y, t + 3);
    LaterOne([x0, y1], x2);
    assert PutLater([x0, y1], x2) == [x2, y1];
    SortTwo(x2, y1);
    NewBehind(x2, x3, y3);
    Overtaken(x2, y1, x3, y3);
    Overtaken(x0, y1, x3, y3);
  }

  lemma NewBehind(p: Fact, f: Fact, g: Fact)
    requires p.body.id == f.body.id != g.body.id && p.ts <= f.ts == g.ts
    ensures MergeFacts([p], [f, g]) == [f, g]
  {
    LaterTwo([p], f, g);
    assert PutLater([p], f) == [f];
    assert PutLater([f], g) == [f, g];
    SortTwo(f, g);
  }

  /** Two events whose newer versions share an instant stay in the order of the older ones. */
  lemma Overtaken(p: Fact, q: Fact, f: Fact, g: Fact)
    requires p.body.id == f.body.id != q.body.id == g.body.id && p.ts <= f.ts == g.ts && q.ts <= g.ts
    ensures MergeFacts([p, q], [f, g]) == [f, g] && MergeFacts([q, p], [f, g]) == [g, f]
  {
    LaterTwo([p, q], f, g);
    LaterTwo([q, p], f, g);
    assert PutLater([p, q], f) == [f, q] && PutLater([q, p], f) == [q, f];
    assert PutLater([f, q], g) == [f, g] && PutLater([q, f], g) == [g, f];
    SortTwo(f, g);
    SortTwo(g, f);
  }

  lemma LaterOne(d: seq<Fact>, f: Fact)
    requires DistinctIds(d)
    ensures UnionById(d, [f]) == PutLater(d, f)
  {
    PutAllOfDistinct(d);
    assert [f][..0] == [];
    assert PutAllLater(d, []) == d;
  }

  lemma LaterTwo(d: seq<Fact>, f: Fact, g: Fact)
    requires DistinctIds(d)
    ensures UnionById(d, [f, g]) == PutLater(PutLater(d, f), g)
  {
    LaterOne(d, f);
    assert [f, g][..1] == [f];
  }

  lemma SortTwo(f: Fact, g: Fact)
    ensures SortBy([f, g], Earlier) == if Earlier(f, g) then [f, g] else [g, f]
  {
    assert [f, g][1..] == [g] && [g][1..] == [];
    assert SortBy([], Earlier) == [];
    assert SortBy([g], Earlier) == [g];
    assert Insert(f, [], Earlier) == [f];
  }
}
