/** Trees of merges over chains that hold any versions of their events (adl_lite/crdt.py): the last versions a merge keeps, and
    when they come out in one order however the chains are merged. */
module CrdtTrees {
  import opened Basics
  import opened Events
  import opened Crdt
  import opened CrdtLaws
  import opened CrdtBrackets
  import opened CrdtFolds

  // ----- the last version of every event -----

  /** `e` lists one latest version of every event of `s`, each once. */
  ghost predicate ListsLatest(e: seq<Fact>, s: set<Fact>) {
    && DistinctIds(e)
    && (forall f :: f in e ==> Latest(s, f))
    && forall f :: f in s ==> f.body.id in FactIds(e)
  }

  lemma ChainListsLatest(fs: seq<Fact>)
    requires DistinctIds(fs)
    ensures ListsLatest(fs, Set(fs))
  {
    WinnersOfDistinct(fs);
    forall f | f in fs ensures Latest(Set(fs), f) { assert f in Winners(Set(fs)); }
  }

  lemma UnionIds(a: seq<Fact>, b: seq<Fact>, g: Fact)
    requires DistinctIds(a) && DistinctIds(b)
    ensures g in UnionById(a, b) <==> g in MergeFacts(a, b)
  {
    var u := UnionById(a, b);
    UnionHasDistinctIds(a, b);
    SortedUnion(u);
    assert g in u <==> g in Set(u);
    assert g in SortBy(u, Earlier) <==> g in Set(SortBy(u, Earlier));
  }

  lemma MergeListsLatest(a: seq<Fact>, b: seq<Fact>, s: set<Fact>, t: set<Fact>)
    requires ListsLatest(a, s) && ListsLatest(b, t)
    ensures ListsLatest(MergeFacts(a, b), s + t) && ListsLatest(UnionById(a, b), s + t)
  {
    MergeIds(a, b);
    UnionHasDistinctIds(a, b);
    forall g ensures g in UnionById(a, b) <==> g in MergeFacts(a, b) { UnionIds(a, b, g); }
    forall g | g in MergeFacts(a, b) ensures Latest(s + t, g) {
      if g in Settled(a, b) {
        var i :| 0 <= i < |a| && Settled(a, b)[i] == g;
        SettledIsLatest(a[i], b, s, t);
      } else {
        MinusSelects(b, FactIds(a), g);
      }
    }
  }

  lemma SettledIsLatest(f: Fact, b: seq<Fact>, s: set<Fact>, t: set<Fact>)
    requires Latest(s, f) && ListsLatest(b, t)
    ensures Latest(s + t, Version(f, b))
  {
    forall h | h in s + t && h.body.id == f.body.id ensures h.ts <= Version(f, b).ts {
      if h in t {
        var k :| k in b && k.body.id == h.body.id;
        VersionOfOnly(f, b, k);
      }
    }
  }

  lemma {:induction false} EvalListsLatest(t: MergeTree)
    requires DistinctLeaves(t)
    ensures ListsLatest(Eval(t), AllFacts(t))
  {
    match t
    case Leaf(fs) => ChainListsLatest(fs);
    case Node(l, r) =>
      EvalListsLatest(l);
      EvalListsLatest(r);
      MergeListsLatest(Eval(l), Eval(r), AllFacts(l), AllFacts(r));
  }

  lemma FoldListsLatest(fss: seq<seq<Fact>>)
    requires fss != [] && AllDistinct(fss)
    ensures ListsLatest(FoldFacts(fss), Gathered(fss))
  {
    FoldIsTree(fss);
    EvalListsLatest(LeftTree(fss));
  }

  lemma LastVersion(c: seq<Fact>, s: set<Fact>, f: Fact)
    requires ListsLatest(c, s) && f in s
    ensures Version(f, c) in c && Latest(s, Version(f, c))
  {
    var g :| g in c && g.body.id == f.body.id;
    VersionOfOnly(f, c, g);
  }

  lemma SameLast(c: seq<Fact>, s: set<Fact>, f: Fact, g: Fact)
    requires ListsLatest(c, s) && f in s && g in s && f.body.id == g.body.id
    ensures Version(f, c) == Version(g, c)
  {
    var h :| h in c && h.body.id == f.body.id;
    VersionOfOnly(f, c, h);
    VersionOfOnly(g, c, h);
  }

  lemma SettledDistinct(a: seq<Fact>, c: seq<Fact>)
    requires DistinctIds(a)
    ensures DistinctIds(Settled(a, c))
  {
    forall i, j | 0 <= i < j < |a| ensures Settled(a, c)[i].body.id != Settled(a, c)[j].body.id {
      assert a[i].body.id != a[j].body.id;
    }
  }

  // ----- merging lists in line -----

  /** Two chains whose last versions are first parts of `l` unite to one: the order of the union is that of `l`. */
  lemma UnionInLine(a: seq<Fact>, b: seq<Fact>, c: seq<Fact>, s: set<Fact>, t: Time, l: seq<Fact>)
    requires ListsLatest(c, s) && DistinctIds(a) && DistinctIds(b) && Set(a) <= s && Set(b) <= s
    requires AtInstant(Settled(a, c), t) <= l && AtInstant(Settled(b, c), t) <= l
    ensures AtInstant(Settled(UnionById(a, b), c), t) <= l
  {
    var p, q := AtInstant(Settled(a, c), t), AtInstant(Settled(b, c), t);
    RightFirst(a, b, c, t);
    SettledAlready(a, b, c, s);
    MinusAtInstant(Settled(b, c), FactIds(a), t);
    forall g | g in q ensures g.body.id in FactIds(a) <==> g.body.id in FactIds(p) { KnownThere(a, b, c, s, t, g); }
    MinusSame(q, FactIds(a), FactIds(p));
    SettledDistinct(b, c);
    AtInstantDistinct(Settled(b, c), t);
    JoinInLine(p, q);
  }

  lemma SettledAlready(a: seq<Fact>, b: seq<Fact>, c: seq<Fact>, s: set<Fact>)
    requires ListsLatest(c, s) && DistinctIds(b) && Set(a) <= s && Set(b) <= s
    ensures Settled(a, MergeFacts(b, c)) == Settled(a, c)
  {
    SettledTwice(a, b, c);
    forall i | 0 <= i < |a| ensures Version(Version(a[i], b), c) == Version(a[i], c) {
      assert a[i] in Set(a) && (Version(a[i], b) in b ==> Version(a[i], b) in Set(b));
      SameLast(c, s, a[i], Version(a[i], b));
    }
  }

  lemma KnownThere(a: seq<Fact>, b: seq<Fact>, c: seq<Fact>, s: set<Fact>, t: Time, g: Fact)
    requires ListsLatest(c, s) && Set(a) <= s && Set(b) <= s && g in AtInstant(Settled(b, c), t)
    ensures g.body.id in FactIds(a) <==> g.body.id in FactIds(AtInstant(Settled(a, c), t))
  {
    AtInstantSelects(Settled(b, c), t, g);
    var k :| 0 <= k < |b| && Settled(b, c)[k] == g;
    if f :| f in a && f.body.id == g.body.id {
      var i :| 0 <= i < |a| && a[i] == f;
      assert b[k] in Set(b) && f in Set(a);
      SameLast(c, s, f, b[k]);
      assert Settled(a, c)[i] == g;
      AtInstantSelects(Settled(a, c), t, g);
    }
    if h :| h in AtInstant(Settled(a, c), t) && h.body.id == g.body.id {
      AtInstantSelects(Settled(a, c), t, h);
      SettledIds(a, c, h);
    }
  }

  /** The events of the union landing at `t` carry the ids of `l`, one by one. */
  lemma LandingFollows(w: seq<Fact>, c: seq<Fact>, t: Time, l: seq<Fact>)
    requires AtInstant(Settled(w, c), t) <= l
    ensures var d := Landing(w, Ends(c), t); |d| <= |l| && forall k :: 0 <= k < |d| ==> d[k].body.id == l[k].body.id
  {
    var d := Landing(w, Ends(c), t);
    SettledAtInstant(w, c, t);
    forall k | 0 <= k < |d| ensures d[k].body.id == l[k].body.id { assert Settled(d, c)[k] == l[k]; }
  }

  lemma SamePlace(l: seq<Fact>, i: nat, j: nat)
    requires DistinctIds(l) && i < |l| && j < |l| && l[i].body.id == l[j].body.id
    ensures i == j
  {
  }

  lemma PlaceInLine(w: seq<Fact>, c: seq<Fact>, s: set<Fact>, t: Time, l: seq<Fact>, i: nat, f: Fact) returns (g: Fact)
    requires ListsLatest(c, s) && Set(w) <= s && DistinctIds(l) && AtInstant(Settled(w, c), t) <= l
    requires i < |l| && f in s && f.body.id == l[i].body.id && f.body.id in FactIds(w) && Version(f, c).ts == t
    ensures g in w && g.body.id == f.body.id && i < |Landing(w, Ends(c), t)| && Landing(w, Ends(c), t)[i] == g
  {
    g :| g in w && g.body.id == f.body.id;
    assert g in Set(w);
    SameLast(c, s, f, g);
    LandingSelects(w, Ends(c), t, g);
    var d := Landing(w, Ends(c), t);
    var m :| 0 <= m < |d| && d[m] == g;
    LandingFollows(w, c, t, l);
    SamePlace(l, m, i);
  }

  lemma ListedIn(e: seq<Fact>, s: set<Fact>)
    requires ListsLatest(e, s)
    ensures Set(e) <= s
  {
    forall f | f in Set(e) ensures f in s { assert Latest(s, f); }
  }

  lemma LatestTogether(s: set<Fact>, f: Fact, g: Fact)
    requires Latest(s, f) && Latest(s, g) && f.body.id == g.body.id
    ensures f.ts == g.ts
  {
  }

  lemma TimeInLine(u: seq<Fact>, part: set<Fact>, c: seq<Fact>, s: set<Fact>, t: Time, l: seq<Fact>, i: nat, x: Fact)
    requires ListsLatest(u, part) && part <= s && ListsLatest(c, s) && DistinctIds(l) && AtInstant(Settled(u, c), t) <= l
    requires i < |l| && Latest(part, x) && x.body.id == l[i].body.id && Version(x, c).ts == t
    ensures i < |Landing(u, Ends(c), t)| && Landing(u, Ends(c), t)[i].ts == x.ts
  {
    ListedIn(u, part);
    var f := PlaceInLine(u, c, s, t, l, i, x);
    LatestTogether(part, f, x);
  }

  lemma UnionHolds(p: seq<Fact>, q: seq<Fact>, s: set<Fact>)
    requires DistinctIds(p) && DistinctIds(q) && Set(p) <= s && Set(q) <= s
    ensures ListsLatest(UnionById(p, q), Set(p) + Set(q)) && Set(UnionById(p, q)) <= s
  {
    ChainListsLatest(p);
    ChainListsLatest(q);
    MergeListsLatest(p, q, Set(p), Set(q));
    ListedIn(UnionById(p, q), Set(p) + Set(q));
  }

  /** Of two events of the union of `p` and `q`, the one listed first in `l` is not later. */
  lemma PairInTime(p: seq<Fact>, q: seq<Fact>, c: seq<Fact>, s: set<Fact>, t: Time, l: seq<Fact>, i: nat, j: nat, x: Fact, y: Fact)
    requires ListsLatest(c, s) && DistinctIds(p) && DistinctIds(q) && Set(p) <= s && Set(q) <= s && DistinctIds(l)
    requires AtInstant(Settled(p, c), t) <= l && AtInstant(Settled(q, c), t) <= l && InTimeAt(UnionById(p, q), Ends(c), t)
    requires i < j < |l| && x.body.id == l[i].body.id && y.body.id == l[j].body.id
    requires Latest(Set(p) + Set(q), x) && Latest(Set(p) + Set(q), y) && Version(x, c).ts == Version(y, c).ts == t
    ensures x.ts <= y.ts
  {
    var u := UnionById(p, q);
    UnionHolds(p, q, s);
    UnionInLine(p, q, c, s, t, l);
    TimeInLine(u, Set(p) + Set(q), c, s, t, l, i, x);
    TimeInLine(u, Set(p) + Set(q), c, s, t, l, j, y);
    LandingSortedIff(u, Ends(c), t);
    assert Earlier(Landing(u, Ends(c), t)[i], Landing(u, Ends(c), t)[j]);
  }

  // ----- any tree over chains in line -----

  ghost predicate FirstParts(fss: seq<seq<Fact>>, c: seq<Fact>, t: Time, l: seq<Fact>) {
    forall i :: 0 <= i < |fss| ==> AtInstant(Settled(fss[i], c), t) <= l
  }

  /** No two chains unite out of the time order of events that end up at `t`. */
  ghost predicate PairsInTime(fss: seq<seq<Fact>>, c: seq<Fact>, t: Time) {
    forall i, j :: 0 <= i < |fss| && 0 <= j < |fss| && i != j ==> InTimeAt(UnionById(fss[i], fss[j]), Ends(c), t)
  }

  lemma ReadyParts(fss: seq<seq<Fact>>, gss: seq<seq<Fact>>, c: seq<Fact>, t: Time, l: seq<Fact>)
    requires FirstParts(fss + gss, c, t, l) && PairsInTime(fss + gss, c, t)
    ensures FirstParts(fss, c, t, l) && PairsInTime(fss, c, t) && FirstParts(gss, c, t, l) && PairsInTime(gss, c, t)
  {
    var hss := fss + gss;
    assert forall i :: 0 <= i < |fss| ==> hss[i] == fss[i];
    forall i | 0 <= i < |gss| ensures AtInstant(Settled(gss[i], c), t) <= l { assert hss[i + |fss|] == gss[i]; }
    forall i, j | 0 <= i < |gss| && 0 <= j < |gss| && i != j ensures InTimeAt(UnionById(gss[i], gss[j]), Ends(c), t) {
      assert hss[i + |fss|] == gss[i] && hss[j + |fss|] == gss[j];
    }
  }

  lemma InSomeLeaf(fss: seq<seq<Fact>>, f: Fact) returns (i: nat)
    requires f in Gathered(fss)
    ensures i < |fss| && f in fss[i]
  {
    var fs :| fs in fss && f in fs;
    i :| 0 <= i < |fss| && fss[i] == fs;
  }

  lemma OfLeaf(fss: seq<seq<Fact>>, i: nat)
    requires i < |fss|
    ensures Set(fss[i]) <= Gathered(fss)
  {
    assert fss[i] in fss;
  }

  lemma LatestOfPart(s: set<Fact>, part: set<Fact>, f: Fact)
    requires Latest(s, f) && part <= s && f in part
    ensures Latest(part, f)
  {
  }

  /** The events of a merge that land at `t` are in time order already. */
  lemma NodeInTime(fss: seq<seq<Fact>>, w: seq<Fact>, c: seq<Fact>, s: set<Fact>, t: Time, l: seq<Fact>)
    requires |fss| > 1 && AllDistinct(fss) && Gathered(fss) <= s && ListsLatest(c, s) && DistinctIds(l)
    requires FirstParts(fss, c, t, l) && PairsInTime(fss, c, t)
    requires ListsLatest(w, Gathered(fss)) && AtInstant(Settled(w, c), t) <= l
    ensures InTimeAt(w, Ends(c), t)
  {
    var d := Landing(w, Ends(c), t);
    LandingFollows(w, c, t, l);
    forall i, j | 0 <= i < j < |d| ensures Earlier(d[i], d[j]) {
      LandingSelects(w, Ends(c), t, d[i]);
      LandingSelects(w, Ends(c), t, d[j]);
      LeavesInTime(fss, c, s, t, l, i, j, d[i], d[j]);
    }
    LandingSortedIff(w, Ends(c), t);
  }

  lemma LeavesInTime(fss: seq<seq<Fact>>, c: seq<Fact>, s: set<Fact>, t: Time, l: seq<Fact>, i: nat, j: nat, x: Fact, y: Fact)
    requires |fss| > 1 && AllDistinct(fss) && Gathered(fss) <= s && ListsLatest(c, s) && DistinctIds(l)
    requires FirstParts(fss, c, t, l) && PairsInTime(fss, c, t)
    requires i < j < |l| && x.body.id == l[i].body.id && y.body.id == l[j].body.id
    requires Latest(Gathered(fss), x) && Latest(Gathered(fss), y) && Version(x, c).ts == Version(y, c).ts == t
    ensures x.ts <= y.ts
  {
    var p, q := TwoLeaves(fss, c, t, l, x, y);
    LatestOfPart(Gathered(fss), Set(p) + Set(q), x);
    LatestOfPart(Gathered(fss), Set(p) + Set(q), y);
    PairInTime(p, q, c, s, t, l, i, j, x, y);
  }

  /** Two chains that hold `x` and `y` between them. */
  lemma TwoLeaves(fss: seq<seq<Fact>>, c: seq<Fact>, t: Time, l: seq<Fact>, x: Fact, y: Fact) returns (p: seq<Fact>, q: seq<Fact>)
    requires |fss| > 1 && AllDistinct(fss) && x in Gathered(fss) && y in Gathered(fss)
    requires FirstParts(fss, c, t, l) && PairsInTime(fss, c, t)
    ensures DistinctIds(p) && DistinctIds(q) && Set(p) <= Gathered(fss) && Set(q) <= Gathered(fss)
    ensures x in Set(p) + Set(q) && y in Set(p) + Set(q)
    ensures AtInstant(Settled(p, c), t) <= l && AtInstant(Settled(q, c), t) <= l && InTimeAt(UnionById(p, q), Ends(c), t)
  {
    var a := InSomeLeaf(fss, x);
    var b := InSomeLeaf(fss, y);
    var o := if a != b then b else if a == 0 then 1 else 0;
    OfLeaf(fss, a);
    OfLeaf(fss, o);
    p, q := fss[a], fss[o];
  }

  /** Whatever the order and the bracketing, the events that end up at `t` follow `l`. */
  lemma {:induction false} TreeInLine(t: MergeTree, c: seq<Fact>, s: set<Fact>, at: Time, l: seq<Fact>)
    requires DistinctLeaves(t) && AllFacts(t) <= s && ListsLatest(c, s) && DistinctIds(l)
    requires FirstParts(Leaves(t), c, at, l) && PairsInTime(Leaves(t), c, at)
    ensures AtInstant(Settled(Eval(t), c), at) <= l
  {
    match t
    case Leaf(fs) =>
      assert Leaves(t)[0] == fs;
    case Node(p, q) =>
      ReadyParts(Leaves(p), Leaves(q), c, at, l);
      TreeInLine(p, c, s, at, l);
      TreeInLine(q, c, s, at, l);
      EvalListsLatest(p);
      EvalListsLatest(q);
      MergeListsLatest(Eval(p), Eval(q), AllFacts(p), AllFacts(q));
      ListedIn(Eval(p), AllFacts(p));
      ListedIn(Eval(q), AllFacts(q));
      UnionInLine(Eval(p), Eval(q), c, s, at, l);
      LeavesHold(t);
      NodeInTime(Leaves(t), UnionById(Eval(p), Eval(q)), c, s, at, l);
      SortedFirstIff(UnionById(Eval(p), Eval(q)), c, at);
  }

  // ----- the condition -----

  /** The chains with every event in the version that `c` keeps. */
  function Finals(fss: seq<seq<Fact>>, c: seq<Fact>): seq<seq<Fact>> {
    seq(|fss|, i requires 0 <= i < |fss| => Settled(fss[i], c))
  }

  ghost predicate NoneOvertaken(fss: seq<seq<Fact>>, c: seq<Fact>) {
    forall i, j :: 0 <= i < |fss| && 0 <= j < |fss| && i != j ==> NoOvertaking(UnionById(fss[i], fss[j]), c)
  }

  /** Every way of merging the chains pairwise, in any order, gives the same events. */
  ghost predicate AnyMerge(fss: seq<seq<Fact>>)
    requires fss != []
  {
    forall t :: Rearranged(fss, Leaves(t)) ==> Eval(t) == FoldFacts(fss)
  }

  lemma FinalsHold(fss: seq<seq<Fact>>, c: seq<Fact>)
    requires AllDistinct(fss) && ListsLatest(c, Gathered(fss))
    ensures AllDistinct(Finals(fss, c)) && OneVersion(Gathered(Finals(fss, c)))
  {
    forall i | 0 <= i < |fss| ensures DistinctIds(Finals(fss, c)[i]) { SettledDistinct(fss[i], c); }
    forall f | f in Gathered(Finals(fss, c)) ensures f in c {
      var i := InSomeLeaf(Finals(fss, c), f);
      var k :| 0 <= k < |fss[i]| && Settled(fss[i], c)[k] == f;
      OfLeaf(fss, i);
      assert fss[i][k] in Set(fss[i]);
      LastVersion(c, Gathered(fss), fss[i][k]);
    }
    OneVersionOfDistinct(c);
  }

  lemma InLineReady(fss: seq<seq<Fact>>, c: seq<Fact>, t: Time) returns (l: seq<Fact>)
    requires fss != [] && AllDistinct(fss) && ListsLatest(c, Gathered(fss))
    requires PairwiseInLine(Finals(fss, c)) && NoneOvertaken(fss, c)
    ensures DistinctIds(l) && FirstParts(fss, c, t, l) && PairsInTime(fss, c, t)
  {
    var gss := Finals(fss, c);
    FinalsHold(fss, c);
    PairwiseLinesUp(gss, t);
    FoldOfLinedUp(gss, t);
    FoldHolds(gss);
    l := AtInstant(FoldFacts(gss), t);
    AtInstantDistinct(FoldFacts(gss), t);
    forall i | 0 <= i < |fss| ensures AtInstant(Settled(fss[i], c), t) <= l { assert AtInstant(gss[i], t) <= l; }
    forall i, j | 0 <= i < |fss| && 0 <= j < |fss| && i != j ensures InTimeAt(UnionById(fss[i], fss[j]), Ends(c), t) {
      NoOvertakingIff(UnionById(fss[i], fss[j]), c);
    }
  }

  /** The two places of two chains among the rearranged ones. */
  lemma PlacesOfPair(fss: seq<seq<Fact>>, gss: seq<seq<Fact>>, a: nat, b: nat) returns (i: nat, j: nat)
    requires multiset(fss) == multiset(gss) && a < |gss| && b < |gss| && a != b
    ensures i < |fss| && j < |fss| && i != j && fss[i] == gss[a] && fss[j] == gss[b]
  {
    assert gss[a] in multiset(fss) && gss[b] in multiset(fss);
    i :| 0 <= i < |fss| && fss[i] == gss[a];
    if gss[a] != gss[b] {
      j :| 0 <= j < |fss| && fss[j] == gss[b];
    } else {
      TwiceInMultiset(gss, if a < b then a else b, if a < b then b else a);
      DropAt(fss, i);
      var others := fss[..i] + fss[i + 1..];
      assert gss[b] in multiset(others);
      var k :| 0 <= k < |others| && others[k] == gss[b];
      j := if k < i then k else k + 1;
    }
  }

  lemma ReadyRearranged(fss: seq<seq<Fact>>, gss: seq<seq<Fact>>, c: seq<Fact>, t: Time, l: seq<Fact>)
    requires Rearranged(fss, gss) && FirstParts(fss, c, t, l) && PairsInTime(fss, c, t)
    ensures FirstParts(gss, c, t, l) && PairsInTime(gss, c, t)
  {
    SameElements(fss, gss);
    forall a | 0 <= a < |gss| ensures AtInstant(Settled(gss[a], c), t) <= l {
      assert gss[a] in fss;
      var i :| 0 <= i < |fss| && fss[i] == gss[a];
    }
    forall a, b | 0 <= a < |gss| && 0 <= b < |gss| && a != b ensures InTimeAt(UnionById(gss[a], gss[b]), Ends(c), t) {
      var i, j := PlacesOfPair(fss, gss, a, b);
    }
  }

  lemma {:induction false} LeavesDistinct(t: MergeTree)
    requires AllDistinct(Leaves(t))
    ensures DistinctLeaves(t)
  {
    match t
    case Leaf(fs) => assert Leaves(t)[0] == fs;
    case Node(l, r) =>
      var ls, rs := Leaves(l), Leaves(r);
      forall i | 0 <= i < |ls| ensures DistinctIds(ls[i]) { assert (ls + rs)[i] == ls[i]; }
      forall i | 0 <= i < |rs| ensures DistinctIds(rs[i]) { assert (ls + rs)[i + |ls|] == rs[i]; }
      LeavesDistinct(l);
      LeavesDistinct(r);
  }

  lemma WinnersListed(e: seq<Fact>, s: set<Fact>)
    requires ListsLatest(e, s) && OneVersion(Winners(s))
    ensures Set(e) == Winners(s)
  {
    forall f | f in Winners(s) ensures f in e {
      var g :| g in e && g.body.id == f.body.id;
      assert g in Winners(s);
    }
  }

  lemma SettledInLast(e: seq<Fact>, c: seq<Fact>, s: set<Fact>)
    requires ListsLatest(e, s) && ListsLatest(c, s) && OneVersion(Winners(s))
    ensures Settled(e, c) == e
  {
    forall i | 0 <= i < |e| ensures Version(e[i], c) == e[i] {
      assert Latest(s, e[i]);
      LastVersion(c, s, e[i]);
      assert e[i] in Winners(s) && Version(e[i], c) in Winners(s);
    }
  }

  lemma SameSizeSlices(u: seq<Fact>, v: seq<Fact>, t: Time)
    requires DistinctIds(u) && DistinctIds(v) && Set(u) == Set(v)
    ensures |AtInstant(u, t)| == |AtInstant(v, t)|
  {
    AtInstantDistinct(u, t);
    AtInstantDistinct(v, t);
    forall f ensures f in Set(AtInstant(u, t)) <==> f in Set(AtInstant(v, t)) {
      AtInstantSelects(u, t, f);
      AtInstantSelects(v, t, f);
      assert f in u <==> f in Set(u);
      assert f in v <==> f in Set(v);
    }
    SameSetSameElements(AtInstant(u, t), AtInstant(v, t));
    assert |multiset(AtInstant(u, t))| == |AtInstant(u, t)| && |multiset(AtInstant(v, t))| == |AtInstant(v, t)|;
  }

  lemma {:induction false} TreeOfFold(fss: seq<seq<Fact>>)
    requires fss != []
    ensures Leaves(LeftTree(fss)) == fss && Eval(LeftTree(fss)) == FoldFacts(fss)
  {
    var n := |fss| - 1;
    if n > 0 {
      TreeOfFold(fss[..n]);
      assert fss == fss[..n] + [fss[n]];
    } else {
      assert fss == [fss[0]];
    }
  }

  lemma NodeIsSorted(t: MergeTree)
    requires t.Node?
    ensures SortedBy(Eval(t), Earlier)
  {
    SlicesOfSorted(UnionById(Eval(t.left), Eval(t.right)));
  }

  lemma TreeAtInstant(fss: seq<seq<Fact>>, t: MergeTree, c: seq<Fact>, at: Time, l: seq<Fact>)
    requires AllDistinct(fss) && ListsLatest(c, Gathered(fss)) && OneVersion(Winners(Gathered(fss))) && Rearranged(fss, Leaves(t))
    requires DistinctIds(l) && FirstParts(fss, c, at, l) && PairsInTime(fss, c, at)
    ensures ListsLatest(Eval(t), Gathered(fss)) && AtInstant(Eval(t), at) <= l
  {
    RearrangedHolds(fss, Leaves(t));
    LeavesDistinct(t);
    LeavesHold(t);
    ReadyRearranged(fss, Leaves(t), c, at, l);
    TreeInLine(t, c, Gathered(fss), at, l);
    EvalListsLatest(t);
    SettledInLast(Eval(t), c, Gathered(fss));
  }

  lemma SameAtInstant(fss: seq<seq<Fact>>, t: MergeTree, at: Time)
    requires |fss| > 1 && AllDistinct(fss) && Unambiguous(fss) && Rearranged(fss, Leaves(t))
    ensures AtInstant(Eval(t), at) == AtInstant(FoldFacts(fss), at)
  {
    var c, s := FoldFacts(fss), Gathered(fss);
    FoldListsLatest(fss);
    var l := InLineReady(fss, c, at);
    TreeOfFold(fss);
    TreeAtInstant(fss, t, c, at, l);
    TreeAtInstant(fss, LeftTree(fss), c, at, l);
    WinnersListed(Eval(t), s);
    WinnersListed(c, s);
    SameSizeSlices(Eval(t), c, at);
    SamePrefix(AtInstant(Eval(t), at), AtInstant(c, at), l);
  }

  lemma SamePrefix(u: seq<Fact>, v: seq<Fact>, w: seq<Fact>)
    requires u <= w && v <= w && |u| == |v|
    ensures u == v
  {
  }

  /** The three conditions of `CrdtOrders.AnyOrderIff`. */
  ghost predicate Unambiguous(fss: seq<seq<Fact>>)
    requires fss != []
  {
    && OneVersion(Winners(Gathered(fss)))
    && PairwiseInLine(Finals(fss, FoldFacts(fss)))
    && NoneOvertaken(fss, FoldFacts(fss))
  }

  lemma UnambiguousMergesAlike(fss: seq<seq<Fact>>, t: MergeTree)
    requires |fss| > 1 && AllDistinct(fss) && Unambiguous(fss) && Rearranged(fss, Leaves(t))
    ensures Eval(t) == FoldFacts(fss)
  {
    forall at ensures AtInstant(Eval(t), at) == AtInstant(FoldFacts(fss), at) { SameAtInstant(fss, t, at); }
    TreeOfFold(fss);
    RearrangedHolds(fss, Leaves(t));
    NodeIsSorted(t);
    NodeIsSorted(LeftTree(fss));
    SlicesDetermineSorted(Eval(t), FoldFacts(fss));
  }
}
