/** Chains merged in a fixed order (adl_lite/crdt.py): exactly when every bracketing of the merges gives one result, whatever
    versions of their events the chains hold. */
module CrdtBracketings {
  import opened Basics
  import opened Events
  import opened Crdt
  import opened CrdtLaws
  import opened CrdtBrackets
  import opened CrdtTrees

  // ----- events in the order of their first appearance -----

  function IdsOf(fss: seq<seq<Fact>>): set<string> { if fss == [] then {} else FactIds(fss[0]) + IdsOf(fss[1..]) }

  /** The events with ids outside `known`, in the versions that `c` keeps, in the order in which they first appear. */
  function Firsts(fss: seq<seq<Fact>>, c: seq<Fact>, known: set<string>): seq<Fact> {
    if fss == [] then [] else Minus(Settled(fss[0], c), known) + Firsts(fss[1..], c, known + FactIds(fss[0]))
  }

  /** The union of the chains, one after the other, unsorted. */
  function United(fss: seq<seq<Fact>>): seq<Fact>
    requires fss != []
  {
    if |fss| == 1 then fss[0] else UnionById(United(fss[..|fss| - 1]), fss[|fss| - 1])
  }

  lemma {:induction false} IdsOfConcat(fss: seq<seq<Fact>>, gss: seq<seq<Fact>>)
    ensures IdsOf(fss + gss) == IdsOf(fss) + IdsOf(gss)
  {
    if fss == [] {
      assert fss + gss == gss;
    } else {
      IdsOfConcat(fss[1..], gss);
      assert (fss + gss)[1..] == fss[1..] + gss;
    }
  }

  lemma {:induction false} IdsOfGathered(fss: seq<seq<Fact>>, f: Fact)
    ensures f in Gathered(fss) ==> f.body.id in IdsOf(fss)
    ensures f.body.id in IdsOf(fss) ==> exists g :: g in Gathered(fss) && g.body.id == f.body.id
  {
    if fss != [] {
      var rest := fss[1..];
      IdsOfGathered(rest, f);
      assert fss == [fss[0]] + rest;
      GatheredOfConcat([fss[0]], rest);
      GatheredOfOne(fss[0]);
      if f.body.id in FactIds(fss[0]) {
        var g :| g in fss[0] && g.body.id == f.body.id;
        assert g in Gathered(fss);
      }
    }
  }

  lemma GatheredOfOne(fs: seq<Fact>)
    ensures Gathered([fs]) == Set(fs)
  {
    assert fs in [fs];
  }

  lemma FirstsOfOne(fs: seq<Fact>, c: seq<Fact>, known: set<string>)
    ensures Firsts([fs], c, known) == Minus(Settled(fs, c), known)
  {
    assert [fs][1..] == [];
  }

  lemma {:induction false} FirstsOfConcat(fss: seq<seq<Fact>>, gss: seq<seq<Fact>>, c: seq<Fact>, known: set<string>)
    ensures Firsts(fss + gss, c, known) == Firsts(fss, c, known) + Firsts(gss, c, known + IdsOf(fss))
  {
    if fss == [] {
      assert fss + gss == gss && known + {} == known;
    } else {
      var rest, more := fss[1..], known + FactIds(fss[0]);
      assert (fss + gss)[1..] == rest + gss;
      FirstsOfConcat(rest, gss, c, more);
      assert more + IdsOf(rest) == known + IdsOf(fss);
      JoinIsAssociative(Minus(Settled(fss[0], c), known), Firsts(rest, c, more), Firsts(gss, c, known + IdsOf(fss)));
    }
  }

  // ----- taking ids away and sorting -----

  lemma {:induction false} MinusOfSorted(fs: seq<Fact>, known: set<string>)
    requires SortedBy(fs, Earlier)
    ensures SortedBy(Minus(fs, known), Earlier)
  {
    if fs != [] {
      var rest := fs[1..];
      assert fs == [fs[0]] + rest;
      SortedSplit(fs[0], rest);
      MinusOfSorted(rest, known);
      forall g | g in Minus(rest, known) ensures fs[0].ts <= g.ts { MinusSelects(rest, known, g); }
      SortedSplit(fs[0], Minus(rest, known));
      MinusOfCons(fs, known);
    }
  }

  lemma MinusOfSort(w: seq<Fact>, known: set<string>)
    ensures Minus(SortBy(w, Earlier), known) == SortBy(Minus(w, known), Earlier)
  {
    var u, v := Minus(SortBy(w, Earlier), known), SortBy(Minus(w, known), Earlier);
    SlicesOfSorted(w);
    SlicesOfSorted(Minus(w, known));
    MinusOfSorted(SortBy(w, Earlier), known);
    forall t ensures AtInstant(u, t) == AtInstant(v, t) {
      MinusAtInstant(SortBy(w, Earlier), known, t);
      SortIsStable(w, t);
      MinusAtInstant(w, known, t);
      SortIsStable(Minus(w, known), t);
    }
    SlicesDetermineSorted(u, v);
  }

  lemma DistinctOfCons(f: Fact, fs: seq<Fact>)
    ensures DistinctIds([f] + fs) <==> DistinctIds(fs) && forall g :: g in fs ==> g.body.id != f.body.id
  {
    var all := [f] + fs;
    if DistinctIds(all) {
      forall i, j | 0 <= i < j < |fs| ensures fs[i].body.id != fs[j].body.id { assert all[i + 1].body.id != all[j + 1].body.id; }
      forall g | g in fs ensures g.body.id != f.body.id {
        var k :| 0 <= k < |fs| && fs[k] == g;
        assert all[0].body.id != all[k + 1].body.id;
      }
    }
  }

  lemma {:induction false} MinusDistinct(fs: seq<Fact>, known: set<string>)
    requires DistinctIds(fs)
    ensures DistinctIds(Minus(fs, known))
  {
    if fs != [] {
      var rest := fs[1..];
      assert fs == [fs[0]] + rest;
      DistinctOfCons(fs[0], rest);
      MinusDistinct(rest, known);
      MinusOfCons(fs, known);
      forall g | g in Minus(rest, known) ensures g.body.id != fs[0].body.id { MinusSelects(rest, known, g); }
      DistinctOfCons(fs[0], Minus(rest, known));
    }
  }

  // ----- one merge -----

  /** What the new events of the union of two lists come to at an instant. */
  lemma UnionFirsts(a: seq<Fact>, b: seq<Fact>, c: seq<Fact>, s: set<Fact>, known: set<string>, t: Time)
    requires ListsLatest(c, s) && DistinctIds(a) && DistinctIds(b) && Set(a) <= s && Set(b) <= s
    ensures AtInstant(Minus(Settled(UnionById(a, b), c), known), t) ==
            AtInstant(Minus(Settled(a, c), known), t) + AtInstant(Minus(Settled(b, c), known + FactIds(a)), t)
  {
    var ids := FactIds(a);
    UnionShape(a, b);
    SettledOfConcat(Settled(a, b), Minus(b, ids), c);
    SettledAlready(a, b, c, s);
    SettledTwice(a, b, c);
    SettledOfMinus(b, ids, c);
    MinusOfConcat(Settled(a, c), Minus(Settled(b, c), ids), known);
    MinusTwice(Settled(b, c), ids, known);
    assert ids + known == known + ids;
    AtInstantOfConcat(Minus(Settled(a, c), known), Minus(Settled(b, c), known + ids), t);
  }

  /** The merge keeps that order exactly when the new events that end up at the instant are in time order. */
  lemma MergeFirstsIff(w: seq<Fact>, c: seq<Fact>, known: set<string>, t: Time)
    requires DistinctIds(w)
    ensures AtInstant(Minus(Settled(SortBy(w, Earlier), c), known), t) == AtInstant(Minus(Settled(w, c), known), t)
            <==> InTimeAt(Minus(w, known), Ends(c), t)
  {
    MinusOfSort(w, known);
    SettledOfMinus(SortBy(w, Earlier), known, c);
    SettledOfMinus(w, known, c);
    MinusDistinct(w, known);
    SortedFirstIff(Minus(w, known), c, t);
  }

  // ----- blocks of neighbouring chains -----

  ghost predicate Setting(fss: seq<seq<Fact>>, c: seq<Fact>) { AllDistinct(fss) && ListsLatest(c, Gathered(fss)) }

  lemma BlockHolds(fss: seq<seq<Fact>>, i: nat, j: nat)
    requires AllDistinct(fss) && i <= j <= |fss|
    ensures AllDistinct(fss[i..j]) && Gathered(fss[i..j]) <= Gathered(fss)
  {
    forall k | 0 <= k < j - i ensures DistinctIds(fss[i..j][k]) { assert fss[i..j][k] == fss[i + k]; }
    assert forall fs :: fs in fss[i..j] ==> fs in fss;
  }

  lemma {:induction false} UnitedHolds(fss: seq<seq<Fact>>)
    requires fss != [] && AllDistinct(fss)
    ensures ListsLatest(United(fss), Gathered(fss))
  {
    var n := |fss| - 1;
    if n == 0 {
      assert fss == [fss[0]];
      GatheredOfOne(fss[0]);
      ChainListsLatest(fss[0]);
    } else {
      assert fss == fss[..n] + [fss[n]];
      GatheredOfConcat(fss[..n], [fss[n]]);
      GatheredOfOne(fss[n]);
      UnitedHolds(fss[..n]);
      ChainListsLatest(fss[n]);
      MergeListsLatest(United(fss[..n]), fss[n], Gathered(fss[..n]), Set(fss[n]));
    }
  }

  lemma ListedIds(e: seq<Fact>, fss: seq<seq<Fact>>)
    requires ListsLatest(e, Gathered(fss))
    ensures FactIds(e) == IdsOf(fss)
  {
    forall id | id in FactIds(e) ensures id in IdsOf(fss) {
      var f :| f in e && f.body.id == id;
      assert Latest(Gathered(fss), f);
      IdsOfGathered(fss, f);
    }
    forall id | id in IdsOf(fss) ensures id in FactIds(e) { IdGathered(fss, e, id); }
  }

  lemma IdGathered(fss: seq<seq<Fact>>, e: seq<Fact>, id: string)
    requires ListsLatest(e, Gathered(fss)) && id in IdsOf(fss)
    ensures id in FactIds(e)
  {
    var g := SomeWithId(fss, id);
    assert g in Gathered(fss);
  }

  lemma {:induction false} SomeWithId(fss: seq<seq<Fact>>, id: string) returns (g: Fact)
    requires id in IdsOf(fss)
    ensures g in Gathered(fss) && g.body.id == id
  {
    if id in FactIds(fss[0]) {
      g :| g in fss[0] && g.body.id == id;
      assert fss[0] in fss;
    } else {
      g := SomeWithId(fss[1..], id);
      assert forall fs :: fs in fss[1..] ==> fs in fss;
    }
  }

  lemma {:induction false} UnitedFirsts(fss: seq<seq<Fact>>, c: seq<Fact>, s: set<Fact>, known: set<string>, t: Time)
    requires fss != [] && AllDistinct(fss) && Gathered(fss) <= s && ListsLatest(c, s)
    ensures AtInstant(Minus(Settled(United(fss), c), known), t) == AtInstant(Firsts(fss, c, known), t)
  {
    var n := |fss| - 1;
    if n == 0 {
      assert fss == [fss[0]];
      FirstsOfOne(fss[0], c, known);
    } else {
      var front, z := fss[..n], fss[n];
      assert fss == front + [z];
      GatheredOfConcat(front, [z]);
      GatheredOfOne(z);
      UnitedFirsts(front, c, s, known, t);
      UnitedHolds(front);
      ListedIn(United(front), Gathered(front));
      ListedIds(United(front), front);
      UnionFirsts(United(front), z, c, s, known, t);
      FirstsOfConcat(front, [z], c, known);
      FirstsOfOne(z, c, known + IdsOf(front));
      AtInstantOfConcat(Firsts(front, c, known), Firsts([z], c, known + IdsOf(front)), t);
    }
  }

  /** The new events of the chains from `i` up to `j` are united in the time order of those that end up at one instant. */
  ghost predicate BlockInTime(fss: seq<seq<Fact>>, c: seq<Fact>, i: nat, j: nat)
    requires i < j <= |fss|
  {
    NoOvertaking(Minus(United(fss[i..j]), IdsOf(fss[..i])), c)
  }

  /** Lists of the latest versions that come to the same at an instant are both in time order or both not. */
  lemma InTimeAlike(u: seq<Fact>, v: seq<Fact>, s: set<Fact>, c: seq<Fact>, known: set<string>, t: Time)
    requires ListsLatest(u, s) && ListsLatest(v, s)
    requires AtInstant(Minus(Settled(u, c), known), t) == AtInstant(Minus(Settled(v, c), known), t)
    ensures InTimeAt(Minus(u, known), Ends(c), t) <==> InTimeAt(Minus(v, known), Ends(c), t)
  {
    var p, q := Minus(u, known), Minus(v, known);
    var d, e := Landing(p, Ends(c), t), Landing(q, Ends(c), t);
    SettledOfMinus(u, known, c);
    SettledOfMinus(v, known, c);
    SettledAtInstant(p, c, t);
    SettledAtInstant(q, c, t);
    assert |d| == |Settled(d, c)| == |Settled(e, c)| == |e|;
    forall k | 0 <= k < |d| ensures d[k].ts == e[k].ts {
      assert Settled(d, c)[k].body.id == d[k].body.id && Settled(e, c)[k].body.id == e[k].body.id;
      LandingSelects(p, Ends(c), t, d[k]);
      LandingSelects(q, Ends(c), t, e[k]);
      MinusSelects(u, known, d[k]);
      MinusSelects(v, known, e[k]);
      LatestTogether(s, d[k], e[k]);
    }
    LandingSortedIff(p, Ends(c), t);
    LandingSortedIff(q, Ends(c), t);
    SameTimesSorted(d, e);
  }

  lemma SameTimesSorted(d: seq<Fact>, e: seq<Fact>)
    requires |d| == |e| && forall k :: 0 <= k < |d| ==> d[k].ts == e[k].ts
    ensures SortedBy(d, Earlier) <==> SortedBy(e, Earlier)
  {
    if SortedBy(d, Earlier) { forall i, j | 0 <= i < j < |e| ensures Earlier(e[i], e[j]) { assert Earlier(d[i], d[j]); } }
    if SortedBy(e, Earlier) { forall i, j | 0 <= i < j < |d| ensures Earlier(d[i], d[j]) { assert Earlier(e[i], e[j]); } }
  }

  /** What is new in the last chains has its last version there. */
  lemma LastBlockInTime(fss: seq<seq<Fact>>, c: seq<Fact>, i: nat, w: seq<Fact>, t: Time)
    requires Setting(fss, c) && i <= |fss| && ListsLatest(w, Gathered(fss[i..]))
    ensures InTimeAt(Minus(w, IdsOf(fss[..i])), Ends(c), t)
  {
    var known, m := IdsOf(fss[..i]), Minus(w, IdsOf(fss[..i]));
    assert fss == fss[..i] + fss[i..];
    GatheredOfConcat(fss[..i], fss[i..]);
    forall k | 0 <= k < |m| ensures Version(m[k], c).ts == m[k].ts {
      MinusSelects(w, known, m[k]);
      assert Latest(Gathered(fss[i..]), m[k]);
      forall g | g in Gathered(fss) && g.body.id == m[k].body.id ensures g.ts <= m[k].ts { IdsOfGathered(fss[..i], g); }
      LastVersion(c, Gathered(fss), m[k]);
      LatestTogether(Gathered(fss), m[k], Version(m[k], c));
    }
  }

  // ----- trees -----

  /** All blocks inside the chains from `lo` up to `hi` that do not reach the end are united in time order. */
  ghost predicate BlocksInTime(fss: seq<seq<Fact>>, c: seq<Fact>, lo: nat, hi: nat) {
    forall i, j :: lo <= i && i + 2 <= j <= hi && j < |fss| ==> BlockInTime(fss, c, i, j)
  }

  ghost predicate ComesTo(e: seq<Fact>, fss: seq<seq<Fact>>, c: seq<Fact>, known: set<string>, t: Time) {
    AtInstant(Minus(Settled(e, c), known), t) == AtInstant(Firsts(fss, c, known), t)
  }

  lemma IdsOfPrefix(fss: seq<seq<Fact>>, i: nat, k: nat)
    requires i <= k <= |fss|
    ensures IdsOf(fss[..k]) == IdsOf(fss[..i]) + IdsOf(fss[i..k])
  {
    assert fss[..k] == fss[..i] + fss[i..k];
    IdsOfConcat(fss[..i], fss[i..k]);
  }

  lemma JoinComesTo(p: seq<seq<Fact>>, q: seq<seq<Fact>>, c: seq<Fact>, s: set<Fact>, a: seq<Fact>, b: seq<Fact>, known: set<string>, t: Time)
    requires ListsLatest(c, s) && Gathered(p) <= s && Gathered(q) <= s && ListsLatest(a, Gathered(p)) && ListsLatest(b, Gathered(q))
    requires ComesTo(a, p, c, known, t) && ComesTo(b, q, c, known + IdsOf(p), t)
    ensures ComesTo(UnionById(a, b), p + q, c, known, t)
  {
    ListedIn(a, Gathered(p));
    ListedIn(b, Gathered(q));
    ListedIds(a, p);
    UnionFirsts(a, b, c, s, known, t);
    FirstsOfConcat(p, q, c, known);
    AtInstantOfConcat(Firsts(p, c, known), Firsts(q, c, known + IdsOf(p)), t);
  }

  lemma NodeLists(fss: seq<seq<Fact>>, a: seq<Fact>, b: seq<Fact>, i: nat, k: nat, j: nat)
    requires i <= k <= j <= |fss| && ListsLatest(a, Gathered(fss[i..k])) && ListsLatest(b, Gathered(fss[k..j]))
    ensures fss[i..j] == fss[i..k] + fss[k..j]
    ensures ListsLatest(MergeFacts(a, b), Gathered(fss[i..j])) && ListsLatest(UnionById(a, b), Gathered(fss[i..j]))
  {
    assert fss[i..j] == fss[i..k] + fss[k..j];
    GatheredOfConcat(fss[i..k], fss[k..j]);
    MergeListsLatest(a, b, Gathered(fss[i..k]), Gathered(fss[k..j]));
  }

  /** Merging two neighbouring blocks that come to the order of first appearance. */
  lemma NodeComesTo(fss: seq<seq<Fact>>, c: seq<Fact>, a: seq<Fact>, b: seq<Fact>, i: nat, k: nat, j: nat, t: Time)
    requires Setting(fss, c) && i < k < j <= |fss|
    requires ListsLatest(a, Gathered(fss[i..k])) && ListsLatest(b, Gathered(fss[k..j]))
    requires ComesTo(a, fss[i..k], c, IdsOf(fss[..i]), t) && ComesTo(b, fss[k..j], c, IdsOf(fss[..k]), t)
    ensures ComesTo(UnionById(a, b), fss[i..j], c, IdsOf(fss[..i]), t) && ListsLatest(UnionById(a, b), Gathered(fss[i..j]))
  {
    BlockHolds(fss, i, k);
    BlockHolds(fss, k, j);
    IdsOfPrefix(fss, i, k);
    JoinComesTo(fss[i..k], fss[k..j], c, Gathered(fss), a, b, IdsOf(fss[..i]), t);
    NodeLists(fss, a, b, i, k, j);
  }

  lemma NodeInTimeIff(fss: seq<seq<Fact>>, c: seq<Fact>, w: seq<Fact>, i: nat, j: nat, t: Time)
    requires Setting(fss, c) && i < j <= |fss| && ListsLatest(w, Gathered(fss[i..j])) && ComesTo(w, fss[i..j], c, IdsOf(fss[..i]), t)
    ensures ComesTo(SortBy(w, Earlier), fss[i..j], c, IdsOf(fss[..i]), t) <==> InTimeAt(Minus(United(fss[i..j]), IdsOf(fss[..i])), Ends(c), t)
  {
    var known, block := IdsOf(fss[..i]), fss[i..j];
    BlockHolds(fss, i, j);
    UnitedHolds(block);
    UnitedFirsts(block, c, Gathered(fss), known, t);
    InTimeAlike(w, United(block), Gathered(block), c, known, t);
    MergeFirstsIff(w, c, known, t);
  }

  lemma LeavesOfBlock(l: MergeTree, r: MergeTree, fss: seq<seq<Fact>>, i: nat, j: nat) returns (k: nat)
    requires i <= j <= |fss| && Leaves(Node(l, r)) == fss[i..j]
    ensures i < k < j && Leaves(l) == fss[i..k] && Leaves(r) == fss[k..j]
  {
    k := i + |Leaves(l)|;
    assert Leaves(l) + Leaves(r) == fss[i..j];
    assert Leaves(l) == fss[i..j][..k - i] == fss[i..k];
    assert Leaves(r) == fss[i..j][k - i..] == fss[k..j];
  }

  lemma TreeOfBlock(t: MergeTree, fss: seq<seq<Fact>>, i: nat, j: nat)
    requires AllDistinct(fss) && i <= j <= |fss| && Leaves(t) == fss[i..j]
    ensures ListsLatest(Eval(t), Gathered(fss[i..j]))
  {
    BlockHolds(fss, i, j);
    LeavesDistinct(t);
    LeavesHold(t);
    EvalListsLatest(t);
  }

  /** When the blocks are in time order, any tree over neighbouring chains comes to the order of first appearance. */
  lemma {:induction false} TreeComesTo(fss: seq<seq<Fact>>, c: seq<Fact>, t: MergeTree, i: nat, j: nat, at: Time)
    requires Setting(fss, c) && i <= j <= |fss| && Leaves(t) == fss[i..j] && BlocksInTime(fss, c, i, j)
    ensures ComesTo(Eval(t), fss[i..j], c, IdsOf(fss[..i]), at)
    decreases t
  {
    match t
    case Leaf(fs) =>
      FirstsOfOne(fs, c, IdsOf(fss[..i]));
    case Node(l, r) =>
      var k := LeavesOfBlock(l, r, fss, i, j);
      TreeComesTo(fss, c, l, i, k, at);
      TreeComesTo(fss, c, r, k, j, at);
      TreeOfBlock(l, fss, i, k);
      TreeOfBlock(r, fss, k, j);
      var w := UnionById(Eval(l), Eval(r));
      NodeComesTo(fss, c, Eval(l), Eval(r), i, k, j, at);
      NodeInTimeIff(fss, c, w, i, j, at);
      BlockReady(fss, c, i, j, at);
  }

  lemma BlockReady(fss: seq<seq<Fact>>, c: seq<Fact>, i: nat, j: nat, t: Time)
    requires Setting(fss, c) && i + 2 <= j <= |fss| && (j < |fss| ==> BlockInTime(fss, c, i, j))
    ensures InTimeAt(Minus(United(fss[i..j]), IdsOf(fss[..i])), Ends(c), t)
  {
    if j < |fss| {
      NoOvertakingIff(Minus(United(fss[i..j]), IdsOf(fss[..i])), c);
    } else {
      assert fss[i..j] == fss[i..];
      BlockHolds(fss, i, j);
      UnitedHolds(fss[i..]);
      LastBlockInTime(fss, c, i, United(fss[i..]), t);
    }
  }

  // ----- every bracketing -----

  /** Every bracketing of the chains, in this order, gives what `merge_event_chains` gives. */
  ghost predicate AnyBracketing(fss: seq<seq<Fact>>)
    requires fss != []
  {
    forall t :: Leaves(t) == fss ==> Eval(t) == FoldFacts(fss)
  }

  /** The version of `f` that is left after all the chains. */
  function VersionThrough(f: Fact, fss: seq<seq<Fact>>): Fact
    decreases |fss|
  {
    if fss == [] then f else VersionThrough(Version(f, fss[0]), fss[1..])
  }

  lemma {:induction false} ThroughConcat(f: Fact, fss: seq<seq<Fact>>, gss: seq<seq<Fact>>)
    ensures VersionThrough(f, fss + gss) == VersionThrough(VersionThrough(f, fss), gss)
    decreases |fss|
  {
    if fss == [] {
      assert fss + gss == gss;
    } else {
      ThroughConcat(Version(f, fss[0]), fss[1..], gss);
      assert (fss + gss)[1..] == fss[1..] + gss;
    }
  }

  lemma ThroughOne(f: Fact, fs: seq<Fact>)
    ensures VersionThrough(f, [fs]) == Version(f, fs)
  {
    assert [fs][1..] == [];
  }

  /** Which version of an event survives does not depend on the bracketing. */
  lemma {:induction false} VersionOfTree(f: Fact, t: MergeTree)
    requires DistinctLeaves(t)
    ensures Version(f, Eval(t)) == VersionThrough(f, Leaves(t))
    decreases t
  {
    match t
    case Leaf(fs) =>
      ThroughOne(f, fs);
    case Node(l, r) =>
      EvalListsLatest(l);
      EvalListsLatest(r);
      assert Eval(t) == MergeFacts(Eval(l), Eval(r)) && Leaves(t) == Leaves(l) + Leaves(r);
      VersionOfMerge(f, Eval(l), Eval(r));
      VersionOfTree(f, l);
      VersionOfTree(Version(f, Eval(l)), r);
      ThroughConcat(f, Leaves(l), Leaves(r));
  }

  lemma FoldIsSetting(fss: seq<seq<Fact>>)
    requires fss != [] && AllDistinct(fss)
    ensures Setting(fss, FoldFacts(fss))
  {
    FoldListsLatest(fss);
  }

  lemma SettledTree(fss: seq<seq<Fact>>, t: MergeTree)
    requires fss != [] && AllDistinct(fss) && Leaves(t) == fss
    ensures Settled(Eval(t), FoldFacts(fss)) == Eval(t)
  {
    var e, c := Eval(t), FoldFacts(fss);
    LeavesDistinct(t);
    EvalListsLatest(t);
    TreeOfFold(fss);
    FoldIsTree(fss);
    forall k | 0 <= k < |e| ensures Version(e[k], c) == e[k] {
      VersionOfTree(e[k], t);
      VersionOfTree(e[k], LeftTree(fss));
      VersionOfOnly(e[k], e, e[k]);
    }
  }

  lemma WholeTreeAt(fss: seq<seq<Fact>>, t: MergeTree, at: Time)
    requires fss != [] && AllDistinct(fss) && Leaves(t) == fss
    ensures AtInstant(Eval(t), at) == AtInstant(Minus(Settled(Eval(t), FoldFacts(fss)), {}), at)
  {
    SettledTree(fss, t);
    MinusOfNone(Eval(t), {});
  }

  lemma InTimeMeansAnyBracketing(fss: seq<seq<Fact>>, t: MergeTree)
    requires |fss| > 1 && AllDistinct(fss) && BlocksInTime(fss, FoldFacts(fss), 0, |fss|) && Leaves(t) == fss
    ensures Eval(t) == FoldFacts(fss)
  {
    var c, u := FoldFacts(fss), LeftTree(fss);
    FoldIsSetting(fss);
    TreeOfFold(fss);
    assert fss[0..|fss|] == fss && fss[..0] == [];
    forall at ensures AtInstant(Eval(t), at) == AtInstant(c, at) {
      TreeComesTo(fss, c, t, 0, |fss|, at);
      TreeComesTo(fss, c, u, 0, |fss|, at);
      WholeTreeAt(fss, t, at);
      WholeTreeAt(fss, u, at);
    }
    NodeIsSorted(t);
    NodeIsSorted(u);
    SlicesDetermineSorted(Eval(t), c);
  }

  // ----- a block out of time order tells two bracketings apart -----

  function RightTree(fss: seq<seq<Fact>>): MergeTree
    requires fss != []
  {
    if |fss| == 1 then Leaf(fss[0]) else Node(Leaf(fss[0]), RightTree(fss[1..]))
  }

  lemma {:induction false} LeavesOfRight(fss: seq<seq<Fact>>)
    requires fss != []
    ensures Leaves(RightTree(fss)) == fss
  {
    if |fss| > 1 { LeavesOfRight(fss[1..]); }
  }

  /** A merge that takes in all the later chains keeps what both sides list at an instant. */
  lemma LastNode(fss: seq<seq<Fact>>, c: seq<Fact>, a: seq<Fact>, b: seq<Fact>, i: nat, k: nat, t: Time)
    requires Setting(fss, c) && i <= k <= |fss| && ListsLatest(a, Gathered(fss[i..k])) && ListsLatest(b, Gathered(fss[k..]))
    ensures AtInstant(Minus(Settled(MergeFacts(a, b), c), IdsOf(fss[..i])), t) ==
            AtInstant(Minus(Settled(a, c), IdsOf(fss[..i])), t) + AtInstant(Minus(Settled(b, c), IdsOf(fss[..k])), t)
  {
    var w, known := UnionById(a, b), IdsOf(fss[..i]);
    assert fss[k..] == fss[k..|fss|] && fss[i..] == fss[i..|fss|];
    BlockHolds(fss, i, k);
    BlockHolds(fss, k, |fss|);
    ListedIn(a, Gathered(fss[i..k]));
    ListedIn(b, Gathered(fss[k..]));
    ListedIds(a, fss[i..k]);
    IdsOfPrefix(fss, i, k);
    UnionFirsts(a, b, c, Gathered(fss), known, t);
    NodeLists(fss, a, b, i, k, |fss|);
    LastBlockInTime(fss, c, i, w, t);
    MergeFirstsIff(w, c, known, t);
  }

  lemma CutFirst(fss: seq<seq<Fact>>, i: nat)
    requires i < |fss|
    ensures fss[i..] == [fss[i]] + fss[i + 1..] && fss[i..i + 1] == [fss[i]]
    ensures IdsOf(fss[..i + 1]) == IdsOf(fss[..i]) + IdsOf([fss[i]])
  {
    IdsOfPrefix(fss, i, i + 1);
  }

  lemma RightOfCons(first: seq<Fact>, rest: seq<seq<Fact>>)
    ensures Eval(RightTree([first] + rest)) == if rest == [] then first else MergeFacts(first, Eval(RightTree(rest)))
  {
    assert ([first] + rest)[1..] == rest;
  }

  lemma {:induction false} RightComesTo(fss: seq<seq<Fact>>, c: seq<Fact>, i: nat, t: Time)
    requires Setting(fss, c) && i < |fss|
    ensures ComesTo(Eval(RightTree(fss[i..])), fss[i..], c, IdsOf(fss[..i]), t)
    decreases |fss| - i
  {
    var first, rest := fss[i], fss[i + 1..];
    CutFirst(fss, i);
    RightOfCons(first, rest);
    FirstsOfOne(first, c, IdsOf(fss[..i]));
    if rest != [] {
      RightComesTo(fss, c, i + 1, t);
      GatheredOfOne(first);
      ChainListsLatest(first);
      RightLists(fss, i + 1);
      LastNode(fss, c, first, Eval(RightTree(rest)), i, i + 1, t);
      FirstsOfConcat([first], rest, c, IdsOf(fss[..i]));
      AtInstantOfConcat(Firsts([first], c, IdsOf(fss[..i])), Firsts(rest, c, IdsOf(fss[..i + 1])), t);
    }
  }

  lemma RightLists(fss: seq<seq<Fact>>, i: nat)
    requires AllDistinct(fss) && i < |fss|
    ensures ListsLatest(Eval(RightTree(fss[i..])), Gathered(fss[i..]))
  {
    LeavesOfRight(fss[i..]);
    assert fss[i..] == fss[i..|fss|];
    TreeOfBlock(RightTree(fss[i..]), fss, i, |fss|);
  }

  lemma BehindLeaves(p: MergeTree, x: MergeTree, fss: seq<seq<Fact>>, i: nat)
    requires i <= |fss| && Leaves(p) == fss[..i] && Leaves(x) == fss[i..]
    ensures Leaves(Node(p, x)) == fss && fss[0..i] == fss[..i] && fss[i..|fss|] == fss[i..]
  {
    assert fss == fss[..i] + fss[i..];
  }

  lemma BehindPrefixAt(fss: seq<seq<Fact>>, p: MergeTree, x: MergeTree, i: nat, t: Time)
    requires AllDistinct(fss) && 0 < i < |fss| && Leaves(p) == fss[..i] && Leaves(x) == fss[i..]
    ensures AtInstant(Minus(Settled(Eval(Node(p, x)), FoldFacts(fss)), {}), t) ==
            AtInstant(Minus(Settled(Eval(p), FoldFacts(fss)), {}), t) + AtInstant(Minus(Settled(Eval(x), FoldFacts(fss)), IdsOf(fss[..i])), t)
  {
    BehindLeaves(p, x, fss, i);
    FoldIsSetting(fss);
    TreeOfBlock(p, fss, 0, i);
    TreeOfBlock(x, fss, i, |fss|);
    LastNode(fss, FoldFacts(fss), Eval(p), Eval(x), 0, i, t);
    assert fss[..0] == [];
  }

  /** Two trees over the chains from `i` on, put behind the same merge of the chains before, come to the same. */
  lemma SameBehindPrefix(fss: seq<seq<Fact>>, x: MergeTree, y: MergeTree, i: nat, t: Time)
    requires AllDistinct(fss) && i < |fss| && AnyBracketing(fss) && Leaves(x) == fss[i..] && Leaves(y) == fss[i..]
    ensures AtInstant(Minus(Settled(Eval(x), FoldFacts(fss)), IdsOf(fss[..i])), t) ==
            AtInstant(Minus(Settled(Eval(y), FoldFacts(fss)), IdsOf(fss[..i])), t)
  {
    var c := FoldFacts(fss);
    if i == 0 {
      assert fss[0..] == fss;
    } else {
      var p := LeftTree(fss[..i]);
      TreeOfFold(fss[..i]);
      BehindLeaves(p, x, fss, i);
      BehindLeaves(p, y, fss, i);
      BehindPrefixAt(fss, p, x, i, t);
      BehindPrefixAt(fss, p, y, i, t);
      SameBacks(AtInstant(Minus(Settled(Eval(p), c), {}), t), AtInstant(Minus(Settled(Eval(x), c), IdsOf(fss[..i])), t),
                AtInstant(Minus(Settled(Eval(y), c), IdsOf(fss[..i])), t));
    }
  }

  lemma SameBacks(x: seq<Fact>, y: seq<Fact>, z: seq<Fact>)
    requires x + y == x + z
    ensures y == z
  {
    assert y == (x + y)[|x|..] && z == (x + z)[|x|..];
  }

  /** A block merged on its own, and then with a right-nested rest. */
  lemma BlockThenRest(fss: seq<seq<Fact>>, b: MergeTree, i: nat, j: nat, t: Time)
    requires AllDistinct(fss) && i < j < |fss| && Leaves(b) == fss[i..j]
    ensures var c, known := FoldFacts(fss), IdsOf(fss[..i]);
      AtInstant(Minus(Settled(Eval(Node(b, RightTree(fss[j..]))), c), known), t) ==
        AtInstant(Minus(Settled(Eval(b), c), known), t) + AtInstant(Firsts(fss[j..], c, IdsOf(fss[..j])), t)
  {
    FoldIsSetting(fss);
    TreeOfBlock(b, fss, i, j);
    RightLists(fss, j);
    LastNode(fss, FoldFacts(fss), Eval(b), Eval(RightTree(fss[j..])), i, j, t);
    RightComesTo(fss, FoldFacts(fss), j, t);
  }

  lemma FirstsSplitAt(fss: seq<seq<Fact>>, c: seq<Fact>, i: nat, j: nat, t: Time)
    requires i <= j <= |fss|
    ensures fss[i..] == fss[i..j] + fss[j..]
    ensures AtInstant(Firsts(fss[i..], c, IdsOf(fss[..i])), t) ==
            AtInstant(Firsts(fss[i..j], c, IdsOf(fss[..i])), t) + AtInstant(Firsts(fss[j..], c, IdsOf(fss[..j])), t)
  {
    assert fss[i..] == fss[i..j] + fss[j..];
    FirstsOfConcat(fss[i..j], fss[j..], c, IdsOf(fss[..i]));
    IdsOfPrefix(fss, i, j);
    AtInstantOfConcat(Firsts(fss[i..j], c, IdsOf(fss[..i])), Firsts(fss[j..], c, IdsOf(fss[..j])), t);
  }

  /** A block merged on its own comes to the order of first appearance, when bracketing does not matter. */
  lemma BlockComesTo(fss: seq<seq<Fact>>, b: MergeTree, i: nat, j: nat, t: Time)
    requires AllDistinct(fss) && i < j < |fss| && AnyBracketing(fss) && Leaves(b) == fss[i..j]
    ensures ComesTo(Eval(b), fss[i..j], FoldFacts(fss), IdsOf(fss[..i]), t)
  {
    var c, known := FoldFacts(fss), IdsOf(fss[..i]);
    FoldIsSetting(fss);
    LeavesOfRight(fss[j..]);
    LeavesOfRight(fss[i..]);
    FirstsSplitAt(fss, c, i, j, t);
    SameBehindPrefix(fss, Node(b, RightTree(fss[j..])), RightTree(fss[i..]), i, t);
    BlockThenRest(fss, b, i, j, t);
    RightComesTo(fss, c, i, t);
    SameFronts(AtInstant(Minus(Settled(Eval(b), c), known), t), AtInstant(Firsts(fss[i..j], c, known), t),
               AtInstant(Firsts(fss[j..], c, IdsOf(fss[..j])), t));
  }

  lemma SomeTree(fss: seq<seq<Fact>>) returns (t: MergeTree)
    requires fss != []
    ensures Leaves(t) == fss
  {
    TreeOfFold(fss);
    t := LeftTree(fss);
  }

  lemma {:induction false} BlockMustBeInTime(fss: seq<seq<Fact>>, i: nat, j: nat)
    requires AllDistinct(fss) && i + 2 <= j < |fss| && AnyBracketing(fss)
    ensures BlockInTime(fss, FoldFacts(fss), i, j)
    decreases j - i
  {
    var c := FoldFacts(fss);
    var l := SomeTree(fss[i..j - 1]);
    var r := SomeTree(fss[j - 1..j]);
    forall a, b | i <= a && a + 2 <= b <= j - 1 && b < |fss| ensures BlockInTime(fss, c, a, b) { BlockMustBeInTime(fss, a, b); }
    forall t ensures InTimeAt(Minus(United(fss[i..j]), IdsOf(fss[..i])), Ends(c), t) { TwoPartsInTime(fss, l, r, i, j - 1, j, t); }
    NoOvertakingIff(Minus(United(fss[i..j]), IdsOf(fss[..i])), c);
  }

  lemma TwoPartsInTime(fss: seq<seq<Fact>>, l: MergeTree, r: MergeTree, i: nat, k: nat, j: nat, t: Time)
    requires AllDistinct(fss) && i < k < j < |fss| && AnyBracketing(fss) && Leaves(l) == fss[i..k] && Leaves(r) == fss[k..j]
    requires BlocksInTime(fss, FoldFacts(fss), i, k) && BlocksInTime(fss, FoldFacts(fss), k, j)
    ensures InTimeAt(Minus(United(fss[i..j]), IdsOf(fss[..i])), Ends(FoldFacts(fss)), t)
  {
    FoldIsSetting(fss);
    assert fss[i..j] == fss[i..k] + fss[k..j];
    assert Leaves(Node(l, r)) == fss[i..j];
    BlockComesTo(fss, Node(l, r), i, j, t);
    InTimeWhenItComes(fss, FoldFacts(fss), l, r, i, k, j, t);
  }

  lemma InTimeWhenItComes(fss: seq<seq<Fact>>, c: seq<Fact>, l: MergeTree, r: MergeTree, i: nat, k: nat, j: nat, t: Time)
    requires Setting(fss, c) && i < k < j <= |fss| && Leaves(l) == fss[i..k] && Leaves(r) == fss[k..j]
    requires BlocksInTime(fss, c, i, k) && BlocksInTime(fss, c, k, j)
    requires ComesTo(Eval(Node(l, r)), fss[i..j], c, IdsOf(fss[..i]), t)
    ensures InTimeAt(Minus(United(fss[i..j]), IdsOf(fss[..i])), Ends(c), t)
  {
    PartsComeTo(fss, c, l, r, i, k, j, t);
    assert Eval(Node(l, r)) == SortBy(UnionById(Eval(l), Eval(r)), Earlier);
    NodeInTimeIff(fss, c, UnionById(Eval(l), Eval(r)), i, j, t);
  }

  /** The union of two trees over neighbouring blocks, each united in time order. */
  lemma PartsComeTo(fss: seq<seq<Fact>>, c: seq<Fact>, l: MergeTree, r: MergeTree, i: nat, k: nat, j: nat, t: Time)
    requires Setting(fss, c) && i < k < j <= |fss| && Leaves(l) == fss[i..k] && Leaves(r) == fss[k..j]
    requires BlocksInTime(fss, c, i, k) && BlocksInTime(fss, c, k, j)
    ensures ComesTo(UnionById(Eval(l), Eval(r)), fss[i..j], c, IdsOf(fss[..i]), t)
    ensures ListsLatest(UnionById(Eval(l), Eval(r)), Gathered(fss[i..j]))
  {
    TreeComesTo(fss, c, l, i, k, t);
    TreeComesTo(fss, c, r, k, j, t);
    TreeOfBlock(l, fss, i, k);
    TreeOfBlock(r, fss, k, j);
    NodeComesTo(fss, c, Eval(l), Eval(r), i, k, j, t);
  }

  /** Any number of chains in a fixed order: every bracketing gives the result of `merge_event_chains` exactly when, for every
      block of neighbouring chains that leaves some later chain out, no two of the events that first appear in the block and
      end up at one instant stand out of time order in the union of the block. */
  lemma AnyBracketingIff(fss: seq<seq<Fact>>)
    requires |fss| > 1 && AllDistinct(fss)
    ensures AnyBracketing(fss) <==>
            forall i, j :: 0 <= i && i + 2 <= j < |fss| ==> NoOvertaking(Minus(United(fss[i..j]), IdsOf(fss[..i])), FoldFacts(fss))
  {
    var c := FoldFacts(fss);
    if AnyBracketing(fss) {
      forall i, j | 0 <= i && i + 2 <= j < |fss| ensures NoOvertaking(Minus(United(fss[i..j]), IdsOf(fss[..i])), c) {
        BlockMustBeInTime(fss, i, j);
      }
    }
    if forall i, j :: 0 <= i && i + 2 <= j < |fss| ==> NoOvertaking(Minus(United(fss[i..j]), IdsOf(fss[..i])), c) {
      forall t | Leaves(t) == fss ensures Eval(t) == c { InTimeMeansAnyBracketing(fss, t); }
    }
  }

  /** However chains that agree on shared events are bracketed, ties included, the result is that of `merge_event_chains`
      on them in the same order. */
  lemma BracketingIsIrrelevant(fss: seq<seq<Fact>>)
    requires |fss| > 1 && AllDistinct(fss) && OneVersion(Gathered(fss))
    ensures AnyBracketing(fss)
  {
    var c := FoldFacts(fss);
    FoldIsSetting(fss);
    ListedIn(c, Gathered(fss));
    forall i, j | 0 <= i && i + 2 <= j < |fss| ensures NoOvertaking(Minus(United(fss[i..j]), IdsOf(fss[..i])), c) {
      BlockAgrees(fss, c, i, j);
    }
    AnyBracketingIff(fss);
  }

  lemma BlockAgrees(fss: seq<seq<Fact>>, c: seq<Fact>, i: nat, j: nat)
    requires AllDistinct(fss) && OneVersion(Gathered(fss)) && Set(c) <= Gathered(fss) && i < j <= |fss|
    ensures NoOvertaking(Minus(United(fss[i..j]), IdsOf(fss[..i])), c)
  {
    var w, known := United(fss[i..j]), IdsOf(fss[..i]);
    BlockHolds(fss, i, j);
    UnitedHolds(fss[i..j]);
    ListedIn(w, Gathered(fss[i..j]));
    forall f | f in Minus(w, known) ensures Version(f, c) == f {
      MinusSelects(w, known, f);
      var v := Version(f, c);
      assert f in Set(w) && (v in c ==> v in Set(c));
    }
  }
}
