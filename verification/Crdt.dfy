/** Replica merge (adl_lite/crdt.py): union by event id with the later version winning, a stable sort by
    time, and re-anchoring. First the merge on facts, then its laws. */
module Crdt {
  import opened Basics
  import opened Events

  predicate Earlier(f: Fact, g: Fact) { f.ts <= g.ts }

  lemma EarlierIsTotalPreorder()
    ensures TotalPreorder(Earlier)
  {
  }

  // ----- the dictionary `event_map`, in insertion order -----

  function Find(d: seq<Fact>, id: string): (i: nat)
    ensures i <= |d|
    ensures i < |d| ==> d[i].body.id == id
    ensures forall k :: 0 <= k < i ==> d[k].body.id != id
  {
    if d == [] then 0 else if d[0].body.id == id then 0 else 1 + Find(d[1..], id)
  }

  /** `event_map[id] = event` */
  function Put(d: seq<Fact>, f: Fact): seq<Fact> {
    var i := Find(d, f.body.id);
    if i < |d| then d[i := f] else d + [f]
  }

  /** On a known id the later version wins, the newcomer on a tie. */
  function PutLater(d: seq<Fact>, f: Fact): seq<Fact> {
    var i := Find(d, f.body.id);
    if i < |d| && f.ts < d[i].ts then d else Put(d, f)
  }

  function PutAll(d: seq<Fact>, fs: seq<Fact>): seq<Fact> {
    if fs == [] then d else Put(PutAll(d, fs[..|fs| - 1]), fs[|fs| - 1])
  }

  function PutAllLater(d: seq<Fact>, fs: seq<Fact>): seq<Fact> {
    if fs == [] then d else PutLater(PutAllLater(d, fs[..|fs| - 1]), fs[|fs| - 1])
  }

  function UnionById(a: seq<Fact>, b: seq<Fact>): seq<Fact> { PutAllLater(PutAll([], a), b) }

  /** The merged facts in their final order. */
  function MergeFacts(a: seq<Fact>, b: seq<Fact>): seq<Fact> { SortBy(UnionById(a, b), Earlier) }

  // ----- what the union contains -----

  ghost predicate DistinctIds(fs: seq<Fact>) {
    forall i, j :: 0 <= i < j < |fs| ==> fs[i].body.id != fs[j].body.id
  }

  function Set(fs: seq<Fact>): set<Fact> { set f | f in fs }

  function FactIds(fs: seq<Fact>): set<string> { set f | f in fs :: f.body.id }

  /** Two versions of one event at one instant are the same. */
  ghost predicate TieConsistent(s: set<Fact>) {
    forall f, g :: f in s && g in s && f.body.id == g.body.id && f.ts == g.ts ==> f == g
  }

  ghost predicate Latest(s: set<Fact>, f: Fact) {
    f in s && forall g :: g in s && g.body.id == f.body.id ==> g.ts <= f.ts
  }

  /** The latest version of every event. */
  ghost function Winners(s: set<Fact>): set<Fact> { set f | f in s && Latest(s, f) }

  lemma PutFresh(d: seq<Fact>, f: Fact)
    requires DistinctIds(d)
    ensures DistinctIds(Put(d, f))
    ensures Find(d, f.body.id) == |d| ==> Set(Put(d, f)) == Set(d) + {f}
  {
    var i := Find(d, f.body.id);
    if i < |d| {
      var e := d[i := f];
      forall j, k | 0 <= j < k < |e| ensures e[j].body.id != e[k].body.id {
        assert d[j].body.id != d[k].body.id;
      }
    }
  }

  lemma SetAfterReplace(d: seq<Fact>, i: nat, f: Fact)
    requires DistinctIds(d) && i < |d| && d[i].body.id == f.body.id
    ensures Set(d[i := f]) == Set(d) - {d[i]} + {f}
  {
    var e := d[i := f];
    assert e[i] == f;
    forall g | g in Set(d) - {d[i]} ensures g in Set(e) {
      var k :| 0 <= k < |d| && d[k] == g;
      assert e[k] == g;
    }
    forall g | g in Set(e) ensures g in Set(d) - {d[i]} + {f} {
      var k :| 0 <= k < |e| && e[k] == g;
      if k != i { assert d[k] == g && d[k].body.id != d[i].body.id; }
    }
  }

  /** One step of the union: the winners of what has been seen so far. */
  lemma PutLaterKeepsWinners(d: seq<Fact>, s: set<Fact>, f: Fact)
    requires DistinctIds(d) && Set(d) == Winners(s) && TieConsistent(s + {f})
    ensures DistinctIds(PutLater(d, f)) && Set(PutLater(d, f)) == Winners(s + {f})
  {
    PutFresh(d, f);
    var i := Find(d, f.body.id);
    if i < |d| {
      assert d[i] in Set(d);
      SetAfterReplace(d, i, f);
      WinnersWithRival(s, f, d[i]);
    } else {
      WinnersWithNewId(d, s, f);
    }
  }

  lemma WinnersWithRival(s: set<Fact>, f: Fact, g: Fact)
    requires g in Winners(s) && g.body.id == f.body.id && TieConsistent(s + {f})
    ensures Winners(s + {f}) == if f.ts < g.ts then Winners(s) else Winners(s) - {g} + {f}
  {
    assert TieConsistent(s);
    forall h | h in Winners(s) && h.body.id == g.body.id ensures h == g {
      assert Latest(s, g) && Latest(s, h);
      assert h.ts == g.ts;
    }
  }

  lemma {:induction false} IdOfWinner(s: set<Fact>, f: Fact)
    requires f in s
    ensures exists g :: g in Winners(s) && g.body.id == f.body.id
    decreases s
  {
    if Latest(s, f) {
      assert f in Winners(s);
    } else {
      var g :| g in s && g.body.id == f.body.id && g.ts > f.ts;
      var rest := s - {f};
      IdOfWinner(rest, g);
      var h :| h in Winners(rest) && h.body.id == g.body.id;
      assert g.ts <= h.ts;
      assert Latest(s, h);
      assert h in Winners(s);
    }
  }

  lemma WinnersWithNewId(d: seq<Fact>, s: set<Fact>, f: Fact)
    requires Set(d) == Winners(s) && Find(d, f.body.id) == |d|
    ensures Winners(s + {f}) == Winners(s) + {f}
  {
    forall g | g in s ensures g.body.id != f.body.id {
      IdOfWinner(s, g);
      var h :| h in Winners(s) && h.body.id == g.body.id;
      assert h in Set(d);
      var k :| 0 <= k < |d| && d[k] == h;
    }
  }

  lemma {:induction false} PutAllLaterIsWinners(d: seq<Fact>, s: set<Fact>, fs: seq<Fact>)
    requires DistinctIds(d) && Set(d) == Winners(s) && TieConsistent(s + Set(fs))
    ensures DistinctIds(PutAllLater(d, fs)) && Set(PutAllLater(d, fs)) == Winners(s + Set(fs))
  {
    if fs == [] {
      assert s + Set(fs) == s;
    } else {
      var n := |fs| - 1;
      assert fs == fs[..n] + [fs[n]];
      assert Set(fs) == Set(fs[..n]) + {fs[n]};
      PutAllLaterIsWinners(d, s, fs[..n]);
      assert s + Set(fs) == (s + Set(fs[..n])) + {fs[n]};
      PutLaterKeepsWinners(PutAllLater(d, fs[..n]), s + Set(fs[..n]), fs[n]);
    }
  }

  lemma {:induction false} PutAllOfDistinct(fs: seq<Fact>)
    requires DistinctIds(fs)
    ensures PutAll([], fs) == fs
  {
    if fs == [] {
    } else {
      var n := |fs| - 1;
      PutAllOfDistinct(fs[..n]);
      assert fs == fs[..n] + [fs[n]];
      assert Find(fs[..n], fs[n].body.id) == n;
    }
  }

  lemma WinnersOfDistinct(fs: seq<Fact>)
    requires DistinctIds(fs)
    ensures Winners(Set(fs)) == Set(fs)
  {
    forall f | f in Set(fs) ensures Latest(Set(fs), f) {
      var i :| 0 <= i < |fs| && fs[i] == f;
      forall g | g in Set(fs) && g.body.id == f.body.id ensures g == f {
        var j :| 0 <= j < |fs| && fs[j] == g;
      }
    }
  }

  lemma {:induction false} UnionHasDistinctIds(a: seq<Fact>, b: seq<Fact>)
    ensures DistinctIds(PutAll([], a)) && DistinctIds(UnionById(a, b))
  {
    if b != [] {
      var n := |b| - 1;
      UnionHasDistinctIds(a, b[..n]);
      PutFresh(UnionById(a, b[..n]), b[n]);
    } else if a != [] {
      var n := |a| - 1;
      UnionHasDistinctIds(a[..n], []);
      PutFresh(PutAll([], a[..n]), a[n]);
    }
  }

  /** The merge keeps exactly the latest version of every event of either side, ordered by time. */
  lemma MergeIsWinners(a: seq<Fact>, b: seq<Fact>)
    requires DistinctIds(a) && TieConsistent(Set(a) + Set(b))
    ensures DistinctIds(MergeFacts(a, b)) && SortedBy(MergeFacts(a, b), Earlier)
    ensures Set(MergeFacts(a, b)) == Winners(Set(a) + Set(b))
  {
    PutAllOfDistinct(a);
    WinnersOfDistinct(a);
    PutAllLaterIsWinners(a, Set(a), b);
    EarlierIsTotalPreorder();
    SortSorts(UnionById(a, b), Earlier);
    SortedUnion(UnionById(a, b));
  }

  lemma SortedUnion(u: seq<Fact>)
    requires DistinctIds(u)
    ensures DistinctIds(SortBy(u, Earlier)) && Set(SortBy(u, Earlier)) == Set(u)
  {
    SortKeepsElements(u, Earlier);
    SameElementsSameSet(u, SortBy(u, Earlier));
    DistinctKeysRearranged(u, SortBy(u, Earlier), (f: Fact) => f.body.id);
  }

  lemma SameElementsSameSet(u: seq<Fact>, v: seq<Fact>)
    requires multiset(u) == multiset(v)
    ensures Set(u) == Set(v)
  {
    SameElements(u, v);
  }

  // ----- any bracketing and any permutation -----

  /** A way of merging some chains pairwise. */
  datatype MergeTree = Leaf(facts: seq<Fact>) | Node(left: MergeTree, right: MergeTree)

  function Eval(t: MergeTree): seq<Fact> {
    match t
    case Leaf(fs) => fs
    case Node(l, r) => MergeFacts(Eval(l), Eval(r))
  }

  function AllFacts(t: MergeTree): set<Fact> {
    match t
    case Leaf(fs) => Set(fs)
    case Node(l, r) => AllFacts(l) + AllFacts(r)
  }

  ghost predicate DistinctLeaves(t: MergeTree) {
    match t
    case Leaf(fs) => DistinctIds(fs)
    case Node(l, r) => DistinctLeaves(l) && DistinctLeaves(r)
  }

  lemma WinnersOfUnion(s: set<Fact>, t: set<Fact>)
    ensures Winners(Winners(s) + Winners(t)) == Winners(s + t)
  {
    var w := Winners(s) + Winners(t);
    forall f | f in Winners(w) ensures f in Winners(s + t) {
      forall g | g in s + t && g.body.id == f.body.id ensures g.ts <= f.ts {
        if g in s { IdOfLater(s, g); } else { IdOfLater(t, g); }
        var h :| h in w && h.body.id == g.body.id && g.ts <= h.ts;
      }
    }
    forall f | f in Winners(s + t) ensures f in Winners(w) {
      assert f in w by { if f in s { assert Latest(s, f); } else { assert Latest(t, f); } }
    }
  }

  lemma IdOfLater(s: set<Fact>, f: Fact)
    requires f in s
    ensures exists g :: g in Winners(s) && g.body.id == f.body.id && f.ts <= g.ts
  {
    IdOfWinner(s, f);
    var g :| g in Winners(s) && g.body.id == f.body.id;
    assert f.ts <= g.ts;
  }

  lemma {:induction false} EvalIsWinners(t: MergeTree)
    requires DistinctLeaves(t) && TieConsistent(AllFacts(t))
    ensures DistinctIds(Eval(t)) && Set(Eval(t)) == Winners(AllFacts(t))
    ensures t.Node? ==> SortedBy(Eval(t), Earlier)
  {
    match t
    case Leaf(fs) => WinnersOfDistinct(fs);
    case Node(l, r) =>
      EvalIsWinners(l);
      EvalIsWinners(r);
      MergeIsWinners(Eval(l), Eval(r));
      WinnersOfUnion(AllFacts(l), AllFacts(r));
  }

  lemma {:induction false} SameSetSameElements(u: seq<Fact>, v: seq<Fact>)
    requires DistinctIds(u) && DistinctIds(v) && Set(u) == Set(v)
    ensures multiset(u) == multiset(v)
  {
    forall f ensures multiset(u)[f] == multiset(v)[f] {
      assert f in u <==> f in Set(u);
      assert f in v <==> f in Set(v);
      assert f in multiset(u) <==> f in u;
      assert f in multiset(v) <==> f in v;
      if f in u {
        var k :| 0 <= k < |u| && u[k] == f;
        var l :| 0 <= l < |v| && v[l] == f;
        OnceByKey(u, k, (f: Fact) => f.body.id);
        OnceByKey(v, l, (f: Fact) => f.body.id);
      }
    }
  }

  // ----- N chains: the pairwise fold from the left -----

  function FoldFacts(fss: seq<seq<Fact>>): seq<Fact>
    requires fss != []
  {
    if |fss| == 1 then fss[0] else MergeFacts(FoldFacts(fss[..|fss| - 1]), fss[|fss| - 1])
  }

  function LeftTree(fss: seq<seq<Fact>>): MergeTree
    requires fss != []
  {
    if |fss| == 1 then Leaf(fss[0]) else Node(LeftTree(fss[..|fss| - 1]), Leaf(fss[|fss| - 1]))
  }

  function Gathered(fss: seq<seq<Fact>>): set<Fact> { set fs, f | fs in fss && f in fs :: f }

  lemma {:induction false} FoldIsTree(fss: seq<seq<Fact>>)
    requires fss != [] && forall i :: 0 <= i < |fss| ==> DistinctIds(fss[i])
    ensures Eval(LeftTree(fss)) == FoldFacts(fss) && DistinctLeaves(LeftTree(fss))
    ensures AllFacts(LeftTree(fss)) == Gathered(fss)
  {
    var n := |fss| - 1;
    TakeSnoc(fss, n);
    assert fss[..n + 1] == fss;
    if n > 0 {
      FoldIsTree(fss[..n]);
      assert Gathered(fss) == Gathered(fss[..n]) + Set(fss[n]) by {
        assert forall fs :: fs in fss <==> fs in fss[..n] || fs == fss[n];
      }
    } else {
      assert fss == [fss[0]];
    }
  }

  // ----- merging a chain with itself -----

  lemma {:induction false} PutAllLaterAgain(d: seq<Fact>, n: nat)
    requires DistinctIds(d) && n <= |d|
    ensures PutAllLater(d, d[..n]) == d
  {
    if n > 0 {
      assert d[..n][..n - 1] == d[..n - 1];
      PutAllLaterAgain(d, n - 1);
      assert Find(d, d[n - 1].body.id) == n - 1;
    }
  }

  /** Merging an append-built chain of distinct events with itself returns it unchanged, ties included. */
  lemma MergeIsIdempotent(H: Hasher, rs: seq<Record>)
    requires AppendBuilt(H, rs) && DistinctIds(Facts(rs))
    ensures AppendAll(H, [], MergeFacts(Facts(rs), Facts(rs))) == rs
  {
    var fs := Facts(rs);
    PutAllOfDistinct(fs);
    PutAllLaterAgain(fs, |fs|);
    assert fs[..|fs|] == fs;
    forall i, j | 0 <= i < j < |fs| ensures Earlier(fs[i], fs[j]) { BuiltIsTimeOrdered(H, rs, i, j); }
    SortOfSorted(fs, Earlier);
    Reappend(H, rs);
  }
}
