/** The order in which chains are merged (adl_lite/crdt.py): what a merge lists at each instant, ties of the stable sort
    included, and exactly when two chains commute. */
module CrdtLaws {
  import opened Basics
  import opened Events
  import opened Crdt

  // ----- what a stable sort lists at one instant -----

  /** The facts at one instant, in order. */
  function AtInstant(fs: seq<Fact>, t: Time): seq<Fact> {
    if fs == [] then []
    else (if fs[0].ts == t then [fs[0]] else []) + AtInstant(fs[1..], t)
  }

  lemma {:induction false} InsertIsStable(f: Fact, fs: seq<Fact>, t: Time)
    ensures AtInstant(Insert(f, fs, Earlier), t) == AtInstant([f] + fs, t)
  {
    assert ([f] + fs)[1..] == fs;
    if fs == [] || Earlier(f, fs[0]) {
    } else {
      InsertIsStable(f, fs[1..], t);
      assert ([f] + fs[1..])[1..] == fs[1..];
      assert Insert(f, fs, Earlier)[1..] == Insert(f, fs[1..], Earlier);
    }
  }

  /** The sort never reorders events of one instant. */
  lemma {:induction false} SortIsStable(fs: seq<Fact>, t: Time)
    ensures AtInstant(SortBy(fs, Earlier), t) == AtInstant(fs, t)
  {
    if fs == [] {
    } else {
      SortIsStable(fs[1..], t);
      var tail := SortBy(fs[1..], Earlier);
      InsertIsStable(fs[0], tail, t);
      assert ([fs[0]] + tail)[1..] == tail;
    }
  }

  lemma {:induction false} AtInstantOfConcat(a: seq<Fact>, b: seq<Fact>, t: Time)
    ensures AtInstant(a + b, t) == AtInstant(a, t) + AtInstant(b, t)
  {
    if a == [] {
      assert a + b == b;
    } else {
      AtInstantOfConcat(a[1..], b, t);
      assert (a + b)[1..] == a[1..] + b;
    }
  }

  lemma {:induction false} AtInstantSelects(fs: seq<Fact>, t: Time, f: Fact)
    ensures f in AtInstant(fs, t) <==> f in fs && f.ts == t
  {
    if fs == [] {
    } else {
      AtInstantSelects(fs[1..], t, f);
      assert fs == [fs[0]] + fs[1..];
    }
  }

  /** A time-ordered sequence is determined by what it lists at each instant. */
  lemma {:induction false} SlicesDetermineSorted(u: seq<Fact>, v: seq<Fact>)
    requires SortedBy(u, Earlier) && SortedBy(v, Earlier)
    requires forall t :: AtInstant(u, t) == AtInstant(v, t)
    ensures u == v
  {
    var first := if u != [] then u[0].ts else if v != [] then v[0].ts else 0;
    assert AtInstant(u, first) == AtInstant(v, first);
    if u == [] || v == [] {
    } else {
      assert AtInstant(u, u[0].ts) == AtInstant(v, u[0].ts);
      AtInstantSelects(v, u[0].ts, u[0]);
      AtInstantSelects(u, v[0].ts, v[0]);
      assert AtInstant(u, v[0].ts) == AtInstant(v, v[0].ts);
      assert u[0].ts == v[0].ts;
      assert u[0] == AtInstant(u, u[0].ts)[0] == AtInstant(v, v[0].ts)[0] == v[0];
      forall t ensures AtInstant(u[1..], t) == AtInstant(v[1..], t) {
        var pre := if u[0].ts == t then [u[0]] else [];
        assert AtInstant(u[1..], t) == AtInstant(u, t)[|pre|..];
        assert AtInstant(v[1..], t) == AtInstant(v, t)[|pre|..];
      }
      SlicesDetermineSorted(u[1..], v[1..]);
      assert u == [u[0]] + u[1..] && v == [v[0]] + v[1..];
    }
  }

  ghost predicate SameSlices(u: seq<Fact>, v: seq<Fact>) { forall t :: AtInstant(u, t) == AtInstant(v, t) }

  lemma SlicesOfSorted(u: seq<Fact>)
    ensures SameSlices(SortBy(u, Earlier), u) && SortedBy(SortBy(u, Earlier), Earlier)
  {
    EarlierIsTotalPreorder();
    SortSorts(u, Earlier);
    forall t ensures AtInstant(SortBy(u, Earlier), t) == AtInstant(u, t) { SortIsStable(u, t); }
  }

  /** Sorted arrangements are equal exactly when they list the same at every instant. */
  lemma SortedEqualIff(u: seq<Fact>, v: seq<Fact>)
    ensures SortBy(u, Earlier) == SortBy(v, Earlier) <==> SameSlices(u, v)
  {
    SlicesOfSorted(u);
    SlicesOfSorted(v);
    if SameSlices(u, v) {
      SlicesDetermineSorted(SortBy(u, Earlier), SortBy(v, Earlier));
    }
  }

  // ----- the union, list by list -----

  /** The facts with an id outside `known`, in order. */
  function Minus(fs: seq<Fact>, known: set<string>): seq<Fact> {
    if fs == [] then []
    else (if fs[0].body.id in known then [] else [fs[0]]) + Minus(fs[1..], known)
  }

  /** The version of `f` that a merge with `b` behind it keeps. */
  function Version(f: Fact, b: seq<Fact>): (g: Fact)
    ensures g.body.id == f.body.id && (g == f || g in b) && g.ts >= f.ts
  {
    var i := Find(b, f.body.id);
    if i < |b| && f.ts <= b[i].ts then b[i] else f
  }

  /** The events of `a` in the versions that survive a merge with `b` behind it. */
  function Settled(a: seq<Fact>, b: seq<Fact>): (s: seq<Fact>)
    ensures |s| == |a| && forall i :: 0 <= i < |a| ==> s[i] == Version(a[i], b)
  {
    seq(|a|, i requires 0 <= i < |a| => Version(a[i], b))
  }

  lemma MinusOfCons(fs: seq<Fact>, known: set<string>)
    requires fs != []
    ensures fs[0].body.id in known ==> Minus(fs, known) == Minus(fs[1..], known)
    ensures fs[0].body.id !in known ==> Minus(fs, known) == [fs[0]] + Minus(fs[1..], known)
  {
  }

  lemma {:induction false} MinusOfConcat(a: seq<Fact>, b: seq<Fact>, known: set<string>)
    ensures Minus(a + b, known) == Minus(a, known) + Minus(b, known)
  {
    if a == [] {
      assert a + b == b;
    } else {
      MinusOfConcat(a[1..], b, known);
      assert (a + b)[1..] == a[1..] + b;
      MinusOfCons(a, known);
      MinusOfCons(a + b, known);
    }
  }

  lemma {:induction false} MinusSelects(fs: seq<Fact>, known: set<string>, f: Fact)
    ensures f in Minus(fs, known) <==> f in fs && f.body.id !in known
  {
    if fs == [] {
    } else {
      MinusSelects(fs[1..], known, f);
      assert fs == [fs[0]] + fs[1..];
    }
  }

  lemma {:induction false} MinusTwice(fs: seq<Fact>, known: set<string>, more: set<string>)
    ensures Minus(Minus(fs, known), more) == Minus(fs, known + more)
  {
    if fs == [] {
    } else {
      MinusTwice(fs[1..], known, more);
      var first := if fs[0].body.id in known then [] else [fs[0]];
      MinusOfConcat(first, Minus(fs[1..], known), more);
    }
  }

  /** Taking ids away and looking at one instant can be done in either order. */
  lemma {:induction false} MinusAtInstant(fs: seq<Fact>, known: set<string>, t: Time)
    ensures AtInstant(Minus(fs, known), t) == Minus(AtInstant(fs, t), known)
  {
    if fs == [] {
    } else {
      MinusAtInstant(fs[1..], known, t);
      var kept := if fs[0].body.id in known then [] else [fs[0]];
      var here := if fs[0].ts == t then [fs[0]] else [];
      AtInstantOfConcat(kept, Minus(fs[1..], known), t);
      MinusOfConcat(here, AtInstant(fs[1..], t), known);
    }
  }

  /** The first position with the id is the only one there is to find. */
  lemma FindIs(d: seq<Fact>, id: string, i: nat)
    requires i <= |d| && (i < |d| ==> d[i].body.id == id) && forall k :: 0 <= k < i ==> d[k].body.id != id
    ensures Find(d, id) == i
  {
  }

  lemma FindSnoc(b: seq<Fact>, g: Fact, id: string)
    ensures Find(b + [g], id) == if Find(b, id) < |b| || g.body.id == id then Find(b, id) else |b| + 1
  {
    var bg := b + [g];
    assert forall k :: 0 <= k < |b| ==> bg[k] == b[k];
    assert bg[|b|] == g;
    FindIs(bg, id, if Find(b, id) < |b| || g.body.id == id then Find(b, id) else |b| + 1);
  }

  lemma FindIn(fs: seq<Fact>, f: Fact)
    requires f in fs
    ensures Find(fs, f.body.id) < |fs|
  {
    var k :| 0 <= k < |fs| && fs[k] == f;
  }

  lemma VersionSnoc(f: Fact, b: seq<Fact>, g: Fact)
    requires Find(b, g.body.id) == |b|
    ensures Version(f, b + [g]) == if g.body.id == f.body.id then Newer(f, g) else Version(f, b)
  {
    FindSnoc(b, g, f.body.id);
    var bg := b + [g];
    assert forall k :: 0 <= k < |b| ==> bg[k] == b[k];
    assert bg[|b|] == g;
  }

  function Newer(f: Fact, g: Fact): Fact { if f.ts <= g.ts then g else f }

  /** The dictionary after both loops: the events of `a` in their surviving versions, then what is new in `b`. */
  lemma {:induction false} UnionShape(a: seq<Fact>, b: seq<Fact>)
    requires DistinctIds(a) && DistinctIds(b)
    ensures UnionById(a, b) == Settled(a, b) + Minus(b, FactIds(a))
  {
    PutAllOfDistinct(a);
    if b == [] {
      assert Settled(a, b) == a;
    } else {
      var n := |b| - 1;
      assert b == b[..n] + [b[n]];
      UnionShape(a, b[..n]);
      MinusOfConcat(b[..n], [b[n]], FactIds(a));
      MinusOfOne(b[n], FactIds(a));
      if Find(a, b[n].body.id) < |a| {
        UnionStepKnown(a, b[..n], Minus(b[..n], FactIds(a)), b[n]);
      } else {
        UnionStepNew(a, b[..n], b[n]);
      }
    }
  }

  /** The last event listed under the id of `x` is `x`. */
  ghost predicate LastOfId(fs: seq<Fact>, x: Fact) {
    exists i :: 0 <= i < |fs| && fs[i] == x && forall j :: i < j < |fs| ==> fs[j].body.id != x.body.id
  }

  lemma LastOfIdSnoc(fs: seq<Fact>, f: Fact, x: Fact)
    ensures LastOfId(fs + [f], x) <==> x == f || (LastOfId(fs, x) && x.body.id != f.body.id)
  {
    var all := fs + [f];
    assert all[|fs|] == f && forall j :: 0 <= j < |fs| ==> all[j] == fs[j];
    if LastOfId(fs, x) && x.body.id != f.body.id {
      var i :| 0 <= i < |fs| && fs[i] == x && forall j :: i < j < |fs| ==> fs[j].body.id != x.body.id;
      assert all[i] == x;
    }
  }

  /** The dictionary holds the version listed last under each id. */
  lemma {:induction false} LastListedStays(fs: seq<Fact>, x: Fact)
    ensures x in PutAll([], fs) <==> LastOfId(fs, x)
  {
    if fs != [] {
      var n := |fs| - 1;
      LastListedStays(fs[..n], x);
      UnionHasDistinctIds(fs[..n], []);
      InAfterPut(PutAll([], fs[..n]), fs[n], x);
      LastOfIdSnoc(fs[..n], fs[n], x);
      assert fs == fs[..n] + [fs[n]];
    }
  }

  lemma InAfterPut(d: seq<Fact>, f: Fact, x: Fact)
    requires DistinctIds(d)
    ensures x in Put(d, f) <==> x == f || (x in d && x.body.id != f.body.id)
  {
    var i := Find(d, f.body.id);
    if i < |d| {
      assert d[i := f][i] == f;
      if x in d && x.body.id != f.body.id {
        var k :| 0 <= k < |d| && d[k] == x;
        assert d[i := f][k] == x;
      }
    }
  }

  /** A merge keeps an event of the first chain unless the second has a version of it that is at least as late, and an event of
      the second unless the first has a later version; and it holds nothing else. */
  lemma MergeKeepsIff(a: seq<Fact>, b: seq<Fact>, x: Fact)
    requires DistinctIds(a) && DistinctIds(b)
    ensures x in MergeFacts(a, b) <==>
              || (x in a && forall g :: g in b && g.body.id == x.body.id ==> g.ts < x.ts)
              || (x in b && forall f :: f in a && f.body.id == x.body.id ==> f.ts <= x.ts)
  {
    UnionShape(a, b);
    SortKeepsElements(UnionById(a, b), Earlier);
    SameElements(UnionById(a, b), MergeFacts(a, b));
    MinusSelects(b, FactIds(a), x);
    SettledIff(a, b, x);
  }

  lemma SettledIff(a: seq<Fact>, b: seq<Fact>, x: Fact)
    requires DistinctIds(a) && DistinctIds(b)
    ensures x in Settled(a, b) <==>
              || (x in a && forall g :: g in b && g.body.id == x.body.id ==> g.ts < x.ts)
              || (x in b && x.body.id in FactIds(a) && forall f :: f in a && f.body.id == x.body.id ==> f.ts <= x.ts)
  {
    if x in Settled(a, b) {
      var i :| 0 <= i < |a| && Settled(a, b)[i] == x;
      VersionIff(a[i], b, x);
      assert forall f :: f in a && f.body.id == x.body.id ==> f == a[i];
      assert a[i] in a;
    }
    if x in a && forall g :: g in b && g.body.id == x.body.id ==> g.ts < x.ts {
      var i :| 0 <= i < |a| && a[i] == x;
      VersionIff(x, b, x);
      assert Settled(a, b)[i] == x;
    }
    if x in b && x.body.id in FactIds(a) && forall f :: f in a && f.body.id == x.body.id ==> f.ts <= x.ts {
      var f :| f in a && f.body.id == x.body.id;
      var i :| 0 <= i < |a| && a[i] == f;
      VersionIff(f, b, x);
      assert Settled(a, b)[i] == x;
    }
  }

  lemma VersionIff(f: Fact, b: seq<Fact>, x: Fact)
    requires DistinctIds(b) && x.body.id == f.body.id
    ensures Version(f, b) == x <==> (x == f && forall g :: g in b && g.body.id == f.body.id ==> g.ts < f.ts) || (x in b && f.ts <= x.ts)
  {
    var i := Find(b, f.body.id);
    assert forall g :: g in b && g.body.id == f.body.id ==> i < |b| && g == b[i];
  }

  lemma UnionStepKnown(a: seq<Fact>, b: seq<Fact>, m: seq<Fact>, g: Fact)
    requires DistinctIds(a) && Find(b, g.body.id) == |b| && Find(a, g.body.id) < |a|
    ensures PutLater(Settled(a, b) + m, g) == Settled(a, b + [g]) + m && g.body.id in FactIds(a)
  {
    var j := Find(a, g.body.id);
    assert a[j] in a;
    SettledWithKnown(a, b, g, j);
    PutLaterAt(Settled(a, b), m, g, j);
  }

  lemma UnionStepNew(a: seq<Fact>, b: seq<Fact>, g: Fact)
    requires DistinctIds(a) && DistinctIds(b) && Find(b, g.body.id) == |b| && Find(a, g.body.id) == |a|
    ensures PutLater(Settled(a, b) + Minus(b, FactIds(a)), g) == Settled(a, b + [g]) + (Minus(b, FactIds(a)) + [g])
    ensures g.body.id !in FactIds(a)
  {
    NewToUnion(a, b, g);
    SettledWithNew(a, b, g);
    PutLaterNew(Settled(a, b), Minus(b, FactIds(a)), g);
  }

  lemma MinusOfOne(g: Fact, known: set<string>)
    ensures Minus([g], known) == if g.body.id in known then [] else [g]
  {
    assert [g][1..] == [];
  }

  lemma PutLaterAt(s: seq<Fact>, m: seq<Fact>, g: Fact, j: nat)
    requires j < |s| && s[j].body.id == g.body.id && forall k :: 0 <= k < j ==> s[k].body.id != g.body.id
    ensures PutLater(s + m, g) == s[j := Newer(s[j], g)] + m
  {
    assert forall k :: 0 <= k <= j ==> (s + m)[k] == s[k];
    FindIs(s + m, g.body.id, j);
  }

  lemma PutLaterNew(s: seq<Fact>, m: seq<Fact>, g: Fact)
    requires Find(s + m, g.body.id) == |s + m|
    ensures PutLater(s + m, g) == s + (m + [g])
  {
  }

  lemma SettledWithKnown(a: seq<Fact>, b: seq<Fact>, g: Fact, j: nat)
    requires DistinctIds(a) && Find(b, g.body.id) == |b| && j < |a| && a[j].body.id == g.body.id
    ensures Settled(a, b)[j] == a[j] && Settled(a, b + [g]) == Settled(a, b)[j := Newer(a[j], g)]
  {
    forall k | 0 <= k < |a| ensures Version(a[k], b + [g]) == if k == j then Newer(a[j], g) else Version(a[k], b) {
      VersionSnoc(a[k], b, g);
    }
  }

  lemma SettledWithNew(a: seq<Fact>, b: seq<Fact>, g: Fact)
    requires Find(b, g.body.id) == |b| && Find(a, g.body.id) == |a|
    ensures Settled(a, b + [g]) == Settled(a, b)
  {
    forall k | 0 <= k < |a| ensures Version(a[k], b + [g]) == Version(a[k], b) {
      VersionSnoc(a[k], b, g);
    }
  }

  lemma NewToUnion(a: seq<Fact>, b: seq<Fact>, g: Fact)
    requires Find(b, g.body.id) == |b| && Find(a, g.body.id) == |a|
    ensures Find(Settled(a, b) + Minus(b, FactIds(a)), g.body.id) == |a| + |Minus(b, FactIds(a))|
    ensures g.body.id !in FactIds(a)
  {
    var s, m := Settled(a, b), Minus(b, FactIds(a));
    forall k | 0 <= k < |m| ensures m[k].body.id != g.body.id {
      MinusSelects(b, FactIds(a), m[k]);
      assert m[k] in b;
    }
    forall k | 0 <= k < |s + m| ensures (s + m)[k].body.id != g.body.id {
      if k >= |s| { assert (s + m)[k] == m[k - |s|]; } else { assert (s + m)[k] == s[k]; }
    }
    FindIs(s + m, g.body.id, |s + m|);
  }

  // ----- when two chains commute -----

  ghost predicate Comparable(u: seq<Fact>, v: seq<Fact>) { u <= v || v <= u }

  lemma FoundIsKnown(a: seq<Fact>, id: string)
    ensures Find(a, id) < |a| ==> id in FactIds(a)
  {
    if Find(a, id) < |a| { assert a[Find(a, id)] in a; }
  }

  lemma {:induction false} SettledOutside(b: seq<Fact>, a: seq<Fact>)
    ensures Minus(Settled(b, a), FactIds(a)) == Minus(b, FactIds(a))
  {
    if b != [] {
      SettledOutside(b[1..], a);
      assert Settled(b, a)[1..] == Settled(b[1..], a);
      FoundIsKnown(a, b[0].body.id);
    }
  }

  /** What the merge of `a` and `b` lists at one instant. */
  lemma SliceOfUnion(a: seq<Fact>, b: seq<Fact>, t: Time)
    requires DistinctIds(a) && DistinctIds(b)
    ensures AtInstant(UnionById(a, b), t) == AtInstant(Settled(a, b), t) + Minus(AtInstant(Settled(b, a), t), FactIds(a))
  {
    UnionShape(a, b);
    AtInstantOfConcat(Settled(a, b), Minus(b, FactIds(a)), t);
    SettledOutside(b, a);
    MinusAtInstant(Settled(b, a), FactIds(a), t);
  }

  lemma {:induction false} MinusOfAll(fs: seq<Fact>, known: set<string>)
    requires forall f :: f in fs ==> f.body.id in known
    ensures Minus(fs, known) == []
  {
    if fs != [] {
      assert forall f :: f in fs[1..] ==> f in fs;
      MinusOfAll(fs[1..], known);
    }
  }

  lemma {:induction false} MinusOfNone(fs: seq<Fact>, known: set<string>)
    requires forall f :: f in fs ==> f.body.id !in known
    ensures Minus(fs, known) == fs
  {
    if fs != [] {
      assert forall f :: f in fs[1..] ==> f in fs;
      MinusOfNone(fs[1..], known);
    }
  }

  lemma SettledIds(a: seq<Fact>, b: seq<Fact>, f: Fact)
    requires f in Settled(a, b)
    ensures f.body.id in FactIds(a)
  {
    var i :| 0 <= i < |a| && Settled(a, b)[i] == f;
    assert a[i] in a;
  }

  /** An event of both sides survives at one and the same instant, whichever side comes first. */
  lemma OtherVersion(a: seq<Fact>, b: seq<Fact>, e: Fact) returns (f: Fact)
    requires DistinctIds(b) && e in Settled(b, a) && e.body.id in FactIds(a)
    ensures f in Settled(a, b) && f.body.id == e.body.id && f.ts == e.ts
  {
    var k :| 0 <= k < |b| && Settled(b, a)[k] == e;
    var h :| h in a && h.body.id == e.body.id;
    FindIn(a, h);
    var i := Find(a, e.body.id);
    FindIs(b, e.body.id, k);
    f := Settled(a, b)[i];
  }

  lemma {:induction false} AtInstantDistinct(fs: seq<Fact>, t: Time)
    requires DistinctIds(fs)
    ensures DistinctIds(AtInstant(fs, t))
  {
    if fs != [] {
      AtInstantDistinct(fs[1..], t);
      var rest := AtInstant(fs[1..], t);
      forall k | 0 <= k < |rest| ensures rest[k].body.id != fs[0].body.id {
        AtInstantSelects(fs[1..], t, rest[k]);
        var i :| 0 <= i < |fs[1..]| && fs[1..][i] == rest[k];
        assert fs[i + 1] == rest[k];
      }
    }
  }

  /** When one list of survivors continues the other, both orders list the longer one. */
  lemma PrefixCommutes(a: seq<Fact>, b: seq<Fact>, t: Time)
    requires DistinctIds(a) && DistinctIds(b)
    requires AtInstant(Settled(a, b), t) <= AtInstant(Settled(b, a), t)
    ensures AtInstant(UnionById(a, b), t) == AtInstant(UnionById(b, a), t)
  {
    var s, r := AtInstant(Settled(a, b), t), AtInstant(Settled(b, a), t);
    SliceOfUnion(a, b, t);
    SliceOfUnion(b, a, t);
    forall f | f in s ensures f.body.id in FactIds(a) && f.body.id in FactIds(b) {
      AtInstantSelects(Settled(a, b), t, f);
      SettledIds(a, b, f);
      assert f in r;
      AtInstantSelects(Settled(b, a), t, f);
      SettledIds(b, a, f);
    }
    RestIsNew(a, b, t);
    KnownThenNew(s, r, FactIds(a), FactIds(b));
  }

  lemma KnownThenNew(s: seq<Fact>, r: seq<Fact>, known: set<string>, other: set<string>)
    requires s <= r && forall f :: f in s ==> f.body.id in known && f.body.id in other
    requires forall f :: f in r[|s|..] ==> f.body.id !in known
    ensures s + Minus(r, known) == r + Minus(s, other)
  {
    var rest := r[|s|..];
    assert r == s + rest;
    MinusOfAll(s, other);
    MinusOfPart(s, rest, known);
  }

  lemma MinusOfPart(s: seq<Fact>, rest: seq<Fact>, known: set<string>)
    requires forall f :: f in s ==> f.body.id in known
    requires forall f :: f in rest ==> f.body.id !in known
    ensures Minus(s + rest, known) == rest
  {
    MinusOfConcat(s, rest, known);
    MinusOfAll(s, known);
    MinusOfNone(rest, known);
  }

  lemma RestIsNew(a: seq<Fact>, b: seq<Fact>, t: Time)
    requires DistinctIds(a) && DistinctIds(b)
    requires AtInstant(Settled(a, b), t) <= AtInstant(Settled(b, a), t)
    ensures forall f :: f in AtInstant(Settled(b, a), t)[|AtInstant(Settled(a, b), t)|..] ==> f.body.id !in FactIds(a)
  {
    var s, r := AtInstant(Settled(a, b), t), AtInstant(Settled(b, a), t);
    AtInstantDistinct(Settled(b, a), t);
    forall e | e in r[|s|..] ensures e.body.id !in FactIds(a) {
      IdsApart(r, |s|, e);
      assert e in r && r[..|s|] == s;
      if e.body.id in FactIds(a) { SharedSurvivor(a, b, t, e); }
    }
  }

  lemma IdsApart(fs: seq<Fact>, n: nat, e: Fact)
    requires DistinctIds(fs) && n <= |fs| && e in fs[n..]
    ensures e.body.id !in FactIds(fs[..n])
  {
    var k :| n <= k < |fs| && fs[k] == e;
    forall f | f in fs[..n] ensures f.body.id != e.body.id {
      var j :| 0 <= j < n && fs[j] == f;
    }
  }

  lemma SharedSurvivor(a: seq<Fact>, b: seq<Fact>, t: Time, e: Fact)
    requires DistinctIds(b) && e in AtInstant(Settled(b, a), t) && e.body.id in FactIds(a)
    ensures e.body.id in FactIds(AtInstant(Settled(a, b), t))
  {
    AtInstantSelects(Settled(b, a), t, e);
    var f := OtherVersion(a, b, e);
    AtInstantSelects(Settled(a, b), t, f);
  }

  lemma SlicesCommuteIff(a: seq<Fact>, b: seq<Fact>, t: Time)
    requires DistinctIds(a) && DistinctIds(b)
    ensures AtInstant(UnionById(a, b), t) == AtInstant(UnionById(b, a), t)
            <==> Comparable(AtInstant(Settled(a, b), t), AtInstant(Settled(b, a), t))
  {
    var s, r := AtInstant(Settled(a, b), t), AtInstant(Settled(b, a), t);
    if s <= r {
      PrefixCommutes(a, b, t);
    } else if r <= s {
      PrefixCommutes(b, a, t);
    } else {
      SliceOfUnion(a, b, t);
      SliceOfUnion(b, a, t);
      var x, y := Minus(r, FactIds(a)), Minus(s, FactIds(b));
      if s + x == r + y {
        if |s| <= |r| { CommonPrefix(s, x, r, y); } else { CommonPrefix(r, y, s, x); }
      }
    }
  }

  lemma CommonPrefix(s: seq<Fact>, x: seq<Fact>, r: seq<Fact>, y: seq<Fact>)
    requires s + x == r + y && |s| <= |r|
    ensures s <= r
  {
    assert s == (s + x)[..|s|] && r[..|s|] == (r + y)[..|s|];
  }

  /** At every instant the events of one side are the first events of the other. */
  ghost predicate InLine(a: seq<Fact>, b: seq<Fact>) { forall t :: Comparable(AtInstant(a, t), AtInstant(b, t)) }

  /** Two chains, whatever they share, merge to the same events in both orders exactly when at every instant the
      surviving events of one are a first part of the surviving events of the other. */
  lemma MergeCommutesIff(a: seq<Fact>, b: seq<Fact>)
    requires DistinctIds(a) && DistinctIds(b)
    ensures MergeFacts(a, b) == MergeFacts(b, a) <==> InLine(Settled(a, b), Settled(b, a))
  {
    forall t
      ensures AtInstant(UnionById(a, b), t) == AtInstant(UnionById(b, a), t)
              <==> Comparable(AtInstant(Settled(a, b), t), AtInstant(Settled(b, a), t))
    {
      SlicesCommuteIff(a, b, t);
    }
    SortedEqualIff(UnionById(a, b), UnionById(b, a));
  }

  /** The chains written from the merged events, links and hashes included, are equal exactly when the events are. */
  lemma RecordsCommuteIff(H: Hasher, a: seq<Fact>, b: seq<Fact>)
    requires DistinctIds(a) && DistinctIds(b)
    ensures AppendAll(H, [], MergeFacts(a, b)) == AppendAll(H, [], MergeFacts(b, a)) <==> InLine(Settled(a, b), Settled(b, a))
  {
    MergeCommutesIff(a, b);
    SlicesOfSorted(UnionById(a, b));
    SlicesOfSorted(UnionById(b, a));
    AppendAllFacts(H, MergeFacts(a, b));
    AppendAllFacts(H, MergeFacts(b, a));
  }

  /** Each id stands for one fact. */
  ghost predicate OneVersion(s: set<Fact>) { forall f, g :: f in s && g in s && f.body.id == g.body.id ==> f == g }

  lemma SettledAgreeing(a: seq<Fact>, b: seq<Fact>)
    requires OneVersion(Set(a) + Set(b))
    ensures Settled(a, b) == a && Settled(b, a) == b
  {
    forall i | 0 <= i < |a| ensures Version(a[i], b) == a[i] { VersionAgreeing(a, b, a[i]); }
    forall i | 0 <= i < |b| ensures Version(b[i], a) == b[i] { VersionAgreeing(a, b, b[i]); }
  }

  lemma VersionAgreeing(a: seq<Fact>, b: seq<Fact>, f: Fact)
    requires OneVersion(Set(a) + Set(b)) && (f in a || f in b)
    ensures Version(f, a) == f && Version(f, b) == f
  {
    var s := Set(a) + Set(b);
    assert f in s && Version(f, a) in s && Version(f, b) in s;
  }

  /** Replicas that agree on the events they share commute exactly when at every instant the events of one are the
      first events of the other. */
  lemma AgreeingMergeCommutesIff(a: seq<Fact>, b: seq<Fact>)
    requires DistinctIds(a) && DistinctIds(b) && OneVersion(Set(a) + Set(b))
    ensures MergeFacts(a, b) == MergeFacts(b, a) <==> InLine(a, b)
  {
    SettledAgreeing(a, b);
    MergeCommutesIff(a, b);
  }

  ghost predicate NoCommonId(a: seq<Fact>, b: seq<Fact>) {
    forall f, g :: f in a && g in b ==> f.body.id != g.body.id
  }

  /** Chains without a common event commute exactly when no event of one shares its instant with an event of the other. */
  lemma DisjointMergeCommutesIff(a: seq<Fact>, b: seq<Fact>)
    requires DistinctIds(a) && DistinctIds(b) && NoCommonId(a, b)
    ensures MergeFacts(a, b) == MergeFacts(b, a) <==> forall f, g :: f in a && g in b ==> f.ts != g.ts
  {
    WinnersOfDistinct(a);
    WinnersOfDistinct(b);
    OneVersionOfDistinct(a);
    OneVersionOfDistinct(b);
    assert OneVersion(Set(a) + Set(b));
    AgreeingMergeCommutesIff(a, b);
    forall t ensures Comparable(AtInstant(a, t), AtInstant(b, t)) <==> AtInstant(a, t) == [] || AtInstant(b, t) == [] {
      DisjointSlices(a, b, t);
    }
    if forall t :: AtInstant(a, t) == [] || AtInstant(b, t) == [] {
      forall f, g | f in a && g in b ensures f.ts != g.ts {
        AtInstantSelects(a, f.ts, f);
        AtInstantSelects(b, f.ts, g);
      }
    } else {
      var t :| AtInstant(a, t) != [] && AtInstant(b, t) != [];
      AtInstantSelects(a, t, AtInstant(a, t)[0]);
      AtInstantSelects(b, t, AtInstant(b, t)[0]);
    }
  }

  lemma OneVersionOfDistinct(fs: seq<Fact>)
    requires DistinctIds(fs)
    ensures OneVersion(Set(fs))
  {
  }

  lemma DisjointSlices(a: seq<Fact>, b: seq<Fact>, t: Time)
    requires NoCommonId(a, b)
    ensures Comparable(AtInstant(a, t), AtInstant(b, t)) <==> AtInstant(a, t) == [] || AtInstant(b, t) == []
  {
    if AtInstant(a, t) != [] && AtInstant(b, t) != [] {
      AtInstantSelects(a, t, AtInstant(a, t)[0]);
      AtInstantSelects(b, t, AtInstant(b, t)[0]);
    }
  }

  // ----- merges of several chains -----

  lemma SliceOfMerge(a: seq<Fact>, b: seq<Fact>, t: Time)
    requires DistinctIds(a) && DistinctIds(b) && OneVersion(Set(a) + Set(b))
    ensures AtInstant(MergeFacts(a, b), t) == AtInstant(a, t) + Minus(AtInstant(b, t), FactIds(a))
  {
    SettledAgreeing(a, b);
    SliceOfUnion(a, b, t);
    SortIsStable(UnionById(a, b), t);
  }

  function Leaves(t: MergeTree): (fss: seq<seq<Fact>>)
    ensures fss != []
  {
    match t
    case Leaf(fs) => [fs]
    case Node(l, r) => Leaves(l) + Leaves(r)
  }

  ghost predicate AllDistinct(fss: seq<seq<Fact>>) { forall i :: 0 <= i < |fss| ==> DistinctIds(fss[i]) }

  lemma {:induction false} LeavesHold(t: MergeTree)
    requires DistinctLeaves(t)
    ensures AllDistinct(Leaves(t)) && Gathered(Leaves(t)) == AllFacts(t)
  {
    match t
    case Leaf(fs) =>
      assert Leaves(t) == [fs] && fs in [fs];
    case Node(l, r) =>
      LeavesHold(l);
      LeavesHold(r);
      GatheredOfConcat(Leaves(l), Leaves(r));
  }

  lemma GatheredOfConcat(fss: seq<seq<Fact>>, gss: seq<seq<Fact>>)
    ensures Gathered(fss + gss) == Gathered(fss) + Gathered(gss)
  {
    assert forall fs :: fs in fss + gss <==> fs in fss || fs in gss;
  }

  lemma FoldHolds(fss: seq<seq<Fact>>)
    requires fss != [] && AllDistinct(fss) && OneVersion(Gathered(fss))
    ensures DistinctIds(FoldFacts(fss)) && Set(FoldFacts(fss)) == Gathered(fss)
  {
    FoldIsTree(fss);
    EvalIsWinners(LeftTree(fss));
    assert Winners(Gathered(fss)) == Gathered(fss);
  }
}
