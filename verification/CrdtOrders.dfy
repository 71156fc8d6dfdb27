/** Any number of chains, whatever versions of their events they hold (adl_lite/crdt.py): exactly when neither the order of
    the arguments of `merge_event_chains` nor the bracketing of the merges matters. */
module CrdtOrders {
  import opened Basics
  import opened Events
  import opened Crdt
  import opened CrdtLaws
  import opened CrdtBrackets
  import opened CrdtFolds
  import opened CrdtTrees

  // ----- which of two events is listed first -----

  ghost predicate Before(l: seq<Fact>, f: Fact, g: Fact) { exists i, j :: 0 <= i < j < |l| && l[i] == f && l[j] == g }

  /** A version of the event `id` is listed before `x`. */
  ghost predicate Behind(l: seq<Fact>, id: string, x: Fact) {
    exists i, j :: 0 <= i < j < |l| && l[i].body.id == id && l[j] == x
  }

  lemma BeforeOfCons(h: Fact, l: seq<Fact>, f: Fact, g: Fact)
    ensures Before([h] + l, f, g) <==> Before(l, f, g) || (f == h && g in l)
  {
    var m := [h] + l;
    if i, j :| 0 <= i < j < |m| && m[i] == f && m[j] == g {
      assert l[j - 1] == g;
      if i > 0 { assert l[i - 1] == f; }
    }
    if i, j :| 0 <= i < j < |l| && l[i] == f && l[j] == g { assert m[i + 1] == f && m[j + 1] == g; }
    if f == h && g in l {
      var j :| 0 <= j < |l| && l[j] == g;
      assert m[0] == f && m[j + 1] == g;
    }
  }

  lemma {:induction false} InsertKeepsBefore(h: Fact, l: seq<Fact>, f: Fact, g: Fact)
    requires Before(l, f, g)
    ensures Before(Insert(h, l, Earlier), f, g)
  {
    assert l == [l[0]] + l[1..];
    if Earlier(h, l[0]) {
      BeforeOfCons(h, l, f, g);
    } else {
      var more := Insert(h, l[1..], Earlier);
      BeforeOfCons(l[0], l[1..], f, g);
      BeforeOfCons(l[0], more, f, g);
      if Before(l[1..], f, g) {
        InsertKeepsBefore(h, l[1..], f, g);
      } else {
        InsertKeepsElements(h, l[1..], Earlier);
        assert g in multiset(more);
      }
    }
  }

  lemma {:induction false} InsertedBefore(f: Fact, l: seq<Fact>, g: Fact)
    requires g in l && f.ts <= g.ts
    ensures Before(Insert(f, l, Earlier), f, g)
  {
    assert l == [l[0]] + l[1..];
    if Earlier(f, l[0]) {
      BeforeOfCons(f, l, f, g);
    } else {
      BeforeOfCons(l[0], Insert(f, l[1..], Earlier), f, g);
      InsertedBefore(f, l[1..], g);
    }
  }

  /** An event that stands before a later or equal one is still before it when sorted. */
  lemma {:induction false} SortKeepsBefore(u: seq<Fact>, i: nat, j: nat)
    requires i < j < |u| && u[i].ts <= u[j].ts
    ensures Before(SortBy(u, Earlier), u[i], u[j])
  {
    var rest := u[1..];
    assert u[j] == rest[j - 1];
    if i == 0 {
      SortKeepsElements(rest, Earlier);
      assert u[j] in multiset(SortBy(rest, Earlier));
      InsertedBefore(u[0], SortBy(rest, Earlier), u[j]);
    } else {
      assert u[i] == rest[i - 1];
      SortKeepsBefore(rest, i - 1, j - 1);
      InsertKeepsBefore(u[0], SortBy(rest, Earlier), u[i], u[j]);
    }
  }

  lemma SortPutsEarlierFirst(u: seq<Fact>, f: Fact, g: Fact)
    requires f in u && g in u && f.ts < g.ts
    ensures Before(SortBy(u, Earlier), f, g)
  {
    var v := SortBy(u, Earlier);
    SlicesOfSorted(u);
    SortKeepsElements(u, Earlier);
    assert f in multiset(v) && g in multiset(v);
    var i :| 0 <= i < |v| && v[i] == f;
    var j :| 0 <= j < |v| && v[j] == g;
    assert forall k :: 0 <= k < i ==> Earlier(v[k], v[i]);
  }

  /** Of two known events the first stays first when its version is not the later one. */
  lemma MergeKeepsBefore(e: seq<Fact>, z: seq<Fact>, i: nat, j: nat)
    requires DistinctIds(e) && DistinctIds(z) && i < j < |e| && Version(e[i], z).ts <= Version(e[j], z).ts
    ensures Before(MergeFacts(e, z), Version(e[i], z), Version(e[j], z))
  {
    var u := UnionById(e, z);
    UnionShape(e, z);
    assert u[i] == Settled(e, z)[i] && u[j] == Settled(e, z)[j];
    SortKeepsBefore(u, i, j);
  }

  lemma {:induction false} BeforeAtInstant(l: seq<Fact>, t: Time, f: Fact, g: Fact)
    ensures Before(AtInstant(l, t), f, g) <==> Before(l, f, g) && f.ts == g.ts == t
  {
    if l != [] {
      var h, rest := l[0], l[1..];
      assert l == [h] + rest;
      BeforeAtInstant(rest, t, f, g);
      AtInstantOfCons(h, rest, t);
      BeforeOfCons(h, rest, f, g);
      BeforeOfCons(h, AtInstant(rest, t), f, g);
      AtInstantSelects(rest, t, g);
      if g in rest && h == f && f.ts == g.ts == t { assert Before(l, f, g); }
      BeforeMembers(rest, f, g);
    }
  }

  lemma BeforeMembers(l: seq<Fact>, f: Fact, g: Fact)
    ensures Before(l, f, g) ==> f in l && g in l
  {
  }

  lemma NotBehind(c: seq<Fact>, x: Fact, y: Fact)
    requires DistinctIds(c) && Behind(c, x.body.id, y)
    ensures !Behind(c, y.body.id, x)
  {
    var i, j :| 0 <= i < j < |c| && c[i].body.id == x.body.id && c[j] == y;
    forall a, b | 0 <= a < b < |c| && c[a].body.id == y.body.id ensures c[b] != x {
      SamePlace(c, a, j);
      assert c[i].body.id != c[b].body.id;
    }
  }

  // ----- an event left behind stays behind -----

  /** Nothing in `s` is a later version of `x` or of the event `id` than `x` is late. */
  ghost predicate Last(s: set<Fact>, id: string, x: Fact) {
    && OneVersion(Winners(s))
    && Latest(s, x)
    && forall g :: g in s && g.body.id == id ==> g.ts <= x.ts
  }

  lemma LastStays(s: set<Fact>, id: string, x: Fact, z: seq<Fact>)
    requires Last(s, id, x) && Set(z) <= s
    ensures Version(x, z) == x
  {
    var v := Version(x, z);
    assert v in z ==> v in Set(z);
    assert v in Winners(s) && x in Winners(s);
  }

  lemma StaysBehind(e: seq<Fact>, z: seq<Fact>, s: set<Fact>, id: string, x: Fact)
    requires DistinctIds(e) && DistinctIds(z) && Set(e) <= s && Set(z) <= s && Last(s, id, x) && Behind(e, id, x)
    ensures Behind(MergeFacts(e, z), id, x)
  {
    var i, j :| 0 <= i < j < |e| && e[i].body.id == id && e[j] == x;
    var v := Version(e[i], z);
    assert e[i] in Set(e) && (v in z ==> v in Set(z));
    LastStays(s, id, x, z);
    MergeKeepsBefore(e, z, i, j);
  }

  lemma {:induction false} BehindForGood(fss: seq<seq<Fact>>, n: nat, s: set<Fact>, id: string, x: Fact)
    requires 1 <= n <= |fss| && AllDistinct(fss) && Gathered(fss) <= s && Last(s, id, x) && Behind(FoldFacts(fss[..n]), id, x)
    ensures Behind(FoldFacts(fss), id, x)
    decreases |fss|
  {
    if n == |fss| {
      assert fss[..n] == fss;
    } else {
      var front, z := fss[..|fss| - 1], fss[|fss| - 1];
      assert front[..n] == fss[..n] && fss == front + [z];
      GatheredOfConcat(front, [z]);
      BehindForGood(front, n, s, id, x);
      FoldListsLatest(front);
      ListedIn(FoldFacts(front), Gathered(front));
      OfLeaf(fss, |fss| - 1);
      StaysBehind(FoldFacts(front), z, s, id, x);
    }
  }

  // ----- what one order of the arguments tells -----

  /** Every order of the chains gives the same merged events. */
  ghost predicate OrderFixed(fss: seq<seq<Fact>>) { |fss| > 1 && AllDistinct(fss) && OrderIrrelevant(fss) }

  lemma ToTheBack(fss: seq<seq<Fact>>, i: nat) returns (rest: seq<seq<Fact>>)
    requires i < |fss|
    ensures Rearranged(fss, rest + [fss[i]])
  {
    rest := fss[..i] + fss[i + 1..];
    DropAt(fss, i);
  }

  lemma ToTheFront(fss: seq<seq<Fact>>, i: nat, j: nat) returns (rest: seq<seq<Fact>>)
    requires i < |fss| && j < |fss| && i != j
    ensures Rearranged(fss, [fss[i], fss[j]] + rest)
    ensures forall h :: 0 <= h < |fss| && h != i && h != j ==> fss[h] in rest
  {
    if i < j {
      rest := BroughtToFront(fss, i, j);
    } else {
      rest := BroughtToFront(fss, j, i);
    }
  }

  /** The chain merged last keeps its latest versions. */
  lemma NewcomerWins(e: seq<Fact>, z: seq<Fact>, s: set<Fact>, f: Fact)
    requires DistinctIds(e) && DistinctIds(z) && Set(e) <= s && f in z && Latest(s, f)
    ensures f in MergeFacts(e, z)
  {
    assert forall g :: g in e ==> g in Set(e);
    NewcomerStays(e, z, f);
  }

  lemma LastIsKept(fss: seq<seq<Fact>>, f: Fact)
    requires OrderFixed(fss) && f in Winners(Gathered(fss))
    ensures f in FoldFacts(fss)
  {
    var i := InSomeLeaf(fss, f);
    var rest := ToTheBack(fss, i);
    var gss := rest + [fss[i]];
    RearrangedHolds(fss, gss);
    assert gss[..|gss| - 1] == rest;
    assert AllDistinct(rest) by { assert forall k :: 0 <= k < |rest| ==> gss[k] == rest[k]; }
    GatheredOfConcat(rest, [fss[i]]);
    FoldListsLatest(rest);
    ListedIn(FoldFacts(rest), Gathered(rest));
    NewcomerWins(FoldFacts(rest), fss[i], Gathered(fss), f);
  }

  lemma LastVersionsAgree(fss: seq<seq<Fact>>)
    requires OrderFixed(fss)
    ensures OneVersion(Winners(Gathered(fss)))
  {
    FoldListsLatest(fss);
    forall f, g | f in Winners(Gathered(fss)) && g in Winners(Gathered(fss)) && f.body.id == g.body.id ensures f == g {
      LastIsKept(fss, f);
      LastIsKept(fss, g);
    }
  }

  lemma FoldOfTwo(p: seq<Fact>, q: seq<Fact>, rest: seq<seq<Fact>>)
    ensures FoldFacts(([p, q] + rest)[..2]) == MergeFacts(p, q)
  {
    assert ([p, q] + rest)[..2] == [p, q];
    assert [p, q][..1] == [p];
  }

  lemma FoldOfThree(p: seq<Fact>, q: seq<Fact>, z: seq<Fact>, rest: seq<seq<Fact>>)
    ensures FoldFacts(([p, q, z] + rest)[..3]) == MergeFacts(MergeFacts(p, q), z)
  {
    assert ([p, q, z] + rest)[..3] == [p, q, z];
    FoldOfTwo(p, q, [z]);
    assert [p, q] + [z] == [p, q, z];
  }

  /** What is behind after the first merges is behind in the result of every order. */
  lemma BehindInAll(fss: seq<seq<Fact>>, gss: seq<seq<Fact>>, n: nat, id: string, x: Fact)
    requires OrderFixed(fss) && Rearranged(fss, gss) && 1 <= n <= |gss|
    requires Last(Gathered(fss), id, x) && Behind(FoldFacts(gss[..n]), id, x)
    ensures Behind(FoldFacts(fss), id, x)
  {
    RearrangedHolds(fss, gss);
    BehindForGood(gss, n, Gathered(fss), id, x);
  }

  lemma LastOfList(c: seq<Fact>, s: set<Fact>, x: Fact, y: Fact)
    requires ListsLatest(c, s) && OneVersion(Winners(s)) && Before(c, x, y) && x.ts == y.ts
    ensures Last(s, y.body.id, x) && x in s && y in s && x.body.id != y.body.id && Version(x, c) == x && Version(y, c) == y
  {
    assert Latest(s, x) && Latest(s, y);
    VersionOfOnly(x, c, x);
    VersionOfOnly(y, c, y);
  }

  /** Events that end up at one instant stand in every chain as they do in the result. */
  lemma ChainKeepsOrder(fss: seq<seq<Fact>>, i: nat, x: Fact, y: Fact)
    requires OrderFixed(fss) && OneVersion(Winners(Gathered(fss))) && i < |fss|
    requires Before(FoldFacts(fss), x, y) && x.ts == y.ts && y in Settled(fss[i], FoldFacts(fss))
    ensures Before(Settled(fss[i], FoldFacts(fss)), x, y)
  {
    var c := FoldFacts(fss);
    FoldListsLatest(fss);
    LastOfList(c, Gathered(fss), x, y);
    var n :| 0 <= n < |fss[i]| && Settled(fss[i], c)[n] == y;
    var h := InSomeLeaf(fss, x);
    var o := if h != i then h else if i == 0 then 1 else 0;
    OfLeaf(fss, i);
    OfLeaf(fss, o);
    var k := PlaceInUnion(fss[i], fss[o], Gathered(fss), y.body.id, x);
    if k < |fss[i]| && k < n {
      KnownByLast(fss[i], fss[o], c, Gathered(fss), k, x);
    } else {
      NotSecond(fss, i, o, n, k, x, y);
    }
  }

  /** An event of the result does not stand behind one that the result lists later. */
  lemma NotSecond(fss: seq<seq<Fact>>, i: nat, o: nat, n: nat, k: nat, x: Fact, y: Fact)
    requires OrderFixed(fss) && i < |fss| && o < |fss| && i != o && Last(Gathered(fss), y.body.id, x)
    requires Before(FoldFacts(fss), x, y) && x.body.id != y.body.id
    requires n < |fss[i]| && fss[i][n].body.id == y.body.id && k < |UnionById(fss[i], fss[o])| && UnionById(fss[i], fss[o])[k] == x
    ensures k < n
  {
    var p, q := fss[i], fss[o];
    UnionShape(p, q);
    assert UnionById(p, q)[n] == Settled(p, q)[n];
    FoldListsLatest(fss);
    NotBehind(FoldFacts(fss), x, y);
    if n < k {
      OfLeaf(fss, i);
      OfLeaf(fss, o);
      UnionAfter(p, q, Gathered(fss), n, k, y.body.id, x);
      var rest := ToTheFront(fss, i, o);
      FoldOfTwo(p, q, rest);
      BehindInAll(fss, [p, q] + rest, 2, y.body.id, x);
    }
  }

  lemma PlaceInUnion(p: seq<Fact>, q: seq<Fact>, s: set<Fact>, id: string, x: Fact) returns (k: nat)
    requires DistinctIds(p) && DistinctIds(q) && Set(p) <= s && Set(q) <= s && Last(s, id, x) && (x in p || x in q)
    ensures k < |UnionById(p, q)| && UnionById(p, q)[k] == x
  {
    var u := UnionById(p, q);
    UnionHolds(p, q, s);
    assert x in Set(p) + Set(q);
    var g :| g in u && g.body.id == x.body.id;
    assert g in Set(u) && Latest(Set(p) + Set(q), g);
    assert g in Winners(s) && x in Winners(s);
    k :| 0 <= k < |u| && u[k] == x;
  }

  lemma KnownByLast(p: seq<Fact>, q: seq<Fact>, c: seq<Fact>, s: set<Fact>, k: nat, x: Fact)
    requires DistinctIds(p) && DistinctIds(q) && ListsLatest(c, s) && Set(p) <= s
    requires k < |p| && k < |UnionById(p, q)| && UnionById(p, q)[k] == x && x in s && Version(x, c) == x
    ensures Settled(p, c)[k] == x
  {
    UnionShape(p, q);
    assert x == Settled(p, q)[k] && p[k] in Set(p);
    SameLast(c, s, p[k], x);
  }

  lemma UnionAfter(p: seq<Fact>, q: seq<Fact>, s: set<Fact>, n: nat, k: nat, id: string, x: Fact)
    requires DistinctIds(p) && DistinctIds(q) && Set(p) <= s && Set(q) <= s && Last(s, id, x)
    requires n < |p| && n < k < |UnionById(p, q)| && UnionById(p, q)[k] == x && p[n].body.id == id
    ensures Behind(MergeFacts(p, q), id, x)
  {
    var u := UnionById(p, q);
    UnionShape(p, q);
    UnionHolds(p, q, s);
    assert u[n] == Settled(p, q)[n] && u[n] in Set(u);
    SortKeepsBefore(u, n, k);
  }

  // ----- every chain is a first part of the result -----

  /** What `l` lists before an event of `p`, `p` lists before it. */
  ghost predicate KeepsOrder(p: seq<Fact>, l: seq<Fact>) {
    && (forall y :: y in p ==> y in l)
    && forall x, y :: Before(l, x, y) && y in p ==> Before(p, x, y)
  }

  lemma {:induction false} PrefixByPairs(p: seq<Fact>, l: seq<Fact>, n: nat)
    requires DistinctIds(p) && DistinctIds(l) && n <= |p| && KeepsOrder(p, l)
    ensures n <= |l| && p[..n] == l[..n]
  {
    if n > 0 {
      PrefixByPairs(p, l, n - 1);
      NextInLine(p, l, n - 1);
    }
  }

  lemma NextInLine(p: seq<Fact>, l: seq<Fact>, n: nat)
    requires DistinctIds(p) && DistinctIds(l) && n < |p| && KeepsOrder(p, l) && n <= |l| && p[..n] == l[..n]
    ensures n < |l| && p[n] == l[n]
  {
    var y := p[n];
    assert y in p;
    var k :| 0 <= k < |l| && l[k] == y;
    forall m | 0 <= m < n ensures l[m].body.id != y.body.id {
      assert l[m] == l[..n][m] == p[..n][m];
      assert p[m].body.id != p[n].body.id;
    }
    assert n <= k;
    assert n < k ==> Before(l, l[n], y);
    forall z | Before(p, z, y) ensures z in l[..n] { FoundBefore(p, n, z); }
    forall z | z in l[..n] ensures z != l[n] {
      var m :| 0 <= m < n && l[..n][m] == z;
      assert l[m].body.id != l[n].body.id;
    }
    assert l[n] !in l[..n];
    assert !Before(p, l[n], y);
  }

  lemma FoundBefore(p: seq<Fact>, n: nat, z: Fact)
    requires DistinctIds(p) && n < |p| && Before(p, z, p[n])
    ensures z in p[..n]
  {
    var a, b :| 0 <= a < b < |p| && p[a] == z && p[b] == p[n];
    SamePlace(p, b, n);
    assert p[..n][a] == z;
  }

  lemma SliceKeepsOrder(fss: seq<seq<Fact>>, i: nat, t: Time, x: Fact, y: Fact)
    requires OrderFixed(fss) && OneVersion(Winners(Gathered(fss))) && i < |fss|
    requires Before(AtInstant(FoldFacts(fss), t), x, y) && y in AtInstant(Settled(fss[i], FoldFacts(fss)), t)
    ensures Before(AtInstant(Settled(fss[i], FoldFacts(fss)), t), x, y)
  {
    BeforeAtInstant(FoldFacts(fss), t, x, y);
    AtInstantSelects(Settled(fss[i], FoldFacts(fss)), t, y);
    ChainKeepsOrder(fss, i, x, y);
    BeforeAtInstant(Settled(fss[i], FoldFacts(fss)), t, x, y);
  }

  lemma SliceInOrder(fss: seq<seq<Fact>>, i: nat, t: Time)
    requires OrderFixed(fss) && OneVersion(Winners(Gathered(fss))) && i < |fss|
    ensures KeepsOrder(AtInstant(Settled(fss[i], FoldFacts(fss)), t), AtInstant(FoldFacts(fss), t))
  {
    var p, l := AtInstant(Settled(fss[i], FoldFacts(fss)), t), AtInstant(FoldFacts(fss), t);
    forall y | y in p ensures y in l { ListedInResult(fss, i, t, y); }
    forall x, y | Before(l, x, y) && y in p ensures Before(p, x, y) { SliceKeepsOrder(fss, i, t, x, y); }
  }

  lemma InOrderMeansFirst(p: seq<Fact>, l: seq<Fact>)
    requires DistinctIds(p) && DistinctIds(l) && KeepsOrder(p, l)
    ensures p <= l
  {
    PrefixByPairs(p, l, |p|);
    assert p[..|p|] == p;
  }

  lemma SlicesDistinct(fs: seq<Fact>, c: seq<Fact>, t: Time)
    requires DistinctIds(fs) && DistinctIds(c)
    ensures DistinctIds(AtInstant(Settled(fs, c), t)) && DistinctIds(AtInstant(c, t))
  {
    SettledDistinct(fs, c);
    AtInstantDistinct(Settled(fs, c), t);
    AtInstantDistinct(c, t);
  }

  lemma ChainIsFirstPart(fss: seq<seq<Fact>>, i: nat, t: Time)
    requires OrderFixed(fss) && OneVersion(Winners(Gathered(fss))) && i < |fss|
    ensures AtInstant(Settled(fss[i], FoldFacts(fss)), t) <= AtInstant(FoldFacts(fss), t)
  {
    FoldListsLatest(fss);
    SlicesDistinct(fss[i], FoldFacts(fss), t);
    SliceInOrder(fss, i, t);
    InOrderMeansFirst(AtInstant(Settled(fss[i], FoldFacts(fss)), t), AtInstant(FoldFacts(fss), t));
  }

  lemma ListedInResult(fss: seq<seq<Fact>>, i: nat, t: Time, y: Fact)
    requires fss != [] && AllDistinct(fss) && i < |fss| && y in AtInstant(Settled(fss[i], FoldFacts(fss)), t)
    ensures y in AtInstant(FoldFacts(fss), t)
  {
    var c := FoldFacts(fss);
    FoldListsLatest(fss);
    AtInstantSelects(Settled(fss[i], c), t, y);
    var k :| 0 <= k < |fss[i]| && Settled(fss[i], c)[k] == y;
    OfLeaf(fss, i);
    assert fss[i][k] in Set(fss[i]);
    LastVersion(c, Gathered(fss), fss[i][k]);
    AtInstantSelects(c, t, y);
  }

  // ----- no two chains overtake -----

  lemma LatestInUnion(p: seq<Fact>, q: seq<Fact>, s: set<Fact>, a: nat, id: string, x: Fact)
    requires DistinctIds(p) && DistinctIds(q) && Set(p) <= s && Set(q) <= s && Last(s, id, x) && (x in p || x in q)
    requires a < |UnionById(p, q)| && UnionById(p, q)[a].body.id == x.body.id
    ensures UnionById(p, q)[a] == x
  {
    UnionHasDistinctIds(p, q);
    var k := PlaceInUnion(p, q, s, id, x);
    SamePlace(UnionById(p, q), a, k);
  }

  lemma SecondToFront(rest: seq<seq<Fact>>, z: seq<Fact>) returns (more: seq<seq<Fact>>)
    requires z in rest
    ensures multiset(rest) == multiset([z]) + multiset(more)
  {
    var k :| 0 <= k < |rest| && rest[k] == z;
    more := rest[..k] + rest[k + 1..];
    DropAt(rest, k);
  }

  lemma FrontOfThree(fss: seq<seq<Fact>>, p: seq<Fact>, q: seq<Fact>, z: seq<Fact>, rest: seq<seq<Fact>>, more: seq<seq<Fact>>)
    requires Rearranged(fss, [p, q] + rest) && multiset(rest) == multiset([z]) + multiset(more)
    ensures Rearranged(fss, [p, q, z] + more)
  {
    assert [p, q, z] + more == [p, q] + ([z] + more);
  }

  /** A third chain that brings the last version of `g` does not move it in front of `f` again. */
  lemma CaughtUp(p: seq<Fact>, q: seq<Fact>, z: seq<Fact>, s: set<Fact>, f: Fact, g: Fact, x: Fact)
    requires DistinctIds(p) && DistinctIds(q) && DistinctIds(z) && Set(p) <= s && Set(q) <= s && Set(z) <= s
    requires Before(MergeFacts(p, q), f, g) && x in z && g.body.id == x.body.id && Last(s, f.body.id, x) && g in s && f in s
    ensures Behind(MergeFacts(MergeFacts(p, q), z), f.body.id, x)
  {
    var e := MergeFacts(p, q);
    MergeIds(p, q);
    var i, j :| 0 <= i < j < |e| && e[i] == f && e[j] == g;
    VersionOfOnly(g, z, x);
    var v := Version(f, z);
    assert v in z ==> v in Set(z);
    MergeKeepsBefore(e, z, i, j);
  }

  /** The union of two chains stands, at every instant, as the result does. */
  lemma UnionFollowsResult(fss: seq<seq<Fact>>, i: nat, j: nat, a: nat, b: nat)
    requires OrderFixed(fss) && OneVersion(Winners(Gathered(fss))) && i < |fss| && j < |fss|
    requires a < b < |UnionById(fss[i], fss[j])|
    requires Version(UnionById(fss[i], fss[j])[a], FoldFacts(fss)).ts == Version(UnionById(fss[i], fss[j])[b], FoldFacts(fss)).ts
    ensures Before(FoldFacts(fss), Version(UnionById(fss[i], fss[j])[a], FoldFacts(fss)), Version(UnionById(fss[i], fss[j])[b], FoldFacts(fss)))
  {
    var c, u := FoldFacts(fss), UnionById(fss[i], fss[j]);
    var x, y := Version(u[a], c), Version(u[b], c);
    var t := x.ts;
    FoldListsLatest(fss);
    OfLeaf(fss, i);
    OfLeaf(fss, j);
    ChainIsFirstPart(fss, i, t);
    ChainIsFirstPart(fss, j, t);
    UnionInLine(fss[i], fss[j], c, Gathered(fss), t, AtInstant(c, t));
    assert Settled(u, c)[a] == x && Settled(u, c)[b] == y;
    BeforeAtInstant(Settled(u, c), t, x, y);
    BeforeInPrefix(AtInstant(Settled(u, c), t), AtInstant(c, t), x, y);
    BeforeAtInstant(c, t, x, y);
  }

  lemma BeforeInPrefix(p: seq<Fact>, l: seq<Fact>, f: Fact, g: Fact)
    requires p <= l && Before(p, f, g)
    ensures Before(l, f, g)
  {
    var i, j :| 0 <= i < j < |p| && p[i] == f && p[j] == g;
    assert l[i] == f && l[j] == g;
  }

  lemma NotOvertaken(fss: seq<seq<Fact>>, i: nat, j: nat, a: nat, b: nat)
    requires OrderFixed(fss) && OneVersion(Winners(Gathered(fss))) && i < |fss| && j < |fss| && i != j
    requires a < b < |UnionById(fss[i], fss[j])|
    requires Version(UnionById(fss[i], fss[j])[a], FoldFacts(fss)).ts == Version(UnionById(fss[i], fss[j])[b], FoldFacts(fss)).ts
    ensures UnionById(fss[i], fss[j])[a].ts <= UnionById(fss[i], fss[j])[b].ts
  {
    var c, u := FoldFacts(fss), UnionById(fss[i], fss[j]);
    var x, y := Version(u[a], c), Version(u[b], c);
    FoldListsLatest(fss);
    UnionFollowsResult(fss, i, j, a, b);
    LastOfList(c, Gathered(fss), x, y);
    if u[b].ts < u[a].ts {
      SortPutsEarlierFirst(u, u[b], u[a]);
      OvertakenForGood(fss, i, j, u[b], a, x);
      NotBehind(c, x, y);
    }
  }

  /** An event sorted behind `f` by its older version stays there. */
  lemma OvertakenForGood(fss: seq<seq<Fact>>, i: nat, j: nat, f: Fact, a: nat, x: Fact)
    requires OrderFixed(fss) && i < |fss| && j < |fss| && i != j
    requires f in UnionById(fss[i], fss[j]) && a < |UnionById(fss[i], fss[j])| && UnionById(fss[i], fss[j])[a].body.id == x.body.id
    requires Last(Gathered(fss), f.body.id, x) && Before(MergeFacts(fss[i], fss[j]), f, UnionById(fss[i], fss[j])[a])
    ensures Behind(FoldFacts(fss), f.body.id, x)
  {
    var s, p, q := Gathered(fss), fss[i], fss[j];
    OfLeaf(fss, i);
    OfLeaf(fss, j);
    var rest := ToTheFront(fss, i, j);
    var h := InSomeLeaf(fss, x);
    if h == i || h == j {
      LatestInUnion(p, q, s, a, f.body.id, x);
      FoldOfTwo(p, q, rest);
      BehindInAll(fss, [p, q] + rest, 2, f.body.id, x);
    } else {
      var z := fss[h];
      var more := SecondToFront(rest, z);
      OfLeaf(fss, h);
      UnionHolds(p, q, s);
      CaughtUp(p, q, z, s, f, UnionById(p, q)[a], x);
      FoldOfThree(p, q, z, more);
      FrontOfThree(fss, p, q, z, rest, more);
      BehindInAll(fss, [p, q, z] + more, 3, f.body.id, x);
    }
  }

  lemma AnyOrderMeansUnambiguous(fss: seq<seq<Fact>>)
    requires OrderFixed(fss)
    ensures Unambiguous(fss)
  {
    var c := FoldFacts(fss);
    LastVersionsAgree(fss);
    forall i, j | 0 <= i < j < |fss| ensures InLine(Finals(fss, c)[i], Finals(fss, c)[j]) {
      forall t ensures Comparable(AtInstant(Settled(fss[i], c), t), AtInstant(Settled(fss[j], c), t)) {
        ChainIsFirstPart(fss, i, t);
        ChainIsFirstPart(fss, j, t);
      }
    }
    forall i, j | 0 <= i < |fss| && 0 <= j < |fss| && i != j ensures NoOvertaking(UnionById(fss[i], fss[j]), c) {
      var u := UnionById(fss[i], fss[j]);
      forall a, b | 0 <= a < b < |u| && Version(u[a], c).ts == Version(u[b], c).ts ensures u[a].ts <= u[b].ts {
        NotOvertaken(fss, i, j, a, b);
      }
    }
  }

  /** Any number of chains, whatever versions of their events they hold: every order of the arguments of `merge_event_chains`
      gives one result exactly when every order and every bracketing of pairwise merges gives it, and exactly when (1) no two
      chains hold different last versions of one event, (2) of any two chains with their events in last versions, at every
      instant the events of one are the first events of the other, and (3) in the union of any two chains no two events
      that end up at one instant stand out of time order. */
  lemma AnyOrderIff(fss: seq<seq<Fact>>)
    requires |fss| > 1 && AllDistinct(fss)
    ensures OrderIrrelevant(fss) <==> AnyMerge(fss)
    ensures OrderIrrelevant(fss) <==>
            && OneVersion(Winners(Gathered(fss)))
            && PairwiseInLine(Finals(fss, FoldFacts(fss)))
            && NoneOvertaken(fss, FoldFacts(fss))
  {
    if Unambiguous(fss) {
      forall t | Rearranged(fss, Leaves(t)) ensures Eval(t) == FoldFacts(fss) { UnambiguousMergesAlike(fss, t); }
    }
    if AnyMerge(fss) {
      forall gss | Rearranged(fss, gss) ensures FoldFacts(gss) == FoldFacts(fss) { TreeOfFold(gss); }
    }
    if OrderIrrelevant(fss) { AnyOrderMeansUnambiguous(fss); }
  }

  /** For chains that agree on the events they share only the second condition is left. */
  lemma AgreeingOrderIff(fss: seq<seq<Fact>>)
    requires |fss| > 1 && AllDistinct(fss) && OneVersion(Gathered(fss))
    ensures OrderIrrelevant(fss) <==> PairwiseInLine(fss)
  {
    var c, s := FoldFacts(fss), Gathered(fss);
    FoldListsLatest(fss);
    ListedIn(c, s);
    forall i | 0 <= i < |fss| ensures Settled(fss[i], c) == fss[i] {
      OfLeaf(fss, i);
      SettledAgreeingAll(fss[i], c, s);
    }
    assert Finals(fss, c) == fss;
    forall i, j | 0 <= i < |fss| && 0 <= j < |fss| ensures NoOvertaking(UnionById(fss[i], fss[j]), c) {
      OfLeaf(fss, i);
      OfLeaf(fss, j);
      UnionHolds(fss[i], fss[j], s);
      SettledAgreeingAll(UnionById(fss[i], fss[j]), c, s);
    }
    AnyOrderIff(fss);
  }

  lemma SettledAgreeingAll(fs: seq<Fact>, c: seq<Fact>, s: set<Fact>)
    requires OneVersion(s) && Set(fs) <= s && Set(c) <= s
    ensures Settled(fs, c) == fs && NoOvertaking(fs, c)
  {
    forall i | 0 <= i < |fs| ensures Version(fs[i], c) == fs[i] {
      var v := Version(fs[i], c);
      assert fs[i] in Set(fs) && (v in c ==> v in Set(c));
    }
  }

  // ----- the records, links and hashes included -----

  lemma SortedRecordsIff(H: Hasher, u: seq<Fact>, v: seq<Fact>)
    requires SortedBy(u, Earlier) && SortedBy(v, Earlier)
    ensures AppendAll(H, [], u) == AppendAll(H, [], v) <==> u == v
  {
    AppendAllFacts(H, u);
    AppendAllFacts(H, v);
  }

  lemma FoldIsSorted(fss: seq<seq<Fact>>)
    requires |fss| > 1
    ensures SortedBy(FoldFacts(fss), Earlier)
  {
    TreeOfFold(fss);
    NodeIsSorted(LeftTree(fss));
  }

  /** So it is for the written chains. */
  lemma RecordsInAnyOrderIff(H: Hasher, fss: seq<seq<Fact>>)
    requires |fss| > 1 && AllDistinct(fss)
    ensures (forall gss :: Rearranged(fss, gss) ==> AppendAll(H, [], FoldFacts(gss)) == AppendAll(H, [], FoldFacts(fss))) <==>
            && OneVersion(Winners(Gathered(fss)))
            && PairwiseInLine(Finals(fss, FoldFacts(fss)))
            && NoneOvertaken(fss, FoldFacts(fss))
  {
    AnyOrderIff(fss);
    FoldIsSorted(fss);
    forall gss | Rearranged(fss, gss)
      ensures AppendAll(H, [], FoldFacts(gss)) == AppendAll(H, [], FoldFacts(fss)) <==> FoldFacts(gss) == FoldFacts(fss)
    {
      RearrangedHolds(fss, gss);
      FoldIsSorted(gss);
      SortedRecordsIff(H, FoldFacts(gss), FoldFacts(fss));
    }
  }

  // ----- all merges of the same events -----

  ghost predicate DistinctTimes(s: set<Fact>) {
    forall f, g :: f in s && g in s && f.ts == g.ts ==> f == g
  }

  /** A merge, in any order and bracketing and with any repetition, of chains that hold exactly the facts `s` between them. */
  ghost predicate MergesAll(t: MergeTree, s: set<Fact>) { t.Node? && DistinctLeaves(t) && AllFacts(t) == s }

  /** Theorem 9: the merged records -- links and hashes included -- depend on the set of facts alone when no two surviving
      events share an instant. */
  lemma MergeOrderIsIrrelevant(H: Hasher, t: MergeTree, u: MergeTree, s: set<Fact>)
    requires MergesAll(t, s) && MergesAll(u, s) && DistinctTimes(Winners(s))
    ensures AppendAll(H, [], Eval(t)) == AppendAll(H, [], Eval(u))
  {
    EvalListsLatest(t);
    EvalListsLatest(u);
    WinnersListed(Eval(t), s);
    WinnersListed(Eval(u), s);
    SameSetSameElements(Eval(t), Eval(u));
    NodeIsSorted(t);
    NodeIsSorted(u);
    forall f, g | f in Eval(t) && g in Eval(t) && Earlier(f, g) && Earlier(g, f) ensures f == g {
      assert f in Set(Eval(t)) && g in Set(Eval(t));
    }
    SortedArrangementIsUnique(Eval(t), Eval(u), Earlier);
  }

  lemma {:induction false} TreeOver(s: set<Fact>) returns (t: MergeTree)
    ensures DistinctLeaves(t) && AllFacts(t) == s
    decreases s
  {
    if s == {} {
      t := Leaf([]);
    } else {
      var f :| f in s;
      var more := TreeOver(s - {f});
      t := Node(Leaf([f]), more);
    }
  }

  lemma OneAlone(f: Fact)
    ensures DistinctLeaves(Leaf([f])) && AllFacts(Leaf([f])) == {f} && Eval(Leaf([f])) == [f]
  {
  }

  /** The side merged last decides between two last versions of one event. */
  lemma LastSideDecides(more: MergeTree, s: set<Fact>, f: Fact)
    requires DistinctLeaves(more) && AllFacts(more) == s && f in Winners(s)
    ensures MergesAll(Node(more, Leaf([f])), s) && f in Eval(Node(more, Leaf([f])))
  {
    OneAlone(f);
    EvalListsLatest(more);
    ListedIn(Eval(more), s);
    NewcomerWins(Eval(more), [f], s, f);
  }

  function PairThen(x: Fact, y: Fact, more: MergeTree): MergeTree { Node(Node(Leaf([x]), Leaf([y])), more) }

  lemma PairThenHolds(x: Fact, y: Fact, more: MergeTree)
    requires DistinctLeaves(more) && x in AllFacts(more) && y in AllFacts(more)
    ensures MergesAll(PairThen(x, y, more), AllFacts(more))
    ensures Eval(PairThen(x, y, more)) == MergeFacts(MergeFacts([x], [y]), Eval(more))
  {
    var pair := Node(Leaf([x]), Leaf([y]));
    PairIs(x, y);
    assert PairThen(x, y, more) == Node(pair, more);
    assert {x, y} + AllFacts(more) == AllFacts(more);
  }

  lemma PairIs(x: Fact, y: Fact)
    ensures DistinctLeaves(Node(Leaf([x]), Leaf([y]))) && AllFacts(Node(Leaf([x]), Leaf([y]))) == {x, y}
    ensures Eval(Node(Leaf([x]), Leaf([y]))) == MergeFacts([x], [y])
  {
    OneAlone(x);
    OneAlone(y);
    assert AllFacts(Node(Leaf([x]), Leaf([y]))) == AllFacts(Leaf([x])) + AllFacts(Leaf([y]));
  }

  lemma WinnersLast(s: set<Fact>, x: Fact, y: Fact)
    requires x in Winners(s) && y in Winners(s) && OneVersion(Winners(s)) && x.ts == y.ts
    ensures Last(s, x.body.id, y)
  {
    assert Latest(s, x);
  }

  /** The side merged first decides between two events of one instant. */
  lemma FirstSideDecides(more: MergeTree, s: set<Fact>, x: Fact, y: Fact)
    requires DistinctLeaves(more) && AllFacts(more) == s && x in Winners(s) && y in Winners(s) && OneVersion(Winners(s))
    requires x.body.id != y.body.id && x.ts == y.ts
    ensures MergesAll(PairThen(x, y, more), s) && Behind(Eval(PairThen(x, y, more)), x.body.id, y)
  {
    PairThenHolds(x, y, more);
    EvalListsLatest(more);
    ListedIn(Eval(more), s);
    PairInOrder(x, y);
    PairHolds(x, y, s);
    WinnersLast(s, x, y);
    StaysBehind(MergeFacts([x], [y]), Eval(more), s, x.body.id, y);
  }

  lemma PairHolds(x: Fact, y: Fact, s: set<Fact>)
    requires x in s && y in s && x.body.id != y.body.id
    ensures DistinctIds(MergeFacts([x], [y])) && Set(MergeFacts([x], [y])) <= s
  {
    MergeIds([x], [y]);
    assert Set([x]) + Set([y]) <= s;
    ChainListsLatest([x]);
    ChainListsLatest([y]);
    MergeListsLatest([x], [y], Set([x]), Set([y]));
    ListedIn(MergeFacts([x], [y]), Set([x]) + Set([y]));
  }

  lemma PairInOrder(x: Fact, y: Fact)
    requires x.body.id != y.body.id && x.ts == y.ts
    ensures Behind(MergeFacts([x], [y]), x.body.id, y)
  {
    LaterOne([x], y);
    assert PutLater([x], y) == [x, y];
    SortTwo(x, y);
    assert [x, y][0].body.id == x.body.id && [x, y][1] == y;
  }

  /** All merges of the same facts give one chain exactly when no two surviving events share an instant. */
  lemma FactsDecideIff(H: Hasher, s: set<Fact>)
    ensures (forall t, u :: MergesAll(t, s) && MergesAll(u, s) ==> AppendAll(H, [], Eval(t)) == AppendAll(H, [], Eval(u)))
            <==> DistinctTimes(Winners(s))
  {
    if DistinctTimes(Winners(s)) {
      forall t, u | MergesAll(t, s) && MergesAll(u, s) ensures AppendAll(H, [], Eval(t)) == AppendAll(H, [], Eval(u)) {
        MergeOrderIsIrrelevant(H, t, u, s);
      }
    } else {
      var x, y :| x in Winners(s) && y in Winners(s) && x.ts == y.ts && x != y;
      var t, u := MergedApart(s, x, y);
      NodeIsSorted(t);
      NodeIsSorted(u);
      SortedRecordsIff(H, Eval(t), Eval(u));
    }
  }

  lemma VersionsApart(more: MergeTree, s: set<Fact>, f: Fact, g: Fact)
    requires DistinctLeaves(more) && AllFacts(more) == s && f in Winners(s) && g in Winners(s) && f.body.id == g.body.id && f != g
    ensures MergesAll(Node(more, Leaf([f])), s) && MergesAll(Node(more, Leaf([g])), s)
    ensures Eval(Node(more, Leaf([f]))) != Eval(Node(more, Leaf([g])))
  {
    LastSideDecides(more, s, f);
    LastSideDecides(more, s, g);
    EvalListsLatest(Node(more, Leaf([f])));
    VersionsDiffer(Eval(Node(more, Leaf([f]))), Eval(Node(more, Leaf([g]))), f, g);
  }

  lemma VersionsDiffer(u: seq<Fact>, v: seq<Fact>, f: Fact, g: Fact)
    requires DistinctIds(u) && f in u && g in v && f.body.id == g.body.id && f != g
    ensures u != v
  {
    forall h | h in u && h.body.id == f.body.id ensures h == f {
      var i :| 0 <= i < |u| && u[i] == h;
      var j :| 0 <= j < |u| && u[j] == f;
      SamePlace(u, i, j);
    }
  }

  lemma PlacesApart(more: MergeTree, s: set<Fact>, x: Fact, y: Fact)
    requires DistinctLeaves(more) && AllFacts(more) == s && x in Winners(s) && y in Winners(s) && OneVersion(Winners(s))
    requires x.body.id != y.body.id && x.ts == y.ts
    ensures MergesAll(PairThen(x, y, more), s) && MergesAll(PairThen(y, x, more), s)
    ensures Eval(PairThen(x, y, more)) != Eval(PairThen(y, x, more))
  {
    FirstSideDecides(more, s, x, y);
    FirstSideDecides(more, s, y, x);
    EvalListsLatest(PairThen(x, y, more));
    NotBehind(Eval(PairThen(x, y, more)), x, y);
  }

  /** Two merges that tell a tie apart. */
  lemma MergedApart(s: set<Fact>, x: Fact, y: Fact) returns (t: MergeTree, u: MergeTree)
    requires x in Winners(s) && y in Winners(s) && x.ts == y.ts && x != y
    ensures MergesAll(t, s) && MergesAll(u, s) && Eval(t) != Eval(u)
  {
    var more := TreeOver(s);
    if f, g :| f in Winners(s) && g in Winners(s) && f.body.id == g.body.id && f != g {
      VersionsApart(more, s, f, g);
      t, u := Node(more, Leaf([f])), Node(more, Leaf([g]));
    } else {
      PlacesApart(more, s, x, y);
      t, u := PairThen(x, y, more), PairThen(y, x, more);
    }
  }
}
