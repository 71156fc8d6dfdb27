/** Option and result types, the lexicographic string order, and the stable sort that
    stands for Python's `sorted`. */
module Basics {

  datatype Option<+T> = None | Some(value: T)

  datatype Result<+T, +E> = Ok(value: T) | Err(error: E)

  function Max(a: int, b: int): int { if a >= b then a else b }

  function MaxReal(a: real, b: real): real { if a >= b then a else b }

  function MinReal(a: real, b: real): real { if a <= b then a else b }

  /** Into the interval from 0 to 1. */
  function Clamp(x: real): real { if x < 0.0 then 0.0 else if x > 1.0 then 1.0 else x }

  /** `y` is `x`, cut to the interval from 0 to 1. */
  predicate CutTo(x: real, y: real) { 0.0 <= y <= 1.0 && (0.0 <= x <= 1.0 ==> y == x) && (x < 0.0 ==> y == 0.0) && (x > 1.0 ==> y == 1.0) }

  lemma TakeSnoc<T>(s: seq<T>, i: nat)
    requires i < |s|
    ensures s[..i + 1] == s[..i] + [s[i]] && s[..i + 1][..i] == s[..i]
  {
  }

  lemma JoinIsAssociative<T>(x: seq<T>, y: seq<T>, z: seq<T>)
    ensures x + (y + z) == (x + y) + z
  {
  }

  // ----- orders -----

  ghost predicate TotalPreorder<T(!new)>(le: (T, T) -> bool) {
    && (forall x, y :: le(x, y) || le(y, x))
    && (forall x, y, z :: le(x, y) && le(y, z) ==> le(x, z))
  }

  /** Python compares strings by code point, position by position. */
  predicate StringLe(a: string, b: string) {
    if a == [] then true
    else if b == [] then false
    else if a[0] != b[0] then a[0] < b[0]
    else StringLe(a[1..], b[1..])
  }

  lemma {:induction false} StringLeTotal(a: string, b: string)
    ensures StringLe(a, b) || StringLe(b, a)
    ensures StringLe(a, b) && StringLe(b, a) ==> a == b
  {
    if a != [] && b != [] && a[0] == b[0] {
      StringLeTotal(a[1..], b[1..]);
      assert a == [a[0]] + a[1..] && b == [b[0]] + b[1..];
    }
  }

  lemma {:induction false} StringLeTransitive(a: string, b: string, c: string)
    requires StringLe(a, b) && StringLe(b, c)
    ensures StringLe(a, c)
  {
    if a != [] && b != [] && c != [] && a[0] == b[0] == c[0] {
      StringLeTransitive(a[1..], b[1..], c[1..]);
    }
  }

  // ----- stable sort -----

  ghost predicate SortedBy<T>(xs: seq<T>, le: (T, T) -> bool) {
    forall i, j :: 0 <= i < j < |xs| ==> le(xs[i], xs[j])
  }

  /** Puts `x` in front of the first element it may precede. */
  function Insert<T>(x: T, xs: seq<T>, le: (T, T) -> bool): seq<T> {
    if xs == [] then [x]
    else if le(x, xs[0]) then [x] + xs
    else [xs[0]] + Insert(x, xs[1..], le)
  }

  /** Stable: an earlier element is inserted in front of the equal ones that came later. */
  function SortBy<T>(xs: seq<T>, le: (T, T) -> bool): seq<T> {
    if xs == [] then [] else Insert(xs[0], SortBy(xs[1..], le), le)
  }

  lemma {:induction false} InsertKeepsElements<T>(x: T, xs: seq<T>, le: (T, T) -> bool)
    ensures multiset(Insert(x, xs, le)) == multiset(xs) + multiset{x}
    ensures |Insert(x, xs, le)| == |xs| + 1
  {
    if xs == [] {
    } else {
      assert xs == [xs[0]] + xs[1..];
      if !le(x, xs[0]) { InsertKeepsElements(x, xs[1..], le); }
    }
  }

  lemma {:induction false} SortKeepsElements<T>(xs: seq<T>, le: (T, T) -> bool)
    ensures multiset(SortBy(xs, le)) == multiset(xs)
    ensures |SortBy(xs, le)| == |xs|
  {
    if xs == [] {
    } else {
      assert xs == [xs[0]] + xs[1..];
      SortKeepsElements(xs[1..], le);
      InsertKeepsElements(xs[0], SortBy(xs[1..], le), le);
    }
  }

  lemma {:induction false} InsertSorts<T(!new)>(x: T, xs: seq<T>, le: (T, T) -> bool)
    requires TotalPreorder(le) && SortedBy(xs, le)
    ensures SortedBy(Insert(x, xs, le), le)
  {
    if xs == [] || le(x, xs[0]) {
    } else {
      var tail := Insert(x, xs[1..], le);
      InsertSorts(x, xs[1..], le);
      InsertKeepsElements(x, xs[1..], le);
      forall k | 0 <= k < |tail| ensures le(xs[0], tail[k]) {
        assert tail[k] in multiset(tail);
        assert tail[k] in multiset(xs[1..]) || tail[k] == x;
      }
    }
  }

  lemma {:induction false} SortSorts<T(!new)>(xs: seq<T>, le: (T, T) -> bool)
    requires TotalPreorder(le)
    ensures SortedBy(SortBy(xs, le), le)
  {
    if xs == [] {
    } else {
      SortSorts(xs[1..], le);
      InsertSorts(xs[0], SortBy(xs[1..], le), le);
    }
  }

  /** A sorted sequence is left alone. */
  lemma {:induction false} SortOfSorted<T>(xs: seq<T>, le: (T, T) -> bool)
    requires SortedBy(xs, le)
    ensures SortBy(xs, le) == xs
  {
    if xs == [] {
    } else {
      SortOfSorted(xs[1..], le);
      assert |xs| > 1 ==> le(xs[0], xs[1]);
    }
  }

  lemma HeadsAgree<T(!new)>(xs: seq<T>, ys: seq<T>, le: (T, T) -> bool)
    requires xs != [] && ys != [] && multiset(xs) == multiset(ys)
    requires SortedBy(xs, le) && SortedBy(ys, le)
    requires forall x, y :: x in xs && y in xs && le(x, y) && le(y, x) ==> x == y
    ensures xs[0] == ys[0]
  {
    assert xs[0] in multiset(ys) && ys[0] in multiset(xs);
    var i :| 0 <= i < |ys| && ys[i] == xs[0];
    var j :| 0 <= j < |xs| && xs[j] == ys[0];
    assert i > 0 ==> le(ys[0], ys[i]);
    assert j > 0 ==> le(xs[0], xs[j]);
  }

  lemma DropHead<T>(xs: seq<T>)
    requires xs != []
    ensures multiset(xs[1..]) == multiset(xs) - multiset{xs[0]}
    ensures xs == [xs[0]] + xs[1..]
    ensures forall x :: x in xs[1..] ==> x in xs
  {
    assert xs == [xs[0]] + xs[1..];
  }

  lemma DropAt<T>(xs: seq<T>, i: nat)
    requires i < |xs|
    ensures multiset(xs[..i] + xs[i + 1..]) == multiset(xs) - multiset{xs[i]}
    ensures xs == xs[..i] + [xs[i]] + xs[i + 1..]
  {
    assert xs == xs[..i] + [xs[i]] + xs[i + 1..];
  }

  lemma OnceByKey<T, K>(u: seq<T>, k: nat, key: T -> K)
    requires k < |u| && forall i, j :: 0 <= i < j < |u| ==> key(u[i]) != key(u[j])
    ensures multiset(u)[u[k]] == 1
  {
    assert u == u[..k] + [u[k]] + u[k + 1..];
    assert u[k] !in u[..k] && u[k] !in u[k + 1..];
  }

  lemma TwiceInMultiset<T>(v: seq<T>, i: nat, j: nat)
    requires i < j < |v| && v[i] == v[j]
    ensures multiset(v)[v[i]] >= 2
  {
    assert v == v[..i] + [v[i]] + v[i + 1..j] + [v[j]] + v[j + 1..];
  }

  /** Rearranging elements with distinct keys keeps the keys distinct. */
  lemma DistinctKeysRearranged<T, K>(u: seq<T>, v: seq<T>, key: T -> K)
    requires multiset(u) == multiset(v)
    requires forall i, j :: 0 <= i < j < |u| ==> key(u[i]) != key(u[j])
    ensures forall i, j :: 0 <= i < j < |v| ==> key(v[i]) != key(v[j])
  {
    forall i, j | 0 <= i < j < |v| && key(v[i]) == key(v[j]) ensures false {
      assert v[i] in multiset(u) && v[j] in multiset(u);
      var k :| 0 <= k < |u| && u[k] == v[i];
      var l :| 0 <= l < |u| && u[l] == v[j];
      assert k == l;
      OnceByKey(u, k, key);
      TwiceInMultiset(v, i, j);
    }
  }

  lemma SameElements<T>(u: seq<T>, v: seq<T>)
    requires multiset(u) == multiset(v)
    ensures forall x :: x in u <==> x in v
  {
    assert forall x :: x in u <==> x in multiset(u);
    assert forall x :: x in v <==> x in multiset(v);
  }

  /** Two sorted arrangements of the same elements agree when no two different elements tie. */
  lemma {:induction false} SortedArrangementIsUnique<T(!new)>(xs: seq<T>, ys: seq<T>, le: (T, T) -> bool)
    requires multiset(xs) == multiset(ys)
    requires SortedBy(xs, le) && SortedBy(ys, le)
    requires forall x, y :: x in xs && y in xs && le(x, y) && le(y, x) ==> x == y
    ensures xs == ys
  {
    if xs == [] || ys == [] {
      assert |multiset(xs)| == |xs| && |multiset(ys)| == |ys|;
    } else {
      HeadsAgree(xs, ys, le);
      DropHead(xs);
      DropHead(ys);
      SortedArrangementIsUnique(xs[1..], ys[1..], le);
    }
  }

  // ----- projections: sorting objects by a value read from them beforehand -----

  function Firsts<A, B>(ps: seq<(A, B)>): seq<A> { seq(|ps|, i requires 0 <= i < |ps| => ps[i].0) }

  function Seconds<A, B>(ps: seq<(A, B)>): seq<B> { seq(|ps|, i requires 0 <= i < |ps| => ps[i].1) }

  function OnFirst<A, B>(le: (A, A) -> bool): ((A, B), (A, B)) -> bool { (p: (A, B), q: (A, B)) => le(p.0, q.0) }

  lemma {:induction false} InsertOnFirst<A, B>(p: (A, B), ps: seq<(A, B)>, le: (A, A) -> bool)
    ensures Firsts(Insert(p, ps, OnFirst(le))) == Insert(p.0, Firsts(ps), le)
  {
    if ps == [] {
    } else {
      assert Firsts(ps)[1..] == Firsts(ps[1..]);
      if !le(p.0, ps[0].0) { InsertOnFirst(p, ps[1..], le); }
    }
  }

  lemma {:induction false} SortOnFirst<A, B>(ps: seq<(A, B)>, le: (A, A) -> bool)
    ensures Firsts(SortBy(ps, OnFirst(le))) == SortBy(Firsts(ps), le)
  {
    if ps == [] {
    } else {
      SortOnFirst(ps[1..], le);
      InsertOnFirst(ps[0], SortBy(ps[1..], OnFirst(le)), le);
      assert Firsts(ps)[1..] == Firsts(ps[1..]);
    }
  }

  lemma SecondsOfConcat<A, B>(p: seq<(A, B)>, q: seq<(A, B)>)
    ensures Seconds(p + q) == Seconds(p) + Seconds(q)
  {
  }

  lemma SecondsDropAt<A, B>(q: seq<(A, B)>, i: nat)
    requires i < |q|
    ensures multiset(Seconds(q)) == multiset(Seconds(q[..i] + q[i + 1..])) + multiset{q[i].1}
  {
    var front, back := q[..i], q[i + 1..];
    assert q == front + ([q[i]] + back);
    SecondsOfConcat(front, [q[i]] + back);
    SecondsOfConcat([q[i]], back);
    SecondsOfConcat(front, back);
    assert Seconds([q[i]]) == [q[i].1];
  }

  lemma {:induction false} SecondsKeepElements<A, B>(p: seq<(A, B)>, q: seq<(A, B)>)
    requires multiset(p) == multiset(q)
    ensures multiset(Seconds(p)) == multiset(Seconds(q))
  {
    if p == [] {
      assert |multiset(p)| == |p| && |multiset(q)| == |q|;
    } else {
      assert p[0] in multiset(q);
      var i :| 0 <= i < |q| && q[i] == p[0];
      DropHead(p);
      DropAt(q, i);
      SecondsKeepElements(p[1..], q[..i] + q[i + 1..]);
      SecondsDropAt(q, i);
      SecondsDropAt(p, 0);
      assert p[..0] + p[1..] == p[1..];
    }
  }
}
