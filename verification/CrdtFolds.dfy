/** `merge_event_chains` over any number of chains that agree on shared events (adl_lite/crdt.py): what the fold lists at each
    instant, and what it means that the order of the arguments does not matter. */
module CrdtFolds {
  import opened Basics
  import opened Events
  import opened Crdt
  import opened CrdtLaws

  // ----- what a fold lists at one instant -----

  lemma {:induction false} MinusSame(fs: seq<Fact>, known: set<string>, other: set<string>)
    requires forall f :: f in fs ==> (f.body.id in known <==> f.body.id in other)
    ensures Minus(fs, known) == Minus(fs, other)
  {
    if fs != [] {
      assert forall f :: f in fs[1..] ==> f in fs;
      MinusSame(fs[1..], known, other);
    }
  }

  /** Of the events of `z` at an instant, those known to `u` are the ones `u` lists there. */
  lemma KnownAtInstant(u: seq<Fact>, z: seq<Fact>, t: Time)
    requires OneVersion(Set(u) + Set(z))
    ensures Minus(AtInstant(z, t), FactIds(u)) == Minus(AtInstant(z, t), FactIds(AtInstant(u, t)))
  {
    forall f | f in AtInstant(z, t) ensures f.body.id in FactIds(u) <==> f.body.id in FactIds(AtInstant(u, t)) {
      AtInstantSelects(z, t, f);
      assert f in Set(u) + Set(z);
      if g :| g in u && g.body.id == f.body.id {
        assert g in Set(u) + Set(z);
        AtInstantSelects(u, t, g);
      }
      if g :| g in AtInstant(u, t) && g.body.id == f.body.id { AtInstantSelects(u, t, g); }
    }
    MinusSame(AtInstant(z, t), FactIds(u), FactIds(AtInstant(u, t)));
  }

  /** What one more list adds at an instant: what is not listed there yet. */
  lemma FoldAtInstant(fss: seq<seq<Fact>>, t: Time)
    requires |fss| > 1 && AllDistinct(fss) && OneVersion(Gathered(fss))
    ensures var p, z := AtInstant(FoldFacts(fss[..|fss| - 1]), t), AtInstant(fss[|fss| - 1], t);
      AtInstant(FoldFacts(fss), t) == p + Minus(z, FactIds(p))
  {
    var front, last := fss[..|fss| - 1], fss[|fss| - 1];
    FrontHolds(fss);
    SliceOfMerge(FoldFacts(front), last, t);
    KnownAtInstant(FoldFacts(front), last, t);
  }

  lemma FrontHolds(fss: seq<seq<Fact>>)
    requires |fss| > 1 && AllDistinct(fss) && OneVersion(Gathered(fss))
    ensures var front, last := fss[..|fss| - 1], fss[|fss| - 1];
      && AllDistinct(front) && OneVersion(Gathered(front)) && DistinctIds(last) && DistinctIds(FoldFacts(front))
      && OneVersion(Set(FoldFacts(front)) + Set(last))
  {
    var front, last := fss[..|fss| - 1], fss[|fss| - 1];
    assert fss == front + [last];
    GatheredOfConcat(front, [last]);
    assert last in [last] && Set(last) <= Gathered([last]);
    FoldHolds(front);
  }

  // ----- lists in line -----

  /** Each list is a first part of `l`, and one of them is `l`. */
  ghost predicate Longest(fss: seq<seq<Fact>>, t: Time, l: seq<Fact>) {
    && (exists i :: 0 <= i < |fss| && AtInstant(fss[i], t) == l)
    && forall i :: 0 <= i < |fss| ==> AtInstant(fss[i], t) <= l
  }

  ghost predicate LinedUp(fss: seq<seq<Fact>>, t: Time) {
    forall i, j :: 0 <= i < |fss| && 0 <= j < |fss| ==> Comparable(AtInstant(fss[i], t), AtInstant(fss[j], t))
  }

  lemma JoinInLine(p: seq<Fact>, z: seq<Fact>)
    requires DistinctIds(z) && Comparable(p, z)
    ensures p + Minus(z, FactIds(p)) == if z <= p then p else z
  {
    if z <= p {
      MinusOfAll(z, FactIds(p));
    } else {
      forall f | f in z[|p|..] ensures f.body.id !in FactIds(p) {
        IdsApart(z, |p|, f);
        assert z[..|p|] == p;
      }
      assert z == p + z[|p|..];
      MinusOfPart(p, z[|p|..], FactIds(p));
    }
  }

  /** Lists in line fold to the longest of them. */
  lemma {:induction false} FoldOfLinedUp(fss: seq<seq<Fact>>, t: Time)
    requires fss != [] && AllDistinct(fss) && OneVersion(Gathered(fss)) && LinedUp(fss, t)
    ensures Longest(fss, t, AtInstant(FoldFacts(fss), t))
  {
    var n := |fss| - 1;
    if n > 0 {
      var front := fss[..n];
      assert forall i :: 0 <= i < n ==> front[i] == fss[i];
      FrontHolds(fss);
      FoldOfLinedUp(front, t);
      FoldAtInstant(fss, t);
      var p, z := AtInstant(FoldFacts(front), t), AtInstant(fss[n], t);
      var i :| 0 <= i < n && AtInstant(front[i], t) == p;
      assert Comparable(AtInstant(fss[i], t), AtInstant(fss[n], t));
      AtInstantDistinct(fss[n], t);
      JoinInLine(p, z);
      StillLongest(fss, t, p, z);
    }
  }

  lemma StillLongest(fss: seq<seq<Fact>>, t: Time, p: seq<Fact>, z: seq<Fact>)
    requires |fss| > 1 && Longest(fss[..|fss| - 1], t, p) && AtInstant(fss[|fss| - 1], t) == z && Comparable(p, z)
    ensures Longest(fss, t, if z <= p then p else z)
  {
    var n := |fss| - 1;
    var i :| 0 <= i < n && AtInstant(fss[..n][i], t) == p;
    assert AtInstant(fss[i], t) == p;
    forall k | 0 <= k < |fss| ensures AtInstant(fss[k], t) <= if z <= p then p else z {
      if k < n { assert AtInstant(fss[..n][k], t) <= p; }
    }
  }

  // ----- any order of the arguments -----

  ghost predicate Rearranged(fss: seq<seq<Fact>>, gss: seq<seq<Fact>>) { gss != [] && multiset(fss) == multiset(gss) }

  /** Every order of the chains gives the same merged events. */
  ghost predicate OrderIrrelevant(fss: seq<seq<Fact>>)
    requires fss != []
  {
    forall gss :: Rearranged(fss, gss) ==> FoldFacts(gss) == FoldFacts(fss)
  }

  ghost predicate PairwiseInLine(fss: seq<seq<Fact>>) { forall i, j :: 0 <= i < j < |fss| ==> InLine(fss[i], fss[j]) }

  lemma RearrangedHolds(fss: seq<seq<Fact>>, gss: seq<seq<Fact>>)
    requires AllDistinct(fss) && Rearranged(fss, gss)
    ensures AllDistinct(gss) && Gathered(gss) == Gathered(fss) && |gss| == |fss| && forall fs :: fs in fss <==> fs in gss
  {
    SameElements(fss, gss);
    forall i | 0 <= i < |gss| ensures DistinctIds(gss[i]) { assert gss[i] in fss; }
    assert |multiset(fss)| == |fss| && |multiset(gss)| == |gss|;
  }

  lemma PairwiseLinesUp(fss: seq<seq<Fact>>, t: Time)
    requires PairwiseInLine(fss)
    ensures LinedUp(fss, t)
  {
    forall i, j | 0 <= i < |fss| && 0 <= j < |fss| ensures Comparable(AtInstant(fss[i], t), AtInstant(fss[j], t)) {
      if i < j { assert InLine(fss[i], fss[j]); } else if j < i { assert InLine(fss[j], fss[i]); }
    }
  }

  lemma BroughtToFront(fss: seq<seq<Fact>>, i: nat, j: nat) returns (rest: seq<seq<Fact>>)
    requires i < j < |fss|
    ensures Rearranged(fss, [fss[i], fss[j]] + rest) && Rearranged(fss, [fss[j], fss[i]] + rest)
    ensures forall h :: 0 <= h < |fss| && h != i && h != j ==> fss[h] in rest
  {
    var front, middle, back := fss[..i], fss[i + 1..j], fss[j + 1..];
    rest := front + middle + back;
    assert fss == front + [fss[i]] + middle + [fss[j]] + back;
    forall h | 0 <= h < |fss| && h != i && h != j ensures fss[h] in rest {
      assert fss[h] in (if h < i then front else if h < j then middle else back) by {
        if h < i { assert fss[h] == front[h]; }
        else if h < j { assert fss[h] == middle[h - i - 1]; }
        else { assert fss[h] == back[h - j - 1]; }
      }
    }
  }
}
