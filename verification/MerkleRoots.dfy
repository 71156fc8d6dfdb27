/** What a Merkle root fixes (adl_lite/merkle.py): the leaves as they are after repeating the last node of every odd level,
    down to a height that the root does not fix. */
module MerkleRoots {
  import opened Basics
  import opened Merkle

  // ----- the leaves with all repetitions written out -----

  /** Both children of every node, in order. */
  function Children(n: nat, ups: seq<nat>): (ps: seq<nat>)
    requires forall i :: 0 <= i < |ups| ==> ups[i] < Halved(n)
    ensures |ps| == 2 * |ups| && forall i :: 0 <= i < |ps| ==> ps[i] < n
    ensures forall i :: 0 <= i < |ups| ==> ps[2 * i] == Child(n, ups[i], OnRight) && ps[2 * i + 1] == Child(n, ups[i], OnLeft)
  {
    if ups == [] then []
    else
      var k := |ups| - 1;
      Children(n, ups[..k]) + [Child(n, ups[k], OnRight), Child(n, ups[k], OnLeft)]
  }

  /** Which leaf stands at each of the 2^height places of a tree over `n` leaves. */
  function Places(n: nat): (ps: seq<nat>)
    requires n > 0
    ensures |ps| == Pow2(Height(n)) && forall i :: 0 <= i < |ps| ==> ps[i] < n
  {
    if n == 1 then [0] else Children(n, Places(Halved(n)))
  }

  /** The leaves of the full binary tree that has the same inner nodes. */
  function Completed(level: seq<Bytes>): (full: seq<Bytes>)
    requires level != []
    ensures |full| == Pow2(Height(|level|))
  {
    seq(|Places(|level|)|, i requires 0 <= i < |Places(|level|)| => level[Places(|level|)[i]])
  }

  lemma PairOfChildren(level: seq<Bytes>, full: seq<Bytes>, j: nat, i: nat)
    requires j < Halved(|level|) && 2 * i + 1 < |full|
    requires full[2 * i] == level[Child(|level|, j, OnRight)] && full[2 * i + 1] == level[Child(|level|, j, OnLeft)]
    ensures Pair(full, i) == Pair(level, j)
  {
  }

  lemma PairOfCompleted(level: seq<Bytes>, i: nat)
    requires |level| > 1 && i < |Places(Halved(|level|))|
    ensures |Completed(level)| == 2 * |Places(Halved(|level|))|
    ensures Pair(Completed(level), i) == Pair(level, Places(Halved(|level|))[i])
  {
    var ups := Places(Halved(|level|));
    CompletedChildren(level, ups, i);
    PairOfChildren(level, Completed(level), ups[i], i);
  }

  lemma CompletedChildren(level: seq<Bytes>, ups: seq<nat>, i: nat)
    requires |level| > 1 && ups == Places(Halved(|level|)) && i < |ups|
    ensures |Completed(level)| == 2 * |ups|
    ensures Completed(level)[2 * i] == level[Child(|level|, ups[i], OnRight)]
    ensures Completed(level)[2 * i + 1] == level[Child(|level|, ups[i], OnLeft)]
  {
    var ps := Children(|level|, ups);
    assert Places(|level|) == ps;
    assert |ps| == 2 * |ups|;
    assert ps[2 * i] == Child(|level|, ups[i], OnRight) && ps[2 * i + 1] == Child(|level|, ups[i], OnLeft);
  }

  /** Completing and hashing a level up can be done in either order. */
  lemma NextOfCompleted(h: Sha, level: seq<Bytes>)
    requires |level| > 1
    ensures NextLevel(h, Completed(level)) == Completed(NextLevel(h, level)) && |Completed(level)| > 1
  {
    var ups := Places(Halved(|level|));
    PairOfCompleted(level, 0);
    forall i | 0 <= i < |ups| ensures NextLevel(h, Completed(level))[i] == Completed(NextLevel(h, level))[i] {
      PairOfCompleted(level, i);
      NextAt(h, Completed(level), i);
      NextAt(h, level, ups[i]);
    }
  }

  /** The repetitions change neither the root nor what is hashed. */
  lemma {:induction false} RootOfCompleted(h: Sha, level: seq<Bytes>)
    requires level != []
    ensures Completed(level) != [] && Root(h, Completed(level)) == Root(h, level)
    ensures TreeInputs(h, Completed(level)) <= TreeInputs(h, level)
    decreases |level|
  {
    if |level| == 1 {
      assert Completed(level) == level;
    } else {
      NextOfCompleted(h, level);
      RootOfCompleted(h, NextLevel(h, level));
      forall i | 0 <= i < Halved(|Completed(level)|) ensures Pair(Completed(level), i) in TreeInputs(h, level) {
        PairOfCompleted(level, i);
        PairIsInput(h, level, Places(Halved(|level|))[i]);
      }
    }
  }

  lemma CompletedIsDigests(level: seq<Bytes>)
    requires level != [] && AllDigests(level)
    ensures AllDigests(Completed(level))
  {
  }

  lemma EqualHeightRoots(h: Sha, a: seq<Bytes>, b: seq<Bytes>)
    requires a != [] && b != [] && AllDigests(a) && AllDigests(b) && Height(|a|) == Height(|b|)
    ensures Completed(a) == Completed(b) ==> Root(h, a) == Root(h, b)
    ensures Root(h, a) == Root(h, b) ==> Completed(a) == Completed(b) || CollisionIn(h, TreeInputs(h, a), TreeInputs(h, b))
  {
    RootOfCompleted(h, a);
    RootOfCompleted(h, b);
    if Root(h, a) == Root(h, b) {
      CompletedIsDigests(a);
      CompletedIsDigests(b);
      SameRootSameLevel(h, Completed(a), Completed(b));
      if CollisionIn(h, TreeInputs(h, Completed(a)), TreeInputs(h, Completed(b))) {
        CollisionWidens(h, TreeInputs(h, Completed(a)), TreeInputs(h, Completed(b)), TreeInputs(h, a), TreeInputs(h, b));
      }
    }
  }

  // ----- trees of different height -----

  /** The level of the tree that is `m` steps below its root. */
  function LevelAt(h: Sha, level: seq<Bytes>, m: nat): (up: seq<Bytes>)
    requires level != [] && m <= Height(|level|)
    ensures up != [] && Height(|up|) == m
    decreases |level|
  {
    if Height(|level|) == m then level else LevelAt(h, NextLevel(h, level), m)
  }

  lemma {:induction false} LevelKeepsRoot(h: Sha, level: seq<Bytes>, m: nat)
    requires level != [] && m <= Height(|level|)
    ensures Root(h, LevelAt(h, level, m)) == Root(h, level)
    ensures TreeInputs(h, LevelAt(h, level, m)) <= TreeInputs(h, level)
    ensures AllDigests(level) ==> AllDigests(LevelAt(h, level, m))
    decreases |level|
  {
    if Height(|level|) != m {
      NextIsDigests(h, level);
      LevelKeepsRoot(h, NextLevel(h, level), m);
      InputsGrow(h, level);
    }
  }

  function CommonHeight(a: seq<Bytes>, b: seq<Bytes>): nat {
    if Height(|a|) <= Height(|b|) then Height(|a|) else Height(|b|)
  }

  /** Two lists of digests have one root exactly when, at the height of the lower tree, their levels with all repetitions
      written out are the same -- or a collision shows. Nothing else is fixed: not how often a last node is repeated, and not
      whether what is at the bottom are leaves or inner nodes. */
  lemma SameRootIff(h: Sha, a: seq<Bytes>, b: seq<Bytes>)
    requires a != [] && b != [] && AllDigests(a) && AllDigests(b)
    ensures CollisionIn(h, TreeInputs(h, a), TreeInputs(h, b)) ||
            (Root(h, a) == Root(h, b) <==>
               Completed(LevelAt(h, a, CommonHeight(a, b))) == Completed(LevelAt(h, b, CommonHeight(a, b))))
  {
    var m := CommonHeight(a, b);
    var c, d := LevelAt(h, a, m), LevelAt(h, b, m);
    LevelKeepsRoot(h, a, m);
    LevelKeepsRoot(h, b, m);
    EqualHeightRoots(h, c, d);
    if CollisionIn(h, TreeInputs(h, c), TreeInputs(h, d)) {
      CollisionWidens(h, TreeInputs(h, c), TreeInputs(h, d), TreeInputs(h, a), TreeInputs(h, b));
    }
  }

  /** Any dump with the root of `leaves` is accepted exactly when, at the height of the lower of the two trees, its level is that
      of `leaves` once all repetitions are written out -- or a collision shows. An empty dump raises. */
  lemma DumpAcceptedIff(h: Sha, leaves: seq<Bytes>, dumped: seq<Bytes>)
    requires leaves != [] && AllDigests(leaves) && AllDigests(dumped)
    ensures dumped == [] ==> FromDict(h, dumped, Some(Root(h, leaves))) == Err(IndexOutOfRange)
    ensures dumped != [] ==>
              CollisionIn(h, TreeInputs(h, leaves), TreeInputs(h, dumped)) ||
              (FromDict(h, dumped, Some(Root(h, leaves))).Ok? <==>
                 var m := CommonHeight(leaves, dumped);
                 Completed(LevelAt(h, dumped, m)) == Completed(LevelAt(h, leaves, m)))
  {
    if dumped != [] { SameRootIff(h, leaves, dumped); }
  }

  /** The dump of the level above the leaves, which has the same root, is accepted as well. */
  lemma InnerLevelAccepted(h: Sha, leaves: seq<Bytes>, m: nat)
    requires leaves != [] && m <= Height(|leaves|)
    ensures FromDict(h, LevelAt(h, leaves, m), Some(Root(h, leaves))) == Ok(LevelAt(h, leaves, m))
  {
    LevelKeepsRoot(h, leaves, m);
  }
}
