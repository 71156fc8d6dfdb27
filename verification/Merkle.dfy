/** Merkle trees (adl_lite/merkle.py): an odd level hashes its last node with itself; leaves carry no prefix.
    Completeness and soundness of inclusion proofs. */
module Merkle {
  import opened Basics

  newtype Byte = b: int | 0 <= b < 256

  type Bytes = seq<Byte>

  /** SHA-256: 32 bytes out. Nothing else is assumed. */
  type Sha = h: Bytes -> Bytes | forall b: Bytes :: |h(b)| == 32
    ghost witness (b: Bytes) => seq(32, i => 0)

  function HashPair(h: Sha, left: Bytes, right: Bytes): Bytes { h(left + right) }

  // ----- the levels -----

  /** The byte string hashed for pair `i`: an unpaired last node stands for its missing neighbour. */
  function Pair(level: seq<Bytes>, i: nat): Bytes
    requires i < Halved(|level|)
  {
    level[2 * i] + (if 2 * i + 1 < |level| then level[2 * i + 1] else level[2 * i])
  }

  function Halved(n: nat): (m: nat)
    ensures n > 1 ==> m < n
    ensures m == 0 <==> n == 0
    ensures 2 * m == n || 2 * m == n + 1
  {
    (n + 1) / 2
  }

  function NextLevel(h: Sha, level: seq<Bytes>): (next: seq<Bytes>)
    ensures |next| == Halved(|level|)
  {
    seq(Halved(|level|), i requires 0 <= i < Halved(|level|) => h(Pair(level, i)))
  }

  function Levels(h: Sha, level: seq<Bytes>): (ls: seq<seq<Bytes>>)
    ensures ls != [] && ls[0] == level
    decreases |level|
  {
    if |level| <= 1 then [level] else [level] + Levels(h, NextLevel(h, level))
  }

  function Root(h: Sha, level: seq<Bytes>): Bytes
    requires level != []
    decreases |level|
  {
    if |level| == 1 then level[0] else Root(h, NextLevel(h, level))
  }

  lemma {:induction false} TopLevelIsRoot(h: Sha, level: seq<Bytes>)
    requires level != []
    ensures Levels(h, level)[|Levels(h, level)| - 1] == [Root(h, level)]
    decreases |level|
  {
    if |level| > 1 {
      TopLevelIsRoot(h, NextLevel(h, level));
    }
  }

  // ----- proofs -----

  datatype Side = OnLeft | OnRight

  datatype MerkleProof = MerkleProof(leafIndex: int, leafHash: Bytes, siblings: seq<(Bytes, Side)>, root: Bytes)

  /** The sibling recorded for position `idx` of a level. */
  function Sibling(level: seq<Bytes>, idx: nat): (Bytes, Side)
    requires idx < |level|
  {
    if idx % 2 == 1 then (level[idx - 1], OnLeft)
    else if idx + 1 < |level| then (level[idx + 1], OnRight)
    else (level[idx], OnRight)
  }

  function Siblings(h: Sha, level: seq<Bytes>, idx: nat): seq<(Bytes, Side)>
    requires idx < |level|
    decreases |level|
  {
    if |level| == 1 then [] else [Sibling(level, idx)] + Siblings(h, NextLevel(h, level), idx / 2)
  }

  function ProofFor(h: Sha, leaves: seq<Bytes>, index: nat): MerkleProof
    requires index < |leaves|
  {
    MerkleProof(index, leaves[index], Siblings(h, leaves, index), Root(h, leaves))
  }

  /** The byte string that is hashed when `current` meets its sibling. */
  function Joined(current: Bytes, sibling: (Bytes, Side)): Bytes {
    if sibling.1 == OnLeft then sibling.0 + current else current + sibling.0
  }

  /** What `verify_proof` computes. */
  function Climb(h: Sha, current: Bytes, siblings: seq<(Bytes, Side)>): Bytes
    decreases |siblings|
  {
    if siblings == [] then current else Climb(h, h(Joined(current, siblings[0])), siblings[1..])
  }

  predicate Accepts(h: Sha, p: MerkleProof) { Climb(h, p.leafHash, p.siblings) == p.root }

  // ----- completeness -----

  function Pow2(n: nat): (p: nat)
    ensures p > 0
  {
    if n == 0 then 1 else 2 * Pow2(n - 1)
  }

  function Height(n: nat): nat { if n <= 1 then 0 else 1 + Height(Halved(n)) }

  /** 2^(h-1) < n <= 2^h */
  lemma {:induction false} HeightBounds(n: nat)
    requires n > 0
    ensures n <= Pow2(Height(n)) && (n > 1 ==> Pow2(Height(n) - 1) < n)
  {
    if n > 1 {
      HeightBounds(Halved(n));
    }
  }

  lemma SiblingCompletesPair(level: seq<Bytes>, idx: nat)
    requires idx < |level|
    ensures idx / 2 < Halved(|level|) && Joined(level[idx], Sibling(level, idx)) == Pair(level, idx / 2)
  {
    var i := idx / 2;
    assert idx == 2 * i || idx == 2 * i + 1;
  }

  lemma SiblingHashesUp(h: Sha, level: seq<Bytes>, idx: nat)
    requires idx < |level|
    ensures idx / 2 < |NextLevel(h, level)|
    ensures h(Joined(level[idx], Sibling(level, idx))) == NextLevel(h, level)[idx / 2]
  {
    var i := idx / 2;
    SiblingCompletesPair(level, idx);
    NextAt(h, level, i);
  }

  lemma NextAt(h: Sha, level: seq<Bytes>, i: nat)
    requires i < Halved(|level|)
    ensures NextLevel(h, level)[i] == h(Pair(level, i))
  {
  }

  lemma {:induction false} ClimbReachesRoot(h: Sha, level: seq<Bytes>, idx: nat)
    requires idx < |level|
    ensures Climb(h, level[idx], Siblings(h, level, idx)) == Root(h, level)
    ensures |Siblings(h, level, idx)| == Height(|level|)
    decreases |level|
  {
    if |level| > 1 {
      SiblingHashesUp(h, level, idx);
      ClimbReachesRoot(h, NextLevel(h, level), idx / 2);
    }
  }

  /** Every proof the tree makes is accepted, and it has one sibling for each level above the leaves. */
  lemma MerkleCompleteness(h: Sha, leaves: seq<Bytes>, index: nat)
    requires index < |leaves|
    ensures var p := ProofFor(h, leaves, index);
      && p.leafIndex == index && p.leafHash == leaves[index] && p.root == Root(h, leaves)
      && Accepts(h, p)
      && |leaves| <= Pow2(|p.siblings|) && (|leaves| > 1 ==> Pow2(|p.siblings| - 1) < |leaves|)
      && (|leaves| == 1 ==> p.siblings == [])
  {
    ClimbReachesRoot(h, leaves, index);
    HeightBounds(|leaves|);
  }

  // ----- the root and the sides, without the levels -----

  /** The tree over twice 2^k leaves hashes the root of the left half in front of the root of the right half. */
  lemma {:induction false} RootByHalves(h: Sha, a: seq<Bytes>, b: seq<Bytes>, k: nat)
    requires |a| == |b| == Pow2(k)
    ensures Root(h, a + b) == h(Root(h, a) + Root(h, b))
    decreases k
  {
    if k == 0 {
      assert a + b == [a[0], b[0]];
      NextAt(h, a + b, 0);
      assert Pair(a + b, 0) == a[0] + b[0];
    } else {
      NextOfHalves(h, a, b);
      RootByHalves(h, NextLevel(h, a), NextLevel(h, b), k - 1);
    }
  }

  lemma PairOfHalves(a: seq<Bytes>, b: seq<Bytes>, i: nat)
    requires |a| % 2 == 0 && i < Halved(|a + b|)
    ensures Halved(|a + b|) == Halved(|a|) + Halved(|b|)
    ensures Pair(a + b, i) == if i < Halved(|a|) then Pair(a, i) else Pair(b, i - Halved(|a|))
  {
    var m := Halved(|a|);
    assert 2 * m == |a|;
    if i >= m {
      assert (a + b)[2 * i] == b[2 * (i - m)];
      assert 2 * i + 1 < |a + b| ==> (a + b)[2 * i + 1] == b[2 * (i - m) + 1];
    }
  }

  lemma NextAtHalves(h: Sha, a: seq<Bytes>, b: seq<Bytes>, i: nat)
    requires |a| % 2 == 0 && i < Halved(|a + b|)
    ensures Halved(|a + b|) == Halved(|a|) + Halved(|b|)
    ensures NextLevel(h, a + b)[i] == if i < Halved(|a|) then NextLevel(h, a)[i] else NextLevel(h, b)[i - Halved(|a|)]
  {
    PairOfHalves(a, b, i);
    NextAt(h, a + b, i);
    if i < Halved(|a|) { NextAt(h, a, i); } else { NextAt(h, b, i - Halved(|a|)); }
  }

  lemma NextOfHalves(h: Sha, a: seq<Bytes>, b: seq<Bytes>)
    requires |a| % 2 == 0
    ensures NextLevel(h, a + b) == NextLevel(h, a) + NextLevel(h, b)
  {
    var x, y, z := NextLevel(h, a), NextLevel(h, b), NextLevel(h, a + b);
    assert |z| == |x| + |y|;
    forall i | 0 <= i < |z| ensures z[i] == (x + y)[i] { NextAtHalves(h, a, b, i); }
  }

  /** The k-th binary digit, from the right. */
  function BinaryDigit(n: nat, k: nat): nat { if k == 0 then n % 2 else BinaryDigit(n / 2, k - 1) }

  /** The sibling at height `k` is on the left exactly when the k-th binary digit of the index is one. */
  lemma {:induction false} SidesAreDigits(h: Sha, level: seq<Bytes>, idx: nat, k: nat)
    requires idx < |level| && k < |Siblings(h, level, idx)|
    ensures Siblings(h, level, idx)[k].1 == OnLeft <==> BinaryDigit(idx, k) == 1
    decreases k
  {
    SiblingsSplit(h, level, idx);
    if k > 0 {
      assert Siblings(h, level, idx)[k] == Siblings(h, NextLevel(h, level), idx / 2)[k - 1];
      SidesAreDigits(h, NextLevel(h, level), idx / 2, k - 1);
    } else {
      SideOf(level, idx);
    }
  }

  lemma SiblingsSplit(h: Sha, level: seq<Bytes>, idx: nat)
    requires idx < |level| && Siblings(h, level, idx) != []
    ensures idx / 2 < |NextLevel(h, level)|
    ensures Siblings(h, level, idx) == [Sibling(level, idx)] + Siblings(h, NextLevel(h, level), idx / 2)
  {
  }

  lemma SideOf(level: seq<Bytes>, idx: nat)
    requires idx < |level|
    ensures Sibling(level, idx).1 == OnLeft <==> idx % 2 == 1
  {
  }

  // ----- soundness -----

  /** The child of node `j` on a side, in a level of `n` nodes. */
  function Child(n: nat, j: nat, side: Side): (c: nat)
    requires j < Halved(n)
    ensures c < n
  {
    var c := 2 * j + (if side == OnLeft then 1 else 0);
    if c < n then c else c - 1
  }

  /** The leaf that a path of sides leads to in a tree of `n` leaves; a step to the right of the last node
      of an odd level stays on that node. */
  function Locate(n: nat, siblings: seq<(Bytes, Side)>): (i: nat)
    requires n > 0 && |siblings| == Height(n)
    ensures i < n
  {
    if n == 1 then 0
    else
      Child(n, Locate(Halved(n), siblings[1..]), siblings[0].1)
  }

  /** The byte strings hashed while building the tree. */
  function TreeInputs(h: Sha, level: seq<Bytes>): set<Bytes>
    requires level != []
    decreases |level|
  {
    if |level| == 1 then {}
    else (set i | 0 <= i < Halved(|level|) :: Pair(level, i)) + TreeInputs(h, NextLevel(h, level))
  }

  /** The byte strings hashed while checking a proof. */
  function ProofInputs(h: Sha, current: Bytes, siblings: seq<(Bytes, Side)>): set<Bytes>
    decreases |siblings|
  {
    if siblings == [] then {}
    else {Joined(current, siblings[0])} + ProofInputs(h, h(Joined(current, siblings[0])), siblings[1..])
  }

  /** The tree and the proof hash two different byte strings to one digest. */
  ghost predicate CollisionIn(h: Sha, xs: set<Bytes>, ys: set<Bytes>) {
    exists x, y :: x in xs && y in ys && x != y && h(x) == h(y)
  }

  ghost predicate AllDigests(level: seq<Bytes>) { forall i :: 0 <= i < |level| ==> |level[i]| == 32 }

  /** Two equal concatenations of a digest and something else have the same parts. */
  lemma SameParts(a: Bytes, b: Bytes, c: Bytes, d: Bytes)
    requires a + b == c + d && (|a| == |c| || |b| == |d|)
    ensures a == c && b == d
  {
    assert |a| + |b| == |a + b| == |c + d| == |c| + |d|;
    assert a == (a + b)[..|a|] == (c + d)[..|c|] == c;
    assert b == (a + b)[|a|..] == (c + d)[|c|..] == d;
  }

  /** One level down: if what was hashed is the pair of node `j`, the climbing value is its child. */
  lemma ChildOfPair(level: seq<Bytes>, current: Bytes, sibling: (Bytes, Side), j: nat)
    requires AllDigests(level) && |current| == 32 && j < Halved(|level|)
    requires Joined(current, sibling) == Pair(level, j)
    ensures current == level[Child(|level|, j, sibling.1)]
  {
    var left := level[2 * j];
    var right := if 2 * j + 1 < |level| then level[2 * j + 1] else left;
    assert |left| == 32 && |right| == 32;
    if sibling.1 == OnLeft {
      SameParts(sibling.0, current, left, right);
    } else {
      SameParts(current, sibling.0, left, right);
    }
  }

  lemma NextIsDigests(h: Sha, level: seq<Bytes>)
    ensures AllDigests(NextLevel(h, level))
  {
    forall i | 0 <= i < |NextLevel(h, level)| ensures |NextLevel(h, level)[i]| == 32 {
      assert NextLevel(h, level)[i] == h(Pair(level, i));
    }
  }

  lemma {:induction false} ClimbIsLocated(h: Sha, level: seq<Bytes>, current: Bytes, siblings: seq<(Bytes, Side)>)
    requires level != [] && AllDigests(level) && |current| == 32 && |siblings| == Height(|level|)
    requires Climb(h, current, siblings) == Root(h, level)
    ensures current == level[Locate(|level|, siblings)] || CollisionIn(h, TreeInputs(h, level), ProofInputs(h, current, siblings))
    decreases |level|
  {
    if |level| > 1 {
      var next := NextLevel(h, level);
      var up := h(Joined(current, siblings[0]));
      NextIsDigests(h, level);
      ClimbIsLocated(h, next, up, siblings[1..]);
      if CollisionIn(h, TreeInputs(h, next), ProofInputs(h, up, siblings[1..])) {
        CollisionGrows(h, level, current, siblings);
      } else {
        OneLevelDown(h, level, current, siblings, Locate(|next|, siblings[1..]));
      }
    }
  }

  lemma OneLevelDown(h: Sha, level: seq<Bytes>, current: Bytes, siblings: seq<(Bytes, Side)>, j: nat)
    requires |level| > 1 && siblings != [] && AllDigests(level) && |current| == 32 && j < Halved(|level|)
    requires h(Joined(current, siblings[0])) == NextLevel(h, level)[j]
    ensures current == level[Child(|level|, j, siblings[0].1)] || CollisionIn(h, TreeInputs(h, level), ProofInputs(h, current, siblings))
  {
    var x, y := Pair(level, j), Joined(current, siblings[0]);
    if x == y {
      ChildOfPair(level, current, siblings[0], j);
    } else {
      PairIsInput(h, level, j);
      assert y in ProofInputs(h, current, siblings);
      assert h(x) == h(y);
    }
  }

  lemma PairIsInput(h: Sha, level: seq<Bytes>, i: nat)
    requires |level| > 1 && i < Halved(|level|)
    ensures Pair(level, i) in TreeInputs(h, level)
  {
  }

  lemma InputsGrow(h: Sha, level: seq<Bytes>)
    requires |level| > 1
    ensures TreeInputs(h, NextLevel(h, level)) <= TreeInputs(h, level)
  {
  }

  lemma ProofInputsGrow(h: Sha, current: Bytes, siblings: seq<(Bytes, Side)>)
    requires siblings != []
    ensures ProofInputs(h, h(Joined(current, siblings[0])), siblings[1..]) <= ProofInputs(h, current, siblings)
  {
  }

  lemma CollisionWidens(h: Sha, xs: set<Bytes>, ys: set<Bytes>, us: set<Bytes>, vs: set<Bytes>)
    requires CollisionIn(h, xs, ys) && xs <= us && ys <= vs
    ensures CollisionIn(h, us, vs)
  {
    var x, y :| x in xs && y in ys && x != y && h(x) == h(y);
    assert x in us && y in vs;
  }

  lemma CollisionGrows(h: Sha, level: seq<Bytes>, current: Bytes, siblings: seq<(Bytes, Side)>)
    requires |level| > 1 && siblings != []
    requires CollisionIn(h, TreeInputs(h, NextLevel(h, level)), ProofInputs(h, h(Joined(current, siblings[0])), siblings[1..]))
    ensures CollisionIn(h, TreeInputs(h, level), ProofInputs(h, current, siblings))
  {
    var xs, ys := TreeInputs(h, NextLevel(h, level)), ProofInputs(h, h(Joined(current, siblings[0])), siblings[1..]);
    InputsGrow(h, level);
    ProofInputsGrow(h, current, siblings);
    CollisionWidens(h, xs, ys, TreeInputs(h, level), ProofInputs(h, current, siblings));
  }

  /** A proof as long as the tree is high, for a digest-sized leaf, is accepted against the tree's root only
      for the leaf at the position its sides spell out -- or it exhibits a collision of the hash. The
      recorded leaf index plays no part. */
  lemma MerkleSoundness(h: Sha, leaves: seq<Bytes>, p: MerkleProof)
    requires leaves != [] && AllDigests(leaves) && |p.leafHash| == 32 && |p.siblings| == Height(|leaves|)
    requires Accepts(h, p) && p.root == Root(h, leaves)
    ensures p.leafHash == leaves[Locate(|leaves|, p.siblings)]
            || CollisionIn(h, TreeInputs(h, leaves), ProofInputs(h, p.leafHash, p.siblings))
  {
    ClimbIsLocated(h, leaves, p.leafHash, p.siblings);
  }

  /** The sides of a proof made by the tree spell out its index. */
  lemma {:induction false} ProofSpellsIndex(h: Sha, level: seq<Bytes>, idx: nat)
    requires idx < |level|
    ensures |Siblings(h, level, idx)| == Height(|level|) && Locate(|level|, Siblings(h, level, idx)) == idx
    decreases |level|
  {
    ClimbReachesRoot(h, level, idx);
    if |level| > 1 {
      SiblingHashesUp(h, level, idx);
      ProofSpellsIndex(h, NextLevel(h, level), idx / 2);
      assert Siblings(h, level, idx)[1..] == Siblings(h, NextLevel(h, level), idx / 2);
    }
  }

  // ----- what a root determines -----

  lemma {:induction false} SameRootSameLevel(h: Sha, a: seq<Bytes>, b: seq<Bytes>)
    requires a != [] && |a| == |b| && AllDigests(a) && AllDigests(b) && Root(h, a) == Root(h, b)
    ensures a == b || CollisionIn(h, TreeInputs(h, a), TreeInputs(h, b))
    decreases |a|
  {
    if |a| > 1 {
      var c, d := NextLevel(h, a), NextLevel(h, b);
      NextIsDigests(h, a);
      NextIsDigests(h, b);
      SameRootSameLevel(h, c, d);
      if CollisionIn(h, TreeInputs(h, c), TreeInputs(h, d)) {
        TreeCollisionGrows(h, a, b);
      } else {
        SameParentsSameLevel(h, a, b);
      }
    }
  }

  lemma TreeCollisionGrows(h: Sha, a: seq<Bytes>, b: seq<Bytes>)
    requires |a| > 1 && |b| > 1 && CollisionIn(h, TreeInputs(h, NextLevel(h, a)), TreeInputs(h, NextLevel(h, b)))
    ensures CollisionIn(h, TreeInputs(h, a), TreeInputs(h, b))
  {
    InputsGrow(h, a);
    InputsGrow(h, b);
    CollisionWidens(h, TreeInputs(h, NextLevel(h, a)), TreeInputs(h, NextLevel(h, b)), TreeInputs(h, a), TreeInputs(h, b));
  }

  lemma SameParentsSameLevel(h: Sha, a: seq<Bytes>, b: seq<Bytes>)
    requires |a| > 1 && |a| == |b| && AllDigests(a) && AllDigests(b) && NextLevel(h, a) == NextLevel(h, b)
    ensures a == b || CollisionIn(h, TreeInputs(h, a), TreeInputs(h, b))
  {
    if !CollisionIn(h, TreeInputs(h, a), TreeInputs(h, b)) {
      forall i | 0 <= i < Halved(|a|) ensures Pair(a, i) == Pair(b, i) {
        assert NextLevel(h, a)[i] == h(Pair(a, i)) && NextLevel(h, b)[i] == h(Pair(b, i));
        PairIsInput(h, a, i);
        PairIsInput(h, b, i);
      }
      SamePairsSameLevel(a, b);
    }
  }

  lemma SamePairsSameLevel(a: seq<Bytes>, b: seq<Bytes>)
    requires |a| == |b| && AllDigests(a) && AllDigests(b)
    requires forall i :: 0 <= i < Halved(|a|) ==> Pair(a, i) == Pair(b, i)
    ensures a == b
  {
    forall k | 0 <= k < |a| ensures a[k] == b[k] { SamePairAt(a, b, k / 2, k); }
  }

  lemma SamePairAt(a: seq<Bytes>, b: seq<Bytes>, i: nat, k: nat)
    requires |a| == |b| && AllDigests(a) && AllDigests(b) && k < |a| && i == k / 2
    requires forall i :: 0 <= i < Halved(|a|) ==> Pair(a, i) == Pair(b, i)
    ensures a[k] == b[k]
  {
    assert k == 2 * i || k == 2 * i + 1;
    assert Pair(a, i) == Pair(b, i);
    var r, s := if 2 * i + 1 < |a| then a[2 * i + 1] else a[2 * i], if 2 * i + 1 < |b| then b[2 * i + 1] else b[2 * i];
    SameParts(a[2 * i], r, b[2 * i], s);
  }

  /** `from_dict` accepts a dump with a recorded root only if the root is recomputed from its leaves; so a
      dump with the root of `leaves` and as many leaves carries these leaves -- or a collision shows. */
  lemma DumpIsAuthentic(h: Sha, leaves: seq<Bytes>, dumped: seq<Bytes>)
    requires leaves != [] && |leaves| == |dumped| && AllDigests(leaves) && AllDigests(dumped)
    requires FromDict(h, dumped, Some(Root(h, leaves))).Ok?
    ensures dumped == leaves || CollisionIn(h, TreeInputs(h, leaves), TreeInputs(h, dumped))
  {
    SameRootSameLevel(h, leaves, dumped);
  }

  lemma PairKept(leaves: seq<Bytes>, i: nat)
    requires |leaves| % 2 == 1 && i < Halved(|leaves|) && Halved(|leaves| + 1) == Halved(|leaves|)
    ensures Pair(leaves + [leaves[|leaves| - 1]], i) == Pair(leaves, i)
  {
  }

  lemma NextOfRepeated(h: Sha, leaves: seq<Bytes>, longer: seq<Bytes>)
    requires |leaves| % 2 == 1 && longer == leaves + [leaves[|leaves| - 1]]
    ensures NextLevel(h, longer) == NextLevel(h, leaves)
  {
    assert Halved(|longer|) == Halved(|leaves|);
    forall i | 0 <= i < Halved(|leaves|) ensures NextLevel(h, longer)[i] == NextLevel(h, leaves)[i] {
      PairKept(leaves, i);
    }
  }

  /** The number of leaves is not determined: repeating the last of an odd number of leaves, at least
      three, keeps the root. */
  lemma RepeatedLastLeaf(h: Sha, leaves: seq<Bytes>)
    requires |leaves| % 2 == 1 && |leaves| > 1
    ensures Root(h, leaves + [leaves[|leaves| - 1]]) == Root(h, leaves)
  {
    NextOfRepeated(h, leaves, leaves + [leaves[|leaves| - 1]]);
  }

  datatype MerkleError = NoLeaves | IndexOutOfRange | RootMismatch

  /** Which leaves a dump restores. Without a recorded root nothing is compared; without leaves there is no root to compare. */
  function FromDict(h: Sha, leaves: seq<Bytes>, root: Option<Bytes>): Result<seq<Bytes>, MerkleError> {
    if root.None? then Ok(leaves)
    else if leaves == [] then Err(IndexOutOfRange)
    else if Root(h, leaves) != root.value then Err(RootMismatch)
    else Ok(leaves)
  }

  // ----- the tree object -----

  class MerkleTree {
    const h: Sha
    const leaves: seq<Bytes>
    const levels: seq<seq<Bytes>>

    ghost predicate Valid() { levels == Levels(h, leaves) }

    constructor (h: Sha, leaves: seq<Bytes>, levels: seq<seq<Bytes>>)
      requires levels == Levels(h, leaves)
      ensures Valid() && this.h == h && this.leaves == leaves
    {
      this.h := h;
      this.leaves := leaves;
      this.levels := levels;
    }

    function RootOf(): Bytes
      requires Valid() && leaves != []
      ensures RootOf() == Root(h, leaves)
    {
      TopLevelIsRoot(h, leaves);
      levels[|levels| - 1][0]
    }

    /** The inclusion proof of the leaf at `index`. */
    method Proof(index: int) returns (r: Result<MerkleProof, MerkleError>)
      requires Valid()
      ensures r == if 0 <= index < |leaves| then Ok(ProofFor(h, leaves, index)) else Err(IndexOutOfRange)
    {
      if !(0 <= index < |leaves|) {
        return Err(IndexOutOfRange);
      }
      var siblings: seq<(Bytes, Side)> := [];
      var idx: nat := index;
      assert levels[0..] == levels && [] + Siblings(h, leaves, index) == Siblings(h, leaves, index);
      for k := 0 to |levels| - 1
        invariant OnTheWay(h, leaves, index, levels, k, idx, siblings)
      {
        OneLevelUp(h, leaves, index, levels, k, idx, siblings);
        var s := SiblingAt(levels[k], idx);
        siblings := siblings + [s];
        idx := idx / 2;
      }
      AtTheTop(h, leaves, index, levels, idx, siblings);
      r := Ok(MerkleProof(index, leaves[index], siblings, RootOf()));
    }
  }

  /** What is collected so far and what is still to come make up the proof. */
  ghost predicate OnTheWay(h: Sha, leaves: seq<Bytes>, index: nat, levels: seq<seq<Bytes>>, k: nat, idx: nat, siblings: seq<(Bytes, Side)>)
    requires index < |leaves|
  {
    && k < |levels| && idx < |levels[k]|
    && levels[k..] == Levels(h, levels[k])
    && siblings + Siblings(h, levels[k], idx) == Siblings(h, leaves, index)
  }

  lemma LevelsTail(h: Sha, levels: seq<seq<Bytes>>, k: nat)
    requires k < |levels| - 1 && levels[k] != [] && levels[k..] == Levels(h, levels[k])
    ensures |levels[k]| > 1 && levels[k + 1] == NextLevel(h, levels[k]) && levels[k + 1..] == Levels(h, levels[k + 1])
  {
    assert |levels[k..]| > 1;
    assert levels[k..][1..] == levels[k + 1..] && levels[k..][1] == levels[k + 1];
  }

  lemma OneLevelUp(h: Sha, leaves: seq<Bytes>, index: nat, levels: seq<seq<Bytes>>, k: nat, idx: nat, siblings: seq<(Bytes, Side)>)
    requires index < |leaves| && k < |levels| - 1 && OnTheWay(h, leaves, index, levels, k, idx, siblings)
    ensures OnTheWay(h, leaves, index, levels, k + 1, idx / 2, siblings + [Sibling(levels[k], idx)])
  {
    var up := idx / 2;
    LevelsTail(h, levels, k);
    SiblingCompletesPair(levels[k], idx);
    var s, rest := Sibling(levels[k], idx), Siblings(h, levels[k + 1], up);
    assert Siblings(h, levels[k], idx) == [s] + rest;
    assert siblings + ([s] + rest) == (siblings + [s]) + rest;
  }

  lemma AtTheTop(h: Sha, leaves: seq<Bytes>, index: nat, levels: seq<seq<Bytes>>, idx: nat, siblings: seq<(Bytes, Side)>)
    requires index < |leaves| && levels != [] && OnTheWay(h, leaves, index, levels, |levels| - 1, idx, siblings)
    ensures siblings == Siblings(h, leaves, index)
  {
    assert |levels[|levels| - 1..]| == 1;
    assert siblings + [] == siblings;
  }

  method SiblingAt(level: seq<Bytes>, idx: nat) returns (s: (Bytes, Side))
    requires idx < |level|
    ensures s == Sibling(level, idx)
  {
    var siblingIdx, side;
    if idx % 2 == 0 {
      siblingIdx, side := idx + 1, OnRight;
    } else {
      siblingIdx, side := idx - 1, OnLeft;
    }
    if siblingIdx < |level| {
      s := (level[siblingIdx], side);
    } else {
      s := (level[idx], OnRight);
    }
  }

  /** One level up, pair by pair. */
  method HashLevel(h: Sha, level: seq<Bytes>) returns (next: seq<Bytes>)
    ensures next == NextLevel(h, level)
  {
    next := [];
    var i := 0;
    while i < |level|
      invariant i == 2 * |next| && |next| <= Halved(|level|)
      invariant forall k :: 0 <= k < |next| ==> next[k] == h(Pair(level, k))
    {
      var left := level[i];
      var right := if i + 1 < |level| then level[i + 1] else left;
      assert left + right == Pair(level, |next|);
      next := next + [HashPair(h, left, right)];
      i := i + 2;
    }
  }

  /** `_build` */
  method Build(h: Sha, leaves: seq<Bytes>) returns (levels: seq<seq<Bytes>>)
    ensures levels == Levels(h, leaves)
  {
    levels := [leaves];
    var current := leaves;
    while |current| > 1
      invariant levels + Levels(h, current)[1..] == Levels(h, leaves)
      decreases |current|
    {
      var next := HashLevel(h, current);
      assert levels + Levels(h, current)[1..] == (levels + [next]) + Levels(h, next)[1..];
      current := next;
      levels := levels + [current];
    }
  }

  method NewTree(h: Sha, leaves: seq<Bytes>) returns (r: Result<MerkleTree, MerkleError>)
    ensures r.Err? <==> leaves == []
    ensures r.Ok? ==> fresh(r.value) && r.value.Valid() && r.value.h == h && r.value.leaves == leaves
  {
    if leaves == [] {
      return Err(NoLeaves);
    }
    var levels := Build(h, leaves);
    var tree := new MerkleTree(h, leaves, levels);
    r := Ok(tree);
  }

  method VerifyProof(h: Sha, p: MerkleProof) returns (ok: bool)
    ensures ok == Accepts(h, p)
  {
    var current := p.leafHash;
    for i := 0 to |p.siblings|
      invariant Climb(h, current, p.siblings[i..]) == Climb(h, p.leafHash, p.siblings)
    {
      var (sibling, side) := p.siblings[i];
      assert p.siblings[i..][1..] == p.siblings[i + 1..];
      if side == OnLeft {
        current := HashPair(h, sibling, current);
      } else {
        current := HashPair(h, current, sibling);
      }
    }
    ok := current == p.root;
  }

  /** Rebuilds the levels from the dumped leaves and compares the root, when one was dumped. */
  method TreeFromDict(h: Sha, leaves: seq<Bytes>, root: Option<Bytes>) returns (r: Result<MerkleTree, MerkleError>)
    ensures r.Ok? <==> root.None? || (leaves != [] && root.value == Root(h, leaves))
    ensures r.Ok? ==> fresh(r.value) && r.value.Valid() && r.value.h == h && r.value.leaves == leaves
    ensures r.Err? ==> r == Err(if leaves == [] then IndexOutOfRange else RootMismatch)
  {
    var levels := Build(h, leaves);
    var tree := new MerkleTree(h, leaves, levels);
    if root.Some? {
      if leaves == [] {
        return Err(IndexOutOfRange);
      }
      if tree.RootOf() != root.value {
        return Err(RootMismatch);
      }
    }
    r := Ok(tree);
  }
}
