/** The hash chain (adl_lite/models.py: `Event._compute_hash` and axioms 1, 3, 4 and 11): the hash of
    the last event fixes the whole history, up to an exhibited collision of the hash. */
module TailHash {
  import opened Basics
  import opened Events
  import opened HashedFields

  function Contents(rs: seq<Record>): seq<Content> {
    seq(|rs|, i requires 0 <= i < |rs| => ContentOf(rs[i]))
  }

  /** Some content of `a` and some different content of `b` have one hash. */
  ghost predicate CollisionBetween(H: Hasher, a: seq<Record>, b: seq<Record>) {
    exists x, y :: x in Contents(a) && y in Contents(b) && Collision(H, x, y)
  }

  /** The record at `i` is hashed, and points at its predecessor and at its predecessor's hash. */
  ghost predicate HashLinkedAt(H: Hasher, rs: seq<Record>, i: nat)
    requires i < |rs|
  {
    && rs[i].hash == ComputeHash(H, rs[i])
    && (if i == 0 then rs[0].prevId == None
        else rs[i].prevId == Some(rs[i - 1].Id()) && rs[i].prevHash == rs[i - 1].hash)
  }

  ghost predicate HashLinked(H: Hasher, rs: seq<Record>) {
    forall i :: 0 <= i < |rs| ==> HashLinkedAt(H, rs, i)
  }

  lemma VerifiedIsHashLinked(H: Hasher, concept: string, rs: seq<Record>)
    requires WellFormed(H, concept, rs) && !HasArchive(rs)
    ensures HashLinked(H, rs)
  {
    forall i | 0 <= i < |rs| ensures HashLinkedAt(H, rs, i) {
      assert Axiom1(rs) && Axiom3(rs) && Axiom4(H, rs);
      assert rs[i].hash == ComputeHash(H, rs[i]);
    }
  }

  lemma HashLinkedPrefix(H: Hasher, rs: seq<Record>, n: nat)
    requires HashLinked(H, rs) && n <= |rs|
    ensures HashLinked(H, rs[..n])
  {
    forall i | 0 <= i < n ensures HashLinkedAt(H, rs[..n], i) { assert HashLinkedAt(H, rs, i); }
  }

  lemma CollisionInLonger(H: Hasher, a: seq<Record>, b: seq<Record>)
    requires a != [] && b != [] && CollisionBetween(H, a[..|a| - 1], b[..|b| - 1])
    ensures CollisionBetween(H, a, b)
  {
    var x, y :| x in Contents(a[..|a| - 1]) && y in Contents(b[..|b| - 1]) && Collision(H, x, y);
    assert Contents(a) == Contents(a[..|a| - 1]) + [ContentOf(a[|a| - 1])];
    assert Contents(b) == Contents(b[..|b| - 1]) + [ContentOf(b[|b| - 1])];
    assert x in Contents(a) && y in Contents(b);
  }

  lemma {:induction false} SameTailSameContents(H: Hasher, a: seq<Record>, b: seq<Record>)
    requires HashLinked(H, a) && HashLinked(H, b) && a != [] && b != []
    requires a[|a| - 1].hash == b[|b| - 1].hash
    ensures Contents(a) == Contents(b) || CollisionBetween(H, a, b)
  {
    var m, n := |a| - 1, |b| - 1;
    var x, y := ContentOf(a[m]), ContentOf(b[n]);
    assert Contents(a)[m] == x && Contents(b)[n] == y;
    assert HashLinkedAt(H, a, m) && HashLinkedAt(H, b, n);
    if x != y {
      assert Collision(H, x, y);
    } else {
      // equal contents have equal links: both are genesis events or neither is
      if m > 0 {
        HashLinkedPrefix(H, a, m);
        HashLinkedPrefix(H, b, n);
        SameTailSameContents(H, a[..m], b[..n]);
        assert Contents(a) == Contents(a[..m]) + [x] && Contents(b) == Contents(b[..n]) + [y];
        if CollisionBetween(H, a[..m], b[..n]) { CollisionInLonger(H, a, b); }
      }
    }
  }

  lemma SameContentsSameHistory(a: seq<Record>, b: seq<Record>)
    ensures Contents(a) == Contents(b) <==> SameHistory(a, b)
  {
    assert |Contents(a)| == |a| && |Contents(b)| == |b|;
    if |a| == |b| {
      forall i | 0 <= i < |a| ensures Contents(a)[i] == Contents(b)[i] <==> SameHashed(a[i], b[i]) { HashCoversIff(a[i], b[i]); }
    }
  }

  /** Two hash-linked lists that end in the same hash have the same history: as many events, agreeing in every hashed field. */
  lemma SameTailSameHistory(H: Hasher, a: seq<Record>, b: seq<Record>)
    requires HashLinked(H, a) && HashLinked(H, b) && a != [] && b != []
    requires a[|a| - 1].hash == b[|b| - 1].hash
    ensures SameHistory(a, b) || CollisionBetween(H, a, b)
  {
    SameTailSameContents(H, a, b);
    SameContentsSameHistory(a, b);
  }

  /** Two archive-free chains that verify and end in the same hash have the same length and agree, event by event, in every
      hashed field and in the hash -- or two different contents among theirs collide. */
  lemma TailHashFixesHistory(H: Hasher, conceptA: string, conceptB: string, a: seq<Record>, b: seq<Record>)
    requires WellFormed(H, conceptA, a) && WellFormed(H, conceptB, b)
    requires !HasArchive(a) && !HasArchive(b) && a != [] && b != []
    requires a[|a| - 1].hash == b[|b| - 1].hash
    ensures CollisionBetween(H, a, b) || (SameHistory(a, b) && forall i :: 0 <= i < |a| ==> a[i].hash == b[i].hash)
  {
    VerifiedIsHashLinked(H, conceptA, a);
    VerifiedIsHashLinked(H, conceptB, b);
    SameTailSameHistory(H, a, b);
    if SameHistory(a, b) {
      forall i | 0 <= i < |a| ensures a[i].hash == b[i].hash {
        assert SameHashed(a[i], b[i]) && HashLinkedAt(H, a, i) && HashLinkedAt(H, b, i);
        SameHashMeans(H, a[i], b[i]);
      }
    }
  }
}
