/** What a bounded undirected search should answer: the nodes at distance 1 to d (adl_lite/graph_backends.py). */
module Reachability {
  import opened Basics

  type Edges = set<(string, string)>

  /** An edge connects its endpoints regardless of direction. */
  predicate Adjacent(es: Edges, u: string, v: string) { (u, v) in es || (v, u) in es }

  function Around(es: Edges, s: set<string>): set<string> {
    (set e | e in es && e.0 in s :: e.1) + (set e | e in es && e.1 in s :: e.0)
  }

  lemma AroundMeaning(es: Edges, s: set<string>, v: string)
    ensures v in Around(es, s) <==> exists u :: u in s && Adjacent(es, u, v)
  {
    if v in Around(es, s) {
      if e :| e in es && e.0 in s && e.1 == v {
        assert Adjacent(es, e.0, v);
      } else {
        var e :| e in es && e.1 in s && e.0 == v;
        assert Adjacent(es, e.1, v);
      }
    }
    if u :| u in s && Adjacent(es, u, v) {
      if (u, v) in es { assert (u, v).0 in s; } else { assert (v, u).1 in s; }
    }
  }

  /** The nodes within distance `d`. */
  function Ball(es: Edges, start: string, d: nat): set<string> {
    if d == 0 then {start} else Ball(es, start, d - 1) + Around(es, Ball(es, start, d - 1))
  }

  /** The answer of a search of depth `d`: nothing for a negative depth. */
  function Reach(es: Edges, start: string, d: int): set<string> {
    if d < 0 then {} else Ball(es, start, d) - {start}
  }

  // ----- the ball is what walks reach -----

  predicate IsWalk(es: Edges, p: seq<string>) {
    p != [] && forall i :: 0 <= i < |p| - 1 ==> Adjacent(es, p[i], p[i + 1])
  }

  ghost predicate WalkOf(es: Edges, start: string, v: string, d: nat, p: seq<string>) {
    IsWalk(es, p) && p[0] == start && p[|p| - 1] == v && |p| <= d + 1
  }

  lemma {:induction false} BallToWalk(es: Edges, start: string, v: string, d: nat) returns (p: seq<string>)
    requires v in Ball(es, start, d)
    ensures WalkOf(es, start, v, d, p)
    decreases d
  {
    if d == 0 {
      p := [start];
    } else if v in Ball(es, start, d - 1) {
      p := BallToWalk(es, start, v, d - 1);
    } else {
      AroundMeaning(es, Ball(es, start, d - 1), v);
      var u :| u in Ball(es, start, d - 1) && Adjacent(es, u, v);
      var q := BallToWalk(es, start, u, d - 1);
      p := q + [v];
    }
  }

  lemma {:induction false} WalkToBall(es: Edges, start: string, v: string, d: nat, p: seq<string>)
    requires WalkOf(es, start, v, d, p)
    ensures v in Ball(es, start, d)
    decreases |p|
  {
    if |p| == 1 {
      BallGrows(es, start, 0, d);
    } else {
      var q := p[..|p| - 1];
      var u := q[|q| - 1];
      assert Adjacent(es, p[|p| - 2], p[|p| - 1]);
      WalkToBall(es, start, u, d - 1, q);
      AroundMeaning(es, Ball(es, start, d - 1), v);
    }
  }

  lemma {:induction false} BallGrows(es: Edges, start: string, d: nat, e: nat)
    requires d <= e
    ensures Ball(es, start, d) <= Ball(es, start, e)
    decreases e
  {
    if d < e { BallGrows(es, start, d, e - 1); }
  }

  /** The nodes a search of depth `d` must return: those other than the start that some undirected walk of
      at most `d` edges reaches. */
  lemma ReachIsWalks(es: Edges, start: string, v: string, d: nat)
    ensures v in Reach(es, start, d) <==> v != start && exists p :: WalkOf(es, start, v, d, p)
  {
    if v in Ball(es, start, d) { var p := BallToWalk(es, start, v, d); }
    if p :| WalkOf(es, start, v, d, p) { WalkToBall(es, start, v, d, p); }
  }

  // ----- facts for the two searches -----

  lemma {:induction false} ClosedBallStops(es: Edges, start: string, d: nat, e: nat)
    requires d <= e && Around(es, Ball(es, start, d)) <= Ball(es, start, d)
    ensures Ball(es, start, e) == Ball(es, start, d)
    decreases e
  {
    if d < e { ClosedBallStops(es, start, d, e - 1); }
  }

  lemma {:induction false} IsolatedStart(es: Edges, start: string, d: nat)
    requires forall e :: e in es ==> e.0 != start && e.1 != start
    ensures Ball(es, start, d) == {start}
  {
    if d > 0 {
      IsolatedStart(es, start, d - 1);
      assert Around(es, {start}) == {};
    }
  }

  /** The next ball needs the neighbours of the outermost shell only. */
  lemma ShellSuffices(es: Edges, start: string, d: nat)
    ensures Ball(es, start, d + 1) == Ball(es, start, d) + Around(es, if d == 0 then {start} else Ball(es, start, d) - Ball(es, start, d - 1))
  {
    if d > 0 {
      var inner, outer := Ball(es, start, d - 1), Ball(es, start, d) - Ball(es, start, d - 1);
      AroundUnion(es, inner, outer);
      assert Ball(es, start, d) == inner + outer;
    }
  }

  lemma AroundUnion(es: Edges, s: set<string>, t: set<string>)
    ensures Around(es, s + t) == Around(es, s) + Around(es, t)
  {
  }

  // ----- what a search returns -----

  /** A node found, with the relation and confidence of the stored edge it was found through. */
  datatype Hit = Hit(node: string, relation: string, confidence: real)

  function NodesOf(hits: seq<Hit>): (ns: set<string>)
    ensures forall v :: v in ns <==> exists i :: 0 <= i < |hits| && hits[i].node == v
  {
    set i | 0 <= i < |hits| :: hits[i].node
  }

  predicate Distinct(hits: seq<Hit>) { forall i, j :: 0 <= i < j < |hits| ==> hits[i].node != hits[j].node }

  /** Whatever distance reaches `v` also reaches `u`. */
  ghost predicate NoFarther(es: Edges, start: string, u: string, v: string) {
    forall e: nat :: v in Ball(es, start, e) ==> u in Ball(es, start, e)
  }

  ghost predicate NearestFirst(es: Edges, start: string, hits: seq<Hit>) {
    forall i, j :: 0 <= i < j < |hits| ==> NoFarther(es, start, hits[i].node, hits[j].node)
  }

  /** Each node at distance 1 to `d` exactly once, nearer nodes first. */
  ghost predicate Finds(es: Edges, start: string, d: int, hits: seq<Hit>) {
    NodesOf(hits) == Reach(es, start, d) && Distinct(hits) && NearestFirst(es, start, hits)
  }

  lemma NodesSnoc(hits: seq<Hit>, h: Hit)
    ensures NodesOf(hits + [h]) == NodesOf(hits) + {h.node}
    ensures Distinct(hits) && h.node !in NodesOf(hits) ==> Distinct(hits + [h])
  {
    var all := hits + [h];
    assert forall i :: 0 <= i < |hits| ==> all[i] == hits[i];
    assert all[|hits|] == h;
  }

  lemma NodesConcat(a: seq<Hit>, b: seq<Hit>)
    ensures NodesOf(a + b) == NodesOf(a) + NodesOf(b)
  {
    forall v | v in NodesOf(a) ensures v in NodesOf(a + b) {
      var i :| 0 <= i < |a| && a[i].node == v;
      assert (a + b)[i].node == v;
    }
    forall v | v in NodesOf(b) ensures v in NodesOf(a + b) {
      var i :| 0 <= i < |b| && b[i].node == v;
      assert (a + b)[|a| + i].node == v;
    }
  }

  /** A node outside the ball of radius `d` may follow nodes of the next ball. */
  lemma SnocKeepsNearestFirst(es: Edges, start: string, hits: seq<Hit>, h: Hit, d: nat)
    requires NearestFirst(es, start, hits)
    requires NodesOf(hits) <= Ball(es, start, d + 1) && h.node !in Ball(es, start, d)
    ensures NearestFirst(es, start, hits + [h])
  {
    var all := hits + [h];
    forall i | 0 <= i < |hits| ensures NoFarther(es, start, hits[i].node, h.node) {
      assert hits[i].node in NodesOf(hits);
      forall e: nat | h.node in Ball(es, start, e) ensures hits[i].node in Ball(es, start, e) {
        if e <= d { BallGrows(es, start, e, d); }
        BallGrows(es, start, d + 1, e);
      }
    }
  }

  /** Two searches that find what they should return the same nodes, in an order that differs only among nodes at
      the same distance. */
  lemma SearchesAgree(es: Edges, start: string, d: int, a: seq<Hit>, b: seq<Hit>)
    requires Finds(es, start, d, a) && Finds(es, start, d, b)
    ensures NodesOf(a) == NodesOf(b) && |a| == |b|
  {
    SizeOfDistinct(a);
    SizeOfDistinct(b);
  }

  lemma {:induction false} SizeOfDistinct(hits: seq<Hit>)
    requires Distinct(hits)
    ensures |NodesOf(hits)| == |hits|
  {
    if hits != [] {
      var front, h := hits[..|hits| - 1], hits[|hits| - 1];
      assert hits == front + [h];
      NodesSnoc(front, h);
      SizeOfDistinct(front);
      assert h.node !in NodesOf(front);
    }
  }
}
