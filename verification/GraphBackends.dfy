/** The in-memory and the tabular relation graph, and their two searches (adl_lite/graph_backends.py). */
module GraphBackends {
  import opened Basics
  import opened Reachability

  type Edge = (string, string)

  /** What an edge of the in-memory graph carries. */
  datatype Label = Label(relation: string, confidence: real)

  /** A row of the `relations` table. */
  datatype Row = Row(source: string, relation: string, target: string, confidence: real)

  function Pairs(rows: set<Row>): (es: Edges)
    ensures forall e :: e in es <==> exists r :: r in rows && (r.source, r.target) == e
  {
    set r | r in rows :: (r.source, r.target)
  }

  function Ends(es: Edges): set<string> { (set e | e in es :: e.0) + (set e | e in es :: e.1) }

  /** The table's key is (source, predicate, target). */
  predicate Keyed(rows: set<Row>) {
    forall r, s :: r in rows && s in rows && r.source == s.source && r.relation == s.relation && r.target == s.target
      ==> r == s
  }

  /** INSERT OR IGNORE: a row whose key is taken is dropped. */
  function Inserted(rows: set<Row>, r: Row): set<Row> {
    if exists s :: s in rows && s.source == r.source && s.relation == r.relation && s.target == r.target
    then rows else rows + {r}
  }

  lemma InsertedPairs(rows: set<Row>, r: Row)
    ensures Pairs(Inserted(rows, r)) == Pairs(rows) + {(r.source, r.target)}
    ensures Keyed(rows) ==> Keyed(Inserted(rows, r))
    ensures rows <= Inserted(rows, r) <= rows + {r}
  {
    assert r in Inserted(rows, r) || exists s :: s in rows && (s.source, s.target) == (r.source, r.target);
  }

  // ----- the searches' shared bookkeeping -----

  /** Every visited node that is no longer waiting has had its neighbours visited. */
  ghost predicate Settled(es: Edges, visited: set<string>, waiting: set<string>) {
    forall u :: u in visited && u !in waiting ==> Around(es, {u}) <= visited
  }

  lemma AroundMember(es: Edges, s: set<string>, u: string)
    requires u in s
    ensures Around(es, {u}) <= Around(es, s)
  {
    assert s == s + {u};
    AroundUnion(es, s, {u});
  }

  lemma SettledCoversAround(es: Edges, visited: set<string>, s: set<string>)
    requires forall u :: u in s ==> Around(es, {u}) <= visited
    ensures Around(es, s) <= visited
  {
    forall v | v in Around(es, s) ensures v in visited {
      AroundMeaning(es, s, v);
      var u :| u in s && Adjacent(es, u, v);
      AroundMeaning(es, {u}, v);
      assert v in Around(es, {u});
    }
  }

  /** The queue: the rest of the current layer, then what has been found of the next one. */
  datatype Waiting = Waiting(node: string, depth: int)

  function Queued(q: seq<Waiting>): (ns: set<string>)
    ensures forall v :: v in ns <==> exists i :: 0 <= i < |q| && q[i].node == v
  {
    set i | 0 <= i < |q| :: q[i].node
  }

  predicate AllAt(q: seq<Waiting>, depth: int) { forall i :: 0 <= i < |q| ==> q[i].depth == depth }

  lemma QueuedConcat(q: seq<Waiting>, t: seq<Waiting>)
    ensures Queued(q + t) == Queued(q) + Queued(t)
  {
    forall v | v in Queued(q) ensures v in Queued(q + t) {
      var i :| 0 <= i < |q| && q[i].node == v;
      assert (q + t)[i].node == v;
    }
    forall v | v in Queued(t) ensures v in Queued(q + t) {
      var i :| 0 <= i < |t| && t[i].node == v;
      assert (q + t)[|q| + i].node == v;
    }
  }

  lemma QueuedOne(w: Waiting)
    ensures Queued([w]) == {w.node}
  {
    assert [w][0] == w;
  }

  /** At layer `d`, with `layer` still to expand and `next` found so far; `busy` is a node being expanded, if any. */
  ghost predicate Frontier(es: Edges, start: string, d: nat, visited: set<string>, layer: seq<Waiting>, next: seq<Waiting>) {
    && AllAt(layer, d) && AllAt(next, d + 1)
    && Queued(layer) <= Ball(es, start, d)
    && Queued(next) !! Ball(es, start, d)
    && visited == Ball(es, start, d) + Queued(next)
    && visited <= Ball(es, start, d + 1)
  }

  /** Between two steps of the queue search. */
  ghost predicate QueueState(es: Edges, start: string, max: nat, d: nat, visited: set<string>, layer: seq<Waiting>, next: seq<Waiting>) {
    && d <= max
    && Frontier(es, start, d, visited, layer, next)
    && (d == max ==> next == [])
    && (d < max ==> Settled(es, visited, Queued(layer) + Queued(next)))
  }

  lemma {:induction false} QueueStateStarts(es: Edges, start: string, max: nat)
    ensures QueueState(es, start, max, 0, {start}, [Waiting(start, 0)], [])
  {
    QueuedOne(Waiting(start, 0));
    BallGrows(es, start, 0, 1);
  }

  /** When a layer is used up, what has been visited is exactly the next ball. */
  lemma LayerDone(es: Edges, start: string, max: nat, d: nat, visited: set<string>, next: seq<Waiting>)
    requires QueueState(es, start, max, d, visited, [], next) && d < max
    ensures QueueState(es, start, max, d + 1, visited, next, [])
  {
    SettledCoversAround(es, visited, Ball(es, start, d));
    assert visited == Ball(es, start, d + 1);
    BallGrows(es, start, d + 1, d + 2);
  }

  /** An empty queue means the whole ball has been visited. */
  lemma QueueDone(es: Edges, start: string, max: nat, d: nat, visited: set<string>)
    requires QueueState(es, start, max, d, visited, [], [])
    ensures visited == Ball(es, start, max)
  {
    assert visited == Ball(es, start, d);
    if d < max {
      SettledCoversAround(es, visited, visited);
      ClosedBallStops(es, start, d, max);
    }
  }

  /** At the depth limit a node is taken from the queue and not expanded. */
  lemma Dropped(es: Edges, start: string, max: nat, visited: set<string>, layer: seq<Waiting>)
    requires layer != [] && QueueState(es, start, max, max, visited, layer, [])
    ensures QueueState(es, start, max, max, visited, layer[1..], [])
  {
    TailOfLayer(layer, []);
  }

  lemma TailOfLayer(layer: seq<Waiting>, next: seq<Waiting>)
    requires layer != []
    ensures (layer + next)[0] == layer[0] && (layer + next)[1..] == layer[1..] + next
    ensures Queued(layer) == {layer[0].node} + Queued(layer[1..])
  {
    QueuedOne(layer[0]);
    QueuedConcat([layer[0]], layer[1..]);
    assert layer == [layer[0]] + layer[1..];
  }

  /** `u` is being expanded. */
  ghost predicate Opened(es: Edges, start: string, d: nat, visited: set<string>, layer: seq<Waiting>, next: seq<Waiting>, u: string) {
    && Frontier(es, start, d, visited, layer, next)
    && Settled(es, visited, Queued(layer) + Queued(next) + {u})
    && u in Ball(es, start, d)
  }

  lemma HeadOfLayer(es: Edges, start: string, max: nat, d: nat, visited: set<string>, layer: seq<Waiting>, next: seq<Waiting>)
    requires layer != [] && QueueState(es, start, max, d, visited, layer, next)
    ensures layer[0].depth == d
    ensures d == max ==> QueueState(es, start, max, d, visited, layer[1..], next)
    ensures d < max ==> Opened(es, start, d, visited, layer[1..], next, layer[0].node)
  {
    TailOfLayer(layer, next);
    if d < max {
      assert Queued(layer) + Queued(next) == Queued(layer[1..]) + Queued(next) + {layer[0].node};
    } else {
      Dropped(es, start, max, visited, layer);
    }
  }

  /** With the current layer used up, the head is that of the next one. */
  lemma HeadOfNext(es: Edges, start: string, max: nat, d: nat, visited: set<string>, next: seq<Waiting>)
    requires next != [] && QueueState(es, start, max, d, visited, [], next)
    ensures d < max && next[0].depth == d + 1
    ensures d + 1 == max ==> QueueState(es, start, max, d + 1, visited, next[1..], [])
    ensures d + 1 < max ==> Opened(es, start, d + 1, visited, next[1..], [], next[0].node)
  {
    LayerDone(es, start, max, d, visited, next);
    HeadOfLayer(es, start, max, d + 1, visited, next, []);
  }

  lemma HeadOfQueue(layer: seq<Waiting>, next: seq<Waiting>)
    requires layer + next != []
    ensures (layer + next)[0] == if layer == [] then next[0] else layer[0]
    ensures (layer + next)[1..] == if layer == [] then next[1..] + [] else layer[1..] + next
  {
    if layer == [] {
      assert layer + next == next && next[1..] + [] == next[1..];
    } else {
      TailOfLayer(layer, next);
    }
  }

  /** Taking the head of the queue, moving on to the next layer if the current one is used up. */
  lemma Head(es: Edges, start: string, max: nat, d0: nat, visited: set<string>, layer: seq<Waiting>, next0: seq<Waiting>)
    returns (rest: seq<Waiting>, next: seq<Waiting>, d: nat)
    requires layer + next0 != [] && QueueState(es, start, max, d0, visited, layer, next0)
    ensures (layer + next0)[1..] == rest + next
    ensures (layer + next0)[0].depth == d <= max
    ensures d == max ==> QueueState(es, start, max, d, visited, rest, next)
    ensures d < max ==> Opened(es, start, d, visited, rest, next, (layer + next0)[0].node)
  {
    HeadOfQueue(layer, next0);
    if layer == [] {
      HeadOfNext(es, start, max, d0, visited, next0);
      rest, next, d := next0[1..], [], d0 + 1;
    } else {
      HeadOfLayer(es, start, max, d0, visited, layer, next0);
      rest, next, d := layer[1..], next0, d0;
    }
  }

  /** Once all neighbours of `u` have been visited, `u` is settled. */
  lemma Closed(es: Edges, start: string, max: nat, d: nat, visited: set<string>, layer: seq<Waiting>, next: seq<Waiting>, u: string)
    requires d < max && Opened(es, start, d, visited, layer, next, u) && Around(es, {u}) <= visited
    ensures QueueState(es, start, max, d, visited, layer, next)
  {
  }

  /** Finding `v` while expanding `u`. */
  lemma Found(es: Edges, start: string, d: nat, visited: set<string>, layer: seq<Waiting>, next: seq<Waiting>, u: string, v: string)
    requires Opened(es, start, d, visited, layer, next, u)
    requires v in Around(es, {u}) && v !in visited
    ensures Ball(es, start, d) <= visited <= Ball(es, start, d + 1)
    ensures Opened(es, start, d, visited + {v}, layer, next + [Waiting(v, d + 1)], u)
    ensures layer + next + [Waiting(v, d + 1)] == layer + (next + [Waiting(v, d + 1)])
  {
    QueuedOne(Waiting(v, d + 1));
    QueuedConcat(next, [Waiting(v, d + 1)]);
    AroundMember(es, Ball(es, start, d), u);
  }

  // ----- what has been collected -----

  ghost predicate Collected(es: Edges, start: string, visited: set<string>, results: seq<Hit>) {
    start in visited && NodesOf(results) == visited - {start} && Distinct(results) && NearestFirst(es, start, results)
  }

  lemma CollectedSnoc(es: Edges, start: string, d: nat, visited: set<string>, results: seq<Hit>, h: Hit)
    requires Collected(es, start, visited, results)
    requires Ball(es, start, d) <= visited <= Ball(es, start, d + 1) && h.node !in visited
    ensures Collected(es, start, visited + {h.node}, results + [h])
  {
    NodesSnoc(results, h);
    SnocKeepsNearestFirst(es, start, results, h, d);
  }

  /** The hit is the other end of a stored edge at `u`, with what that edge carries. */
  predicate Along(edges: map<Edge, Label>, u: string, h: Hit) {
    || ((u, h.node) in edges && edges[(u, h.node)] == Label(h.relation, h.confidence))
    || ((h.node, u) in edges && edges[(h.node, u)] == Label(h.relation, h.confidence))
  }

  predicate AllAlong(edges: map<Edge, Label>, u: string, hits: seq<Hit>) {
    forall i :: 0 <= i < |hits| ==> Along(edges, u, hits[i])
  }

  ghost predicate Tells(edges: map<Edge, Label>, h: Hit) { exists u :: Along(edges, u, h) }

  /** Every hit carries what some stored edge at its node carries. */
  ghost predicate Told(edges: map<Edge, Label>, hits: seq<Hit>) {
    forall i :: 0 <= i < |hits| ==> Tells(edges, hits[i])
  }

  /** The first `i` hits have been visited. */
  predicate Seen(hits: seq<Hit>, i: nat, visited: set<string>) {
    i <= |hits| && forall j :: 0 <= j < i ==> hits[j].node in visited
  }

  lemma SeenNext(hits: seq<Hit>, i: nat, visited: set<string>)
    requires i < |hits| && Seen(hits, i, visited)
    ensures Seen(hits, i + 1, visited + {hits[i].node})
  {
  }

  lemma ToldSnoc(edges: map<Edge, Label>, hits: seq<Hit>, u: string, h: Hit)
    requires Told(edges, hits) && Along(edges, u, h)
    ensures Told(edges, hits + [h])
  {
    assert Tells(edges, h);
  }

  lemma FewerLeft(nodes: set<string>, seen: set<string>, visited: set<string>)
    requires seen < visited <= nodes
    ensures |nodes - visited| < |nodes - seen|
  {
    assert nodes - seen == (nodes - visited) + (visited - seen);
    var v :| v in visited - seen;
  }


  // ----- the in-memory graph -----

  function Touching(es: Edges, node: string): Edges { set e | e in es && (e.0 == node || e.1 == node) }

  /** A networkx.DiGraph: at most one edge from one node to another. */
  class DiGraph {
    var nodes: set<string>
    var edges: map<Edge, Label>

    ghost predicate Valid() reads this { Ends(edges.Keys) <= nodes }

    constructor ()
      ensures Valid() && nodes == {} && edges == map[]
    {
      nodes, edges := {}, map[];
    }

    /** Adding an edge a second time replaces what it carries. */
    method AddEdge(source: string, target: string, data: Label)
      requires Valid()
      modifies this
      ensures Valid()
      ensures edges == old(edges)[(source, target) := data]
      ensures nodes == old(nodes) + {source, target}
    {
      nodes := nodes + {source, target};
      edges := edges[(source, target) := data];
    }

    method RemoveNode(node: string)
      requires Valid() && node in nodes
      modifies this
      ensures Valid()
      ensures edges == old(edges) - Touching(old(edges).Keys, node)
      ensures nodes == old(nodes) - {node}
    {
      nodes := nodes - {node};
      edges := edges - Touching(edges.Keys, node);
    }

    /** The edges leaving a node, as the nodes they lead to. */
    method Successors(current: string) returns (found: seq<Hit>)
      ensures NodesOf(found) == set e | e in edges.Keys && e.0 in {current} :: e.1
      ensures AllAlong(edges, current, found)
    {
      found := [];
      var out := set e | e in edges.Keys && e.0 == current;
      var pending := out;
      while pending != {}
        invariant pending <= out
        invariant NodesOf(found) == set e | e in out - pending :: e.1
        invariant AllAlong(edges, current, found)
        decreases |pending|
      {
        var e :| e in pending;
        var h := Hit(e.1, edges[e].relation, edges[e].confidence);
        NodesSnoc(found, h);
        found := found + [h];
        pending := pending - {e};
      }
    }

    /** The edges entering a node, as the nodes they come from. */
    method Predecessors(current: string) returns (found: seq<Hit>)
      ensures NodesOf(found) == set e | e in edges.Keys && e.1 in {current} :: e.0
      ensures AllAlong(edges, current, found)
    {
      found := [];
      var into := set e | e in edges.Keys && e.1 == current;
      var pending := into;
      while pending != {}
        invariant pending <= into
        invariant NodesOf(found) == set e | e in into - pending :: e.0
        invariant AllAlong(edges, current, found)
        decreases |pending|
      {
        var e :| e in pending;
        var h := Hit(e.0, edges[e].relation, edges[e].confidence);
        NodesSnoc(found, h);
        found := found + [h];
        pending := pending - {e};
      }
    }
  }

  class NetworkXGraphAdapter {
    const graph: DiGraph

    constructor (graph: DiGraph)
      ensures this.graph == graph
    {
      this.graph := graph;
    }

    method AddEdge(source: string, target: string, relation: string, confidence: real)
      requires graph.Valid()
      modifies graph
      ensures graph.Valid()
      ensures graph.edges == old(graph.edges)[(source, target) := Label(relation, confidence)]
      ensures graph.nodes == old(graph.nodes) + {source, target}
    {
      graph.AddEdge(source, target, Label(relation, confidence));
    }

    /** Successors first, then predecessors. */
    method Neighbours(current: string) returns (found: seq<Hit>)
      ensures NodesOf(found) == Around(graph.edges.Keys, {current})
      ensures AllAlong(graph.edges, current, found)
    {
      var after := graph.Successors(current);
      var before := graph.Predecessors(current);
      found := after + before;
      NodesConcat(after, before);
    }

    /** Breadth-first search with a queue. */
    method Bfs(start: string, maxDepth: int) returns (results: seq<Hit>)
      requires graph.Valid()
      ensures Finds(graph.edges.Keys, start, maxDepth, results)
      ensures Told(graph.edges, results)
    {
      ghost var es := graph.edges.Keys;
      results := [];
      if maxDepth < 0 || start !in graph.nodes {
        if maxDepth >= 0 { IsolatedStart(es, start, maxDepth); }
        return;
      }
      var visited := {start};
      var queue := [Waiting(start, 0)];
      ghost var layer, next, d := queue, [], 0;
      QueueStateStarts(es, start, maxDepth);
      while queue != []
        invariant queue == layer + next
        invariant QueueState(es, start, maxDepth, d, visited, layer, next)
        invariant Collected(es, start, visited, results)
        invariant Told(graph.edges, results)
        invariant visited <= graph.nodes
        decreases |graph.nodes - visited|, |queue|
      {
        layer, next, d := Head(es, start, maxDepth, d, visited, layer, next);
        var current, depth := queue[0].node, queue[0].depth;
        queue := queue[1..];
        if depth < maxDepth {
          visited, queue, results, next := Expand(start, maxDepth, current, depth, visited, queue, results, layer, next);
        }
      }
      QueueDone(es, start, maxDepth, d, visited);
    }

    /** One node's neighbours: each one not yet visited is recorded and queued. */
    method Expand(ghost start: string, ghost max: nat, current: string, d: nat, seen: set<string>, queue0: seq<Waiting>, results0: seq<Hit>,
                  ghost layer: seq<Waiting>, ghost next0: seq<Waiting>)
      returns (visited: set<string>, queue: seq<Waiting>, results: seq<Hit>, ghost next: seq<Waiting>)
      requires graph.Valid()
      requires queue0 == layer + next0
      requires d < max && Opened(graph.edges.Keys, start, d, seen, layer, next0, current)
      requires Collected(graph.edges.Keys, start, seen, results0)
      requires Told(graph.edges, results0)
      requires seen <= graph.nodes
      ensures queue == layer + next
      ensures QueueState(graph.edges.Keys, start, max, d, visited, layer, next)
      ensures Collected(graph.edges.Keys, start, visited, results)
      ensures Told(graph.edges, results)
      ensures visited <= graph.nodes
      ensures (visited == seen && queue == queue0) || |graph.nodes - visited| < |graph.nodes - seen|
    {
      ghost var es := graph.edges.Keys;
      visited, queue, results, next := seen, queue0, results0, next0;
      var neighbours := Neighbours(current);
      for i := 0 to |neighbours|
        invariant queue == layer + next
        invariant Opened(es, start, d, visited, layer, next, current)
        invariant Collected(es, start, visited, results)
        invariant Told(graph.edges, results)
        invariant seen <= visited <= graph.nodes
        invariant (visited == seen ==> queue == queue0)
        invariant Seen(neighbours, i, visited)
      {
        var h := neighbours[i];
        SeenNext(neighbours, i, visited);
        if h.node in visited {
          assert visited + {h.node} == visited;
        } else {
          assert h.node in NodesOf(neighbours);
          assert Along(graph.edges, current, h);
          Found(es, start, d, visited, layer, next, current, h.node);
          CollectedSnoc(es, start, d, visited, results, h);
          ToldSnoc(graph.edges, results, current, h);
          visited := visited + {h.node};
          results := results + [h];
          queue := queue + [Waiting(h.node, d + 1)];
          next := next + [Waiting(h.node, d + 1)];
        }
      }
      Closed(es, start, max, d, visited, layer, next, current);
      if visited != seen { FewerLeft(graph.nodes, seen, visited); }
    }
  }

  // ----- the table -----

  /** SELECT ... UNION SELECT ...: the far ends of the rows that touch the level, with predicate and confidence. */
  function Selected(rows: set<Row>, level: set<string>): set<Hit> {
    (set r | r in rows && r.source in level :: Hit(r.target, r.relation, r.confidence))
    + (set r | r in rows && r.target in level :: Hit(r.source, r.relation, r.confidence))
  }

  function Names(hits: set<Hit>): set<string> { set h | h in hits :: h.node }

  lemma NamesOneMore(done: set<Hit>, h: Hit)
    ensures Names(done + {h}) == Names(done) + {h.node}
  {
  }

  lemma SelectedNodes(rows: set<Row>, level: set<string>)
    ensures Names(Selected(rows, level)) == Around(Pairs(rows), level)
  {
    var es := Pairs(rows);
    forall v | v in Around(es, level) ensures v in Names(Selected(rows, level)) {
      if e :| e in es && e.0 in level && e.1 == v {
        var r :| r in rows && (r.source, r.target) == e;
        assert Hit(r.target, r.relation, r.confidence) in Selected(rows, level);
      } else {
        var e :| e in es && e.1 in level && e.0 == v;
        var r :| r in rows && (r.source, r.target) == e;
        assert Hit(r.source, r.relation, r.confidence) in Selected(rows, level);
      }
    }
    forall h | h in Selected(rows, level) ensures h.node in Around(es, level) {
      if r :| r in rows && r.source in level && h == Hit(r.target, r.relation, r.confidence) {
        assert (r.source, r.target) in es;
      } else {
        var r :| r in rows && r.target in level && h == Hit(r.source, r.relation, r.confidence);
        assert (r.source, r.target) in es;
      }
    }
  }

  /** The hit is one end of a stored row, with that row's predicate and confidence. */
  predicate OfRow(rows: set<Row>, h: Hit) {
    exists r :: r in rows && h.relation == r.relation && h.confidence == r.confidence && (h.node == r.source || h.node == r.target)
  }

  predicate AllOfRows(rows: set<Row>, hits: seq<Hit>) { forall i :: 0 <= i < |hits| ==> OfRow(rows, hits[i]) }

  /** Before the `i`-th round: the ball of radius `i` has been visited, and `level` is its outermost shell. */
  ghost predicate Rounds(es: Edges, start: string, i: nat, visited: set<string>, level: set<string>) {
    && visited == Ball(es, start, i)
    && level == if i == 0 then {start} else Ball(es, start, i) - Ball(es, start, i - 1)
  }

  lemma NextRound(es: Edges, start: string, i: nat, visited: set<string>, level: set<string>)
    requires Rounds(es, start, i, visited, level)
    ensures Rounds(es, start, i + 1, visited + Around(es, level), Around(es, level) - visited)
  {
    ShellSuffices(es, start, i);
  }

  lemma EmptyRound(es: Edges, start: string, i: nat, visited: set<string>)
    requires Rounds(es, start, i, visited, {})
    ensures i > 0 && visited == Ball(es, start, i) && Ball(es, start, i) == Ball(es, start, i - 1)
  {
    assert start in {start};
    StandsStill(es, start, i - 1);
  }

  lemma StandsStill(es: Edges, start: string, i: nat)
    requires Ball(es, start, i + 1) - Ball(es, start, i) == {}
    ensures Ball(es, start, i + 1) == Ball(es, start, i)
  {
    BallGrows(es, start, i, i + 1);
    NothingOutside(Ball(es, start, i + 1), Ball(es, start, i));
  }

  lemma NoLevelLeft(es: Edges, start: string, i: nat, d: nat, visited: set<string>)
    requires i <= d && Rounds(es, start, i, visited, {})
    ensures visited == Ball(es, start, d)
  {
    EmptyRound(es, start, i, visited);
    BallStops(es, start, i, d);
  }

  lemma BallStops(es: Edges, start: string, i: nat, d: nat)
    requires 0 < i <= d && Ball(es, start, i) == Ball(es, start, i - 1)
    ensures Ball(es, start, d) == Ball(es, start, i)
  {
    ClosedBallStops(es, start, i - 1, d);
  }

  lemma NothingOutside(a: set<string>, b: set<string>)
    requires b <= a && a - b == {}
    ensures a == b
  {
    forall v | v in a ensures v in b { assert v !in a - b; }
  }

  /** Breadth-first search level by level; both the table adapter and the warm index run this loop. */
  method LevelSearch(rows: set<Row>, start: string, maxDepth: int) returns (results: seq<Hit>)
    ensures Finds(Pairs(rows), start, maxDepth, results)
    ensures AllOfRows(rows, results)
  {
    results := [];
    var visited, level := {start}, {start};
    var i := 0;
    SearchStarts(rows, start);
    while i < maxDepth
      invariant 0 <= i <= Max(0, maxDepth)
      invariant Searching(rows, start, i, visited, level, results)
    {
      if level == {} { break; }
      visited, level, results := Round(rows, start, i, visited, level, results);
      i := i + 1;
    }
    SearchEnds(rows, start, i, maxDepth, visited, level, results);
  }

  ghost predicate Searching(rows: set<Row>, start: string, i: nat, visited: set<string>, level: set<string>, results: seq<Hit>) {
    Rounds(Pairs(rows), start, i, visited, level) && Gathered(rows, start, visited, results)
  }

  lemma SearchStarts(rows: set<Row>, start: string)
    ensures Searching(rows, start, 0, {start}, {start}, [])
  {
  }

  lemma SearchEnds(rows: set<Row>, start: string, i: nat, d: int, visited: set<string>, level: set<string>, results: seq<Hit>)
    requires Searching(rows, start, i, visited, level, results)
    requires i == Max(0, d) || (i < d && level == {})
    ensures Finds(Pairs(rows), start, d, results) && AllOfRows(rows, results)
  {
    if level == {} && i < d { NoLevelLeft(Pairs(rows), start, i, d, visited); }
  }

  /** The nodes visited, all but the start, have been found, each in a stored row. */
  ghost predicate Gathered(rows: set<Row>, start: string, visited: set<string>, results: seq<Hit>) {
    Collected(Pairs(rows), start, visited, results) && AllOfRows(rows, results)
  }

  /** One round: every selected row whose far end is new is recorded, and the new nodes are the next level. */
  method Round(rows: set<Row>, ghost start: string, ghost i: nat, seen: set<string>, level: set<string>, found: seq<Hit>)
    returns (visited: set<string>, next: set<string>, results: seq<Hit>)
    requires Rounds(Pairs(rows), start, i, seen, level) && Gathered(rows, start, seen, found)
    ensures Rounds(Pairs(rows), start, i + 1, visited, next) && Gathered(rows, start, visited, results)
  {
    visited, next, results := seen, {}, found;
    var selected := Selected(rows, level);
    var pending := selected;
    ghost var done := {};
    while pending != {}
      invariant done + pending == selected
      invariant visited == seen + Names(done) && next == visited - seen
      invariant Gathered(rows, start, visited, results)
      decreases |pending|
    {
      var h :| h in pending;
      OneMoreVisited(seen, done, h, visited);
      if h.node !in visited {
        NewHit(rows, start, i, seen, level, done, h, results);
        visited := visited + {h.node};
        next := next + {h.node};
        results := results + [h];
      }
      Taken(done, pending, selected, h);
      pending := pending - {h};
      done := done + {h};
    }
    assert done == selected;
    RoundDone(rows, start, i, seen, level, visited);
  }

  lemma OneMoreVisited(seen: set<string>, done: set<Hit>, h: Hit, visited: set<string>)
    requires visited == seen + Names(done)
    ensures seen + Names(done + {h}) == if h.node in visited then visited else visited + {h.node}
    ensures h.node !in visited ==> visited + {h.node} - seen == visited - seen + {h.node}
  {
    NamesOneMore(done, h);
  }

  lemma Taken(done: set<Hit>, pending: set<Hit>, all: set<Hit>, h: Hit)
    requires done + pending == all && h in pending
    ensures done + {h} + (pending - {h}) == all && done <= all && h in all
  {
  }

  lemma RoundDone(rows: set<Row>, start: string, i: nat, seen: set<string>, level: set<string>, visited: set<string>)
    requires Rounds(Pairs(rows), start, i, seen, level) && visited == seen + Names(Selected(rows, level))
    ensures Rounds(Pairs(rows), start, i + 1, visited, visited - seen)
  {
    SelectedNodes(rows, level);
    NextRound(Pairs(rows), start, i, seen, level);
    assert visited - seen == Around(Pairs(rows), level) - seen;
  }

  lemma NewHit(rows: set<Row>, start: string, i: nat, seen: set<string>, level: set<string>, done: set<Hit>, h: Hit, results: seq<Hit>)
    requires Rounds(Pairs(rows), start, i, seen, level)
    requires done <= Selected(rows, level) && h in Selected(rows, level) && h.node !in seen + Names(done)
    requires Gathered(rows, start, seen + Names(done), results)
    ensures Gathered(rows, start, seen + Names(done) + {h.node}, results + [h])
  {
    SelectedNodes(rows, level);
    NextRound(Pairs(rows), start, i, seen, level);
    CollectedSnoc(Pairs(rows), start, i, seen + Names(done), results, h);
    assert OfRow(rows, h);
  }

  class SQLGraphAdapter {
    var rows: set<Row>

    constructor ()
      ensures rows == {}
    {
      rows := {};
    }

    /** A row whose source, predicate and target are already there is ignored. */
    method AddEdge(source: string, target: string, relation: string, confidence: real)
      requires Keyed(rows)
      modifies this
      ensures rows == Inserted(old(rows), Row(source, relation, target, confidence))
      ensures Keyed(rows) && Pairs(rows) == Pairs(old(rows)) + {(source, target)}
    {
      InsertedPairs(rows, Row(source, relation, target, confidence));
      rows := Inserted(rows, Row(source, relation, target, confidence));
    }

    method Bfs(start: string, maxDepth: int) returns (results: seq<Hit>)
      ensures Finds(Pairs(rows), start, maxDepth, results)
      ensures AllOfRows(rows, results)
    {
      if maxDepth < 0 {
        return [];
      }
      results := LevelSearch(rows, start, maxDepth);
    }
  }

  // ----- both backends given the same edges -----

  datatype Addition = Addition(source: string, target: string, relation: string, confidence: real)

  function GraphOf(adds: seq<Addition>): map<Edge, Label> {
    if adds == [] then map[]
    else var a := adds[|adds| - 1];
      GraphOf(adds[..|adds| - 1])[(a.source, a.target) := Label(a.relation, a.confidence)]
  }

  function TableOf(adds: seq<Addition>): set<Row> {
    if adds == [] then {}
    else var a := adds[|adds| - 1];
      Inserted(TableOf(adds[..|adds| - 1]), Row(a.source, a.relation, a.target, a.confidence))
  }

  /** After the same additions the two backends hold the same edges, so their searches find the same nodes, each
      once and nearer ones first. What they report with a node may differ: the graph keeps the last edge added
      between two nodes, the table keeps one row per predicate, and the first. */
  lemma {:induction false} SameAdditionsSameEdges(adds: seq<Addition>)
    ensures GraphOf(adds).Keys == Pairs(TableOf(adds)) && Keyed(TableOf(adds))
  {
    if adds != [] {
      var a := adds[|adds| - 1];
      SameAdditionsSameEdges(adds[..|adds| - 1]);
      InsertedPairs(TableOf(adds[..|adds| - 1]), Row(a.source, a.relation, a.target, a.confidence));
    }
  }

  predicate SamePair(a: Addition, source: string, target: string) { a.source == source && a.target == target }

  ghost predicate LastOfPair(adds: seq<Addition>, source: string, target: string, data: Label) {
    exists i :: 0 <= i < |adds| && adds[i] == Addition(source, target, data.relation, data.confidence)
                && forall j :: i < j < |adds| ==> !SamePair(adds[j], source, target)
  }

  lemma LastOfPairSnoc(adds: seq<Addition>, a: Addition, source: string, target: string, data: Label)
    ensures LastOfPair(adds + [a], source, target, data) <==>
            if SamePair(a, source, target) then a == Addition(source, target, data.relation, data.confidence)
            else LastOfPair(adds, source, target, data)
  {
    var all := adds + [a];
    assert all[|adds|] == a && forall j :: 0 <= j < |adds| ==> all[j] == adds[j];
    if LastOfPair(adds, source, target, data) {
      var i :| 0 <= i < |adds| && adds[i] == Addition(source, target, data.relation, data.confidence)
               && forall j :: i < j < |adds| ==> !SamePair(adds[j], source, target);
      assert all[i] == adds[i];
    }
  }

  /** Of several edges between two nodes the graph carries what the last one added says. */
  lemma {:induction false} GraphKeepsLast(adds: seq<Addition>, source: string, target: string, data: Label)
    ensures (source, target) in GraphOf(adds) && GraphOf(adds)[(source, target)] == data <==> LastOfPair(adds, source, target, data)
  {
    if adds != [] {
      var front, a := adds[..|adds| - 1], adds[|adds| - 1];
      assert adds == front + [a];
      GraphKeepsLast(front, source, target, data);
      LastOfPairSnoc(front, a, source, target, data);
    }
  }

  predicate SameKey(a: Addition, source: string, relation: string, target: string) {
    a.source == source && a.relation == relation && a.target == target
  }

  lemma InsertedIff(rows: set<Row>, r: Row, x: Row)
    ensures x in Inserted(rows, r) <==>
            x in rows || (x == r && !exists s :: s in rows && s.source == r.source && s.relation == r.relation && s.target == r.target)
  {
  }

  ghost predicate FirstOfKey(adds: seq<Addition>, x: Row) {
    exists i :: 0 <= i < |adds| && adds[i] == Addition(x.source, x.target, x.relation, x.confidence)
                && forall j :: 0 <= j < i ==> !SameKey(adds[j], x.source, x.relation, x.target)
  }

  ghost predicate KeyTaken(adds: seq<Addition>, source: string, relation: string, target: string) {
    exists i :: 0 <= i < |adds| && SameKey(adds[i], source, relation, target)
  }

  lemma KeysSnoc(adds: seq<Addition>, a: Addition, x: Row)
    ensures FirstOfKey(adds + [a], x) <==>
            FirstOfKey(adds, x) || (a == Addition(x.source, x.target, x.relation, x.confidence) && !KeyTaken(adds, x.source, x.relation, x.target))
    ensures KeyTaken(adds + [a], x.source, x.relation, x.target) <==>
            KeyTaken(adds, x.source, x.relation, x.target) || SameKey(a, x.source, x.relation, x.target)
  {
    var all := adds + [a];
    assert all[|adds|] == a && forall j :: 0 <= j < |adds| ==> all[j] == adds[j];
    if FirstOfKey(adds, x) {
      var i :| 0 <= i < |adds| && adds[i] == Addition(x.source, x.target, x.relation, x.confidence)
               && forall j :: 0 <= j < i ==> !SameKey(adds[j], x.source, x.relation, x.target);
      assert all[i] == adds[i];
    }
    if i :| 0 <= i < |adds| && SameKey(adds[i], x.source, x.relation, x.target) { assert SameKey(all[i], x.source, x.relation, x.target); }
  }

  /** Of several rows of one source, predicate and target the table keeps the first. */
  lemma {:induction false} TableKeepsFirst(adds: seq<Addition>, x: Row)
    ensures x in TableOf(adds) <==> FirstOfKey(adds, x)
    ensures (exists s :: s in TableOf(adds) && s.source == x.source && s.relation == x.relation && s.target == x.target)
            <==> KeyTaken(adds, x.source, x.relation, x.target)
  {
    if adds != [] {
      var front, a := adds[..|adds| - 1], adds[|adds| - 1];
      var r := Row(a.source, a.relation, a.target, a.confidence);
      assert adds == front + [a];
      TableKeepsFirst(front, x);
      KeysSnoc(front, a, x);
      InsertedIff(TableOf(front), r, x);
      if s :| s in TableOf(front) && s.source == x.source && s.relation == x.relation && s.target == x.target { assert s in TableOf(adds); }
      if SameKey(a, x.source, x.relation, x.target) && !KeyTaken(front, x.source, x.relation, x.target) { assert r in TableOf(adds); }
    }
  }

  method FillBoth(adds: seq<Addition>) returns (x: NetworkXGraphAdapter, q: SQLGraphAdapter)
    ensures x.graph.Valid() && x.graph.edges == GraphOf(adds) && q.rows == TableOf(adds)
    ensures x.graph.edges.Keys == Pairs(q.rows)
  {
    var graph := new DiGraph();
    x := new NetworkXGraphAdapter(graph);
    q := new SQLGraphAdapter();
    for i := 0 to |adds|
      invariant fresh(x.graph) && fresh(q) && x.graph.Valid() && Keyed(q.rows)
      invariant x.graph.edges == GraphOf(adds[..i]) && q.rows == TableOf(adds[..i])
    {
      assert adds[..i + 1][..i] == adds[..i];
      x.AddEdge(adds[i].source, adds[i].target, adds[i].relation, adds[i].confidence);
      q.AddEdge(adds[i].source, adds[i].target, adds[i].relation, adds[i].confidence);
    }
    assert adds[..|adds|] == adds;
    SameAdditionsSameEdges(adds);
  }
}
