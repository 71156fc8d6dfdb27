/** The warm index: a relations table and an in-memory graph that mirrors it (adl_lite/memory.py). */
module WarmIndexes {
  import opened Basics
  import opened Reachability
  import opened GraphBackends

  datatype Relation = Relation(source: string, relation: string, target: string, confidence: real)

  function RowOf(r: Relation): Row { Row(r.source, r.relation, r.target, r.confidence) }

  /** The table after a document's relations have been inserted in order. */
  function InsertedAll(rows: set<Row>, rels: seq<Relation>): set<Row> {
    if rels == [] then rows else Inserted(InsertedAll(rows, rels[..|rels| - 1]), RowOf(rels[|rels| - 1]))
  }

  /** The table without the rows at one concept. */
  function Without(rows: set<Row>, id: string): set<Row> { set r | r in rows && r.source != id && r.target != id }

  lemma PairsWithout(rows: set<Row>, id: string)
    ensures Pairs(Without(rows, id)) == Pairs(rows) - Touching(Pairs(rows), id)
    ensures Keyed(rows) ==> Keyed(Without(rows, id))
  {
    forall e | e in Pairs(rows) && e !in Touching(Pairs(rows), id) ensures e in Pairs(Without(rows, id)) {
      var r :| r in rows && (r.source, r.target) == e;
      assert r in Without(rows, id);
    }
  }

  /** Each edge carries the predicate of a stored row between the same concepts. */
  ghost predicate Labelled(rows: set<Row>, edges: map<Edge, Label>) {
    forall e :: e in edges ==> HasRow(rows, e, edges[e].relation)
  }

  predicate HasRow(rows: set<Row>, e: Edge, relation: string) {
    exists r :: r in rows && r.source == e.0 && r.target == e.1 && r.relation == relation
  }

  /** The graph mirrors the table: an edge exactly where some row is. */
  ghost predicate Mirrors(rows: set<Row>, edges: map<Edge, Label>) {
    edges.Keys == Pairs(rows) && Labelled(rows, edges)
  }

  lemma MirrorAdd(rows: set<Row>, edges: map<Edge, Label>, r: Relation)
    requires Mirrors(rows, edges)
    ensures Mirrors(Inserted(rows, RowOf(r)), edges[(r.source, r.target) := Label(r.relation, r.confidence)])
  {
    InsertedPairs(rows, RowOf(r));
    var after := Inserted(rows, RowOf(r));
    assert HasRow(after, (r.source, r.target), r.relation);
    forall e | e in edges ensures HasRow(after, e, edges[e].relation) {
      var s :| s in rows && s.source == e.0 && s.target == e.1 && s.relation == edges[e].relation;
      assert s in after;
    }
  }

  lemma MirrorDelete(rows: set<Row>, edges: map<Edge, Label>, id: string)
    requires Mirrors(rows, edges)
    ensures Mirrors(Without(rows, id), edges - Touching(edges.Keys, id))
  {
    PairsWithout(rows, id);
    forall e | e in edges && e !in Touching(edges.Keys, id) ensures HasRow(Without(rows, id), e, edges[e].relation) {
      var s :| s in rows && s.source == e.0 && s.target == e.1 && s.relation == edges[e].relation;
      assert s in Without(rows, id);
    }
  }

  /** A hit reports a predicate stored in some row at that node. */
  predicate ReportsRow(rows: set<Row>, h: Hit) {
    exists r :: r in rows && h.relation == r.relation && (h.node == r.source || h.node == r.target)
  }

  class WarmIndex {
    var relations: set<Row>
    var graph: DiGraph?

    /** The table keeps its key and the graph, when there is one, mirrors the table. */
    ghost predicate Valid()
      reads this, graph
    {
      Keyed(relations) && (graph != null ==> graph.Valid() && Mirrors(relations, graph.edges))
    }

    /** Opening a database whose table holds `stored`; the graph is rebuilt from it unless that fails. */
    constructor (stored: set<Row>, rebuildWorks: bool)
      requires Keyed(stored)
      ensures Valid() && relations == stored && (graph != null <==> rebuildWorks)
      ensures graph != null ==> fresh(graph)
    {
      relations := stored;
      graph := null;
      new;
      if rebuildWorks { graph := BuildGraphFromStore(); }
    }

    /** The rows are fetched in no particular order, so a pair related twice carries either predicate. */
    method BuildGraphFromStore() returns (built: DiGraph)
      ensures fresh(built) && built.Valid() && Mirrors(relations, built.edges)
    {
      built := new DiGraph();
      var pending := relations;
      while pending != {}
        invariant pending <= relations
        invariant fresh(built) && built.Valid() && Mirrors(relations - pending, built.edges)
        decreases |pending|
      {
        var r :| r in pending;
        RowJoins(relations - pending, built.edges, r);
        assert relations - (pending - {r}) == (relations - pending) + {r};
        built.AddEdge(r.source, r.target, Label(r.relation, r.confidence));
        pending := pending - {r};
      }
    }

    method AddRelation(rel: Relation)
      requires Valid()
      modifies this`relations, graph
      ensures Valid() && graph == old(graph)
      ensures relations == Inserted(old(relations), RowOf(rel))
    {
      InsertedPairs(relations, RowOf(rel));
      if graph != null {
        MirrorAdd(relations, graph.edges, rel);
        graph.AddEdge(rel.source, rel.target, Label(rel.relation, rel.confidence));
      }
      relations := Inserted(relations, RowOf(rel));
    }

    method InsertDocument(rels: seq<Relation>)
      requires Valid()
      modifies this`relations, graph
      ensures Valid() && graph == old(graph)
      ensures relations == InsertedAll(old(relations), rels)
    {
      for i := 0 to |rels|
        invariant Valid() && graph == old(graph)
        invariant relations == InsertedAll(old(relations), rels[..i])
      {
        assert rels[..i + 1][..i] == rels[..i];
        AddRelation(rels[i]);
      }
      assert rels[..|rels|] == rels;
    }

    /** Every row at the concept goes, and so does its node. */
    method DeleteDocument(id: string)
      requires Valid()
      modifies this`relations, graph
      ensures Valid() && graph == old(graph)
      ensures relations == Without(old(relations), id)
    {
      PairsWithout(relations, id);
      if graph != null {
        MirrorDelete(relations, graph.edges, id);
        if id in graph.nodes {
          graph.RemoveNode(id);
        } else {
          assert graph.edges - Touching(graph.edges.Keys, id) == graph.edges;
        }
      }
      relations := Without(relations, id);
    }

    /** Closing and opening again: the graph is thrown away and rebuilt. */
    method Reopen(rebuildWorks: bool)
      requires Valid()
      modifies this`graph
      ensures Valid() && relations == old(relations)
      ensures graph != null <==> rebuildWorks
      ensures graph != null ==> fresh(graph)
    {
      graph := null;
      if rebuildWorks { graph := BuildGraphFromStore(); }
    }

    /** Whichever path answers, the same nodes come back: those within `depth` of the concept in the table's pairs,
        each once, nearer ones first, each with a predicate stored in a row at it. */
    method GetRelated(id: string, depth: int) returns (results: seq<Hit>)
      requires Valid()
      ensures Finds(Pairs(relations), id, depth, results)
      ensures forall i :: 0 <= i < |results| ==> ReportsRow(relations, results[i])
    {
      if graph != null {
        results := GraphBfs(id, depth);
      } else {
        results := SqlBfs(id, depth);
      }
    }

    method GraphBfs(id: string, depth: int) returns (results: seq<Hit>)
      requires Valid() && graph != null
      ensures Finds(Pairs(relations), id, depth, results)
      ensures forall i :: 0 <= i < |results| ==> ReportsRow(relations, results[i])
    {
      var adapter := new NetworkXGraphAdapter(graph);
      results := adapter.Bfs(id, depth);
      forall i | 0 <= i < |results| ensures ReportsRow(relations, results[i]) {
        assert Tells(graph.edges, results[i]);
        var u :| Along(graph.edges, u, results[i]);
        var e := if (u, results[i].node) in graph.edges && graph.edges[(u, results[i].node)] == Label(results[i].relation, results[i].confidence)
          then (u, results[i].node) else (results[i].node, u);
        assert HasRow(relations, e, graph.edges[e].relation);
      }
    }

    method SqlBfs(id: string, depth: int) returns (results: seq<Hit>)
      ensures Finds(Pairs(relations), id, depth, results)
      ensures forall i :: 0 <= i < |results| ==> ReportsRow(relations, results[i])
    {
      results := LevelSearch(relations, id, depth);
      assert forall i :: 0 <= i < |results| ==> OfRow(relations, results[i]);
    }
  }

  lemma RowJoins(rows: set<Row>, edges: map<Edge, Label>, r: Row)
    requires Mirrors(rows, edges)
    ensures Mirrors(rows + {r}, edges[(r.source, r.target) := Label(r.relation, r.confidence)])
  {
    var after := rows + {r};
    assert r in after;
    forall e | e in Pairs(rows) ensures e in Pairs(after) {
      var s :| s in rows && (s.source, s.target) == e;
      assert s in after;
    }
    forall e | e in edges ensures HasRow(after, e, edges[e].relation) {
      var s :| s in rows && s.source == e.0 && s.target == e.1 && s.relation == edges[e].relation;
      assert s in after;
    }
  }

  // ----- over a whole run -----

  datatype Op = Insert(rels: seq<Relation>) | Delete(id: string) | Reopened

  /** The table after a run of inserts, deletes and reopenings. */
  function TableAfter(rows: set<Row>, ops: seq<Op>): set<Row> {
    if ops == [] then rows
    else var before := TableAfter(rows, ops[..|ops| - 1]);
      match ops[|ops| - 1]
      case Insert(rels) => InsertedAll(before, rels)
      case Delete(id) => Without(before, id)
      case Reopened => before
  }

  /** Any run leaves the table it should and, whenever there is a graph, a graph that mirrors it. */
  method Run(index: WarmIndex, ops: seq<Op>, rebuildWorks: seq<bool>)
    requires index.Valid() && |rebuildWorks| == |ops|
    modifies index, index.graph
    ensures index.Valid() && index.relations == TableAfter(old(index.relations), ops)
  {
    for i := 0 to |ops|
      invariant index.Valid() && index.relations == TableAfter(old(index.relations), ops[..i])
      invariant index.graph == old(index.graph) || index.graph == null || fresh(index.graph)
    {
      assert ops[..i + 1][..i] == ops[..i];
      match ops[i]
      case Insert(rels) => index.InsertDocument(rels);
      case Delete(id) => index.DeleteDocument(id);
      case Reopened => index.Reopen(rebuildWorks[i]);
    }
    assert ops[..|ops|] == ops;
  }

  /** The relations a document still contributes after a run: row `r` is stored exactly when some document brought
      it and its two concepts have not been deleted since. */
  ghost predicate LastsTo(ops: seq<Op>, k: nat, s: string, p: string, t: string) {
    && k < |ops| && ops[k].Insert?
    && (exists i :: 0 <= i < |ops[k].rels| && Relates(ops[k].rels[i], s, p, t))
    && forall j :: k < j < |ops| && ops[j].Delete? ==> ops[j].id != s && ops[j].id != t
  }

  predicate Relates(r: Relation, s: string, p: string, t: string) { r.source == s && r.relation == p && r.target == t }

  predicate HasKey(rows: set<Row>, s: string, p: string, t: string) {
    exists r :: r in rows && r.source == s && r.relation == p && r.target == t
  }

  lemma {:induction false} InsertedAllKeys(rows: set<Row>, rels: seq<Relation>, s: string, p: string, t: string)
    ensures HasKey(InsertedAll(rows, rels), s, p, t) <==>
      HasKey(rows, s, p, t) || exists i :: 0 <= i < |rels| && Relates(rels[i], s, p, t)
  {
    if rels != [] {
      var front, last := rels[..|rels| - 1], rels[|rels| - 1];
      InsertedAllKeys(rows, front, s, p, t);
      var before := InsertedAll(rows, front);
      InsertedKeys(before, RowOf(last), s, p, t);
      if i :| 0 <= i < |rels| && Relates(rels[i], s, p, t) {
        if i < |front| { assert Relates(front[i], s, p, t); }
      }
    }
  }

  lemma InsertedKeys(rows: set<Row>, r: Row, s: string, p: string, t: string)
    ensures HasKey(Inserted(rows, r), s, p, t) <==> HasKey(rows, s, p, t) || (r.source == s && r.relation == p && r.target == t)
  {
    if HasKey(rows, s, p, t) {
      var q :| q in rows && q.source == s && q.relation == p && q.target == t;
      assert q in Inserted(rows, r);
    }
    if r.source == s && r.relation == p && r.target == t {
      assert r in Inserted(rows, r) || HasKey(rows, s, p, t);
    }
  }

  /** What the table holds after any run from an empty database, stated without replaying it: a relation is there
      exactly when some inserted document brought it and neither of its concepts was deleted afterwards. */
  lemma {:induction false} TableAfterMeaning(ops: seq<Op>, s: string, p: string, t: string)
    ensures HasKey(TableAfter({}, ops), s, p, t) <==> exists k: nat :: LastsTo(ops, k, s, p, t)
  {
    if ops != [] {
      var front, last := ops[..|ops| - 1], ops[|ops| - 1];
      TableAfterMeaning(front, s, p, t);
      var before := TableAfter({}, front);
      if last.Insert? { InsertedAllKeys(before, last.rels, s, p, t); }
      if last.Delete? { assert HasKey(Without(before, last.id), s, p, t) <==> HasKey(before, s, p, t) && last.id != s && last.id != t; }
      forall k: nat | LastsTo(front, k, s, p, t) && (last.Delete? ==> last.id != s && last.id != t) ensures LastsTo(ops, k, s, p, t) {
        assert forall j :: 0 <= j < |front| ==> ops[j] == front[j];
      }
      if k: nat :| LastsTo(ops, k, s, p, t) {
        if k < |front| {
          assert forall j :: 0 <= j < |front| ==> ops[j] == front[j];
          assert LastsTo(front, k, s, p, t);
        }
      }
      if last.Insert? && exists i :: 0 <= i < |last.rels| && Relates(last.rels[i], s, p, t) {
        assert LastsTo(ops, |front|, s, p, t);
      }
    }
  }

  // ----- which row it is -----

  /** The `i`-th relation of the document inserted at `k` has this key, and neither of its concepts was deleted afterwards. */
  ghost predicate Lasting(ops: seq<Op>, k: int, i: int, s: string, p: string, t: string) {
    && 0 <= k < |ops| && ops[k].Insert? && 0 <= i < |ops[k].rels| && Relates(ops[k].rels[i], s, p, t)
    && NotDeleted(ops, k, s, t)
  }

  ghost predicate NotDeleted(ops: seq<Op>, k: int, s: string, t: string) {
    forall j :: 0 <= j < |ops| && k < j && ops[j].Delete? ==> ops[j].id != s && ops[j].id != t
  }

  /** The relation at `k`, `i` is the row, lasts, and is the first of its key that does. */
  ghost predicate BroughtAt(ops: seq<Op>, k: int, i: int, x: Row) {
    && Lasting(ops, k, i, x.source, x.relation, x.target) && ops[k].rels[i].confidence == x.confidence
    && (forall m :: 0 <= m < i ==> !Relates(ops[k].rels[m], x.source, x.relation, x.target))
    && forall l, m :: l < k ==> !Lasting(ops, l, m, x.source, x.relation, x.target)
  }

  ghost predicate FirstIn(rels: seq<Relation>, i: int, x: Row) {
    && 0 <= i < |rels| && Relates(rels[i], x.source, x.relation, x.target) && rels[i].confidence == x.confidence
    && forall m :: 0 <= m < i ==> !Relates(rels[m], x.source, x.relation, x.target)
  }

  lemma {:induction false} RowsAfterDocument(rows: set<Row>, rels: seq<Relation>, x: Row)
    ensures x in InsertedAll(rows, rels) <==>
            x in rows || (!HasKey(rows, x.source, x.relation, x.target) && exists i :: FirstIn(rels, i, x))
  {
    if rels != [] {
      var front, last := rels[..|rels| - 1], rels[|rels| - 1];
      RowsAfterDocument(rows, front, x);
      InsertedAllKeys(rows, front, x.source, x.relation, x.target);
      InsertedIff(InsertedAll(rows, front), RowOf(last), x);
      assert forall i :: 0 <= i < |front| ==> front[i] == rels[i];
      forall i | FirstIn(front, i, x) ensures FirstIn(rels, i, x) {}
      forall i | FirstIn(rels, i, x) ensures if i < |front| then FirstIn(front, i, x) else i == |front| {}
      assert FirstIn(rels, |front|, x) <==>
             RowOf(last) == x && forall m :: 0 <= m < |front| ==> !Relates(front[m], x.source, x.relation, x.target);
    }
  }

  lemma LastingSnoc(ops: seq<Op>, op: Op, k: int, i: int, s: string, p: string, t: string)
    ensures Lasting(ops + [op], k, i, s, p, t) <==>
            if k == |ops| then op.Insert? && 0 <= i < |op.rels| && Relates(op.rels[i], s, p, t)
            else Lasting(ops, k, i, s, p, t) && (op.Delete? ==> op.id != s && op.id != t)
  {
    var all := ops + [op];
    assert all[|ops|] == op && forall j :: 0 <= j < |ops| ==> all[j] == ops[j];
    if 0 <= k < |ops| {
      assert NotDeleted(all, k, s, t) <==> NotDeleted(ops, k, s, t) && (op.Delete? ==> op.id != s && op.id != t);
    }
  }

  lemma KeyLasts(ops: seq<Op>, s: string, p: string, t: string)
    ensures HasKey(TableAfter({}, ops), s, p, t) <==> exists k, i :: Lasting(ops, k, i, s, p, t)
  {
    TableAfterMeaning(ops, s, p, t);
    if k: nat :| LastsTo(ops, k, s, p, t) {
      var i :| 0 <= i < |ops[k].rels| && Relates(ops[k].rels[i], s, p, t);
      assert Lasting(ops, k, i, s, p, t);
    }
    if k, i :| Lasting(ops, k, i, s, p, t) { assert LastsTo(ops, k, s, p, t); }
  }

  lemma BroughtBefore(ops: seq<Op>, op: Op, k: int, i: int, x: Row)
    requires k < |ops| && (op.Delete? ==> op.id != x.source && op.id != x.target)
    ensures BroughtAt(ops + [op], k, i, x) <==> BroughtAt(ops, k, i, x)
  {
    var all := ops + [op];
    LastingSnoc(ops, op, k, i, x.source, x.relation, x.target);
    forall l, m | l < k ensures Lasting(all, l, m, x.source, x.relation, x.target) <==> Lasting(ops, l, m, x.source, x.relation, x.target) {
      LastingSnoc(ops, op, l, m, x.source, x.relation, x.target);
    }
    if 0 <= k { assert all[k] == ops[k]; }
  }

  lemma BroughtLast(ops: seq<Op>, op: Op, i: int, x: Row)
    ensures BroughtAt(ops + [op], |ops|, i, x) <==>
            op.Insert? && FirstIn(op.rels, i, x) && !exists l, m :: Lasting(ops, l, m, x.source, x.relation, x.target)
  {
    var all := ops + [op];
    assert all[|ops|] == op;
    forall l, m ensures Lasting(all, l, m, x.source, x.relation, x.target) <==>
        if l == |ops| then op.Insert? && 0 <= m < |op.rels| && Relates(op.rels[m], x.source, x.relation, x.target)
        else Lasting(ops, l, m, x.source, x.relation, x.target) && (op.Delete? ==> op.id != x.source && op.id != x.target)
    {
      LastingSnoc(ops, op, l, m, x.source, x.relation, x.target);
    }
  }

  lemma BroughtSnoc(ops: seq<Op>, op: Op, x: Row)
    ensures (exists k, i :: BroughtAt(ops + [op], k, i, x)) <==>
            match op
            case Insert(rels) =>
              (exists k, i :: BroughtAt(ops, k, i, x))
              || (!(exists l, m :: Lasting(ops, l, m, x.source, x.relation, x.target)) && exists i :: FirstIn(rels, i, x))
            case Delete(id) => (exists k, i :: BroughtAt(ops, k, i, x)) && id != x.source && id != x.target
            case Reopened => exists k, i :: BroughtAt(ops, k, i, x)
  {
    var all := ops + [op];
    forall i ensures BroughtAt(all, |ops|, i, x) <==>
        op.Insert? && FirstIn(op.rels, i, x) && !exists l, m :: Lasting(ops, l, m, x.source, x.relation, x.target)
    {
      BroughtLast(ops, op, i, x);
    }
    if op.Delete? && (op.id == x.source || op.id == x.target) {
      forall k, i ensures !BroughtAt(all, k, i, x) { LastingSnoc(ops, op, k, i, x.source, x.relation, x.target); }
    } else {
      forall k: int, i: int | k < |ops| ensures BroughtAt(all, k, i, x) <==> BroughtAt(ops, k, i, x) { BroughtBefore(ops, op, k, i, x); }
      assert forall k, i :: BroughtAt(all, k, i, x) ==> k <= |ops|;
    }
  }

  /** Down to the confidence: a row is in the table exactly when it is the first lasting relation of its key. */
  lemma {:induction false} TableRowsMeaning(ops: seq<Op>, x: Row)
    ensures x in TableAfter({}, ops) <==> exists k, i :: BroughtAt(ops, k, i, x)
  {
    if ops != [] {
      var front, last := ops[..|ops| - 1], ops[|ops| - 1];
      assert ops == front + [last];
      TableRowsMeaning(front, x);
      KeyLasts(front, x.source, x.relation, x.target);
      BroughtSnoc(front, last, x);
      if last.Insert? { RowsAfterDocument(TableAfter({}, front), last.rels, x); }
    }
  }
}
