/** The events table of the warm store (adl_lite/memory.py: `_store_events`, `_load_hot_events_raw`, `retrieve_chain`): what
    runs of stores leave in it, and when a chain put together from it and the archive verifies. */
module EventsTables {
  import opened Basics
  import opened Events
  import opened DerivedState
  import opened EventChains
  import opened ColdStorages
  import opened Archiving
  import CrdtStates

  // ----- rows -----

  /** The rows by event id. A row holds neither signature nor proof. */
  type Table = map<string, Record>

  /** `INSERT OR REPLACE`, event by event. Nothing is ever removed. */
  function StoreAll(table: Table, rs: seq<Record>): Table {
    if rs == [] then table
    else
      var r := rs[|rs| - 1];
      StoreAll(table, rs[..|rs| - 1])[r.Id() := Stored(r)]
  }

  /** `delete_document`, as far as the events go. */
  function DeleteAll(table: Table, concept: string): Table {
    map id | id in table && table[id].fact.body.concept != concept :: table[id]
  }

  /** An answer of `SELECT ... WHERE concept_id = ? ORDER BY timestamp`: each row of the concept once, in time order; rows of
      one instant in any order. */
  ghost predicate Selects(table: Table, concept: string, rows: seq<Record>) {
    && Axiom7(rows) && Axiom5(rows)
    && (forall r :: r in rows ==> RowOf(table, concept, r))
    && (forall id :: id in table && table[id].fact.body.concept == concept ==> table[id] in rows)
  }

  predicate RowOf(table: Table, concept: string, r: Record) {
    r.Id() in table && table[r.Id()] == r && r.fact.body.concept == concept
  }

  ghost predicate KeyedById(table: Table) { forall id :: id in table ==> table[id].Id() == id }

  lemma {:induction false} StoredIsThere(table: Table, rs: seq<Record>)
    ensures forall r :: r in rs ==> r.Id() in StoreAll(table, rs)
    ensures Axiom5(rs) ==> forall r :: r in rs ==> StoreAll(table, rs)[r.Id()] == Stored(r)
  {
    if rs != [] {
      var n := |rs| - 1;
      StoredIsThere(table, rs[..n]);
      assert rs == rs[..n] + [rs[n]];
      if Axiom5(rs) {
        forall r | r in rs[..n] ensures r.Id() != rs[n].Id() { var k :| 0 <= k < n && rs[k] == r; }
      }
    }
  }

  /** Every row either was there before or is that of a stored event. */
  lemma {:induction false} StoreAdds(table: Table, rs: seq<Record>, id: string)
    requires id in StoreAll(table, rs)
    ensures (exists r :: r in rs && r.Id() == id && StoreAll(table, rs)[id] == Stored(r))
            || (id in table && StoreAll(table, rs)[id] == table[id])
  {
    if rs != [] {
      var n := |rs| - 1;
      assert rs == rs[..n] + [rs[n]];
      if id != rs[n].Id() { StoreAdds(table, rs[..n], id); }
    }
  }

  // ----- runs -----

  datatype TableOp = StoreOp(rs: seq<Record>) | DeleteOp(concept: string)

  function Run(ops: seq<TableOp>): Table {
    if ops == [] then map[]
    else
      match ops[|ops| - 1]
      case StoreOp(rs) => StoreAll(Run(ops[..|ops| - 1]), rs)
      case DeleteOp(concept) => DeleteAll(Run(ops[..|ops| - 1]), concept)
  }

  /** Every row of the concept is that of an event of `rs`. */
  ghost predicate RowsFrom(table: Table, concept: string, rs: seq<Record>) {
    KeyedById(table)
    && forall id :: id in table && table[id].fact.body.concept == concept ==> exists r :: r in rs && table[id] == Stored(r)
  }

  /** What is stored of the concept is the chain as it stood at some time; anything else may be stored as well. */
  ghost predicate StoresOf(ops: seq<TableOp>, concept: string, rs: seq<Record>) {
    forall k :: 0 <= k < |ops| && ops[k].StoreOp? ==> EventsFrom(ops[k].rs, concept, rs)
  }

  ghost predicate EventsFrom(part: seq<Record>, concept: string, rs: seq<Record>) {
    forall r :: r in part && r.fact.body.concept == concept ==> r in rs
  }

  lemma StoreKeepsRows(table: Table, part: seq<Record>, concept: string, rs: seq<Record>)
    requires RowsFrom(table, concept, rs) && EventsFrom(part, concept, rs)
    ensures RowsFrom(StoreAll(table, part), concept, rs)
  {
    forall id | id in StoreAll(table, part)
      ensures StoreAll(table, part)[id].Id() == id
      ensures StoreAll(table, part)[id].fact.body.concept == concept ==> exists r :: r in rs && StoreAll(table, part)[id] == Stored(r)
    {
      StoreAdds(table, part, id);
    }
  }

  /** Whatever was stored and deleted before, the rows of the concept are those of events of the chain. */
  lemma {:induction false} RowsOfRun(ops: seq<TableOp>, concept: string, rs: seq<Record>)
    requires StoresOf(ops, concept, rs)
    ensures RowsFrom(Run(ops), concept, rs)
  {
    if ops != [] {
      var n := |ops| - 1;
      RowsOfRun(ops[..n], concept, rs);
      match ops[n]
      case StoreOp(part) => StoreKeepsRows(Run(ops[..n]), part, concept, rs);
      case DeleteOp(_) =>
    }
  }

  /** A row of the chain's concept exists exactly for the events stored since the concept was last deleted. */
  ghost predicate StoredSince(ops: seq<TableOp>, concept: string, id: string) {
    exists k :: 0 <= k < |ops| && ops[k].StoreOp? && id in IdSet(ops[k].rs)
                && forall j :: k < j < |ops| ==> ops[j] != DeleteOp(concept)
  }

  /** An event's row is there exactly when the event was stored after the last deletion of its concept. */
  lemma {:induction false} RowExistsIff(ops: seq<TableOp>, concept: string, id: string)
    requires forall k, r :: 0 <= k < |ops| && ops[k].StoreOp? && r in ops[k].rs && r.Id() == id ==> r.fact.body.concept == concept
    ensures id in Run(ops) <==> StoredSince(ops, concept, id)
    ensures id in Run(ops) ==> Run(ops)[id].fact.body.concept == concept
  {
    if ops != [] {
      var n := |ops| - 1;
      RowExistsIff(ops[..n], concept, id);
      StoredSinceSnoc(ops, concept, id);
      match ops[n]
      case StoreOp(part) => StoredOrBefore(Run(ops[..n]), part, id);
      case DeleteOp(_) =>
    }
  }

  lemma StoredOrBefore(table: Table, part: seq<Record>, id: string)
    ensures id in StoreAll(table, part) <==> id in IdSet(part) || id in table
    ensures id in StoreAll(table, part) ==> (exists r :: r in part && r.Id() == id && StoreAll(table, part)[id] == Stored(r))
                                            || (id in table && StoreAll(table, part)[id] == table[id])
  {
    StoredIsThere(table, part);
    StoreKeeps(table, part);
    if id in StoreAll(table, part) { StoreAdds(table, part, id); }
  }

  lemma {:induction false} StoreKeeps(table: Table, part: seq<Record>)
    ensures forall id :: id in table ==> id in StoreAll(table, part)
  {
    if part != [] { StoreKeeps(table, part[..|part| - 1]); }
  }

  lemma StoredSinceSnoc(ops: seq<TableOp>, concept: string, id: string)
    requires ops != []
    ensures var n := |ops| - 1;
      StoredSince(ops, concept, id) <==>
        (ops[n].StoreOp? && id in IdSet(ops[n].rs)) || (ops[n] != DeleteOp(concept) && StoredSince(ops[..n], concept, id))
  {
    var n := |ops| - 1;
    assert forall k :: 0 <= k < n ==> ops[..n][k] == ops[k];
    if StoredSince(ops, concept, id) {
      var k :| 0 <= k < |ops| && ops[k].StoreOp? && id in IdSet(ops[k].rs) && forall j :: k < j < |ops| ==> ops[j] != DeleteOp(concept);
      assert k < n ==> ops[..n][k] == ops[k];
    }
    if ops[n] != DeleteOp(concept) && StoredSince(ops[..n], concept, id) {
      var k :| 0 <= k < n && ops[..n][k].StoreOp? && id in IdSet(ops[..n][k].rs) && forall j :: k < j < n ==> ops[..n][j] != DeleteOp(concept);
      assert ops[k].StoreOp? && id in IdSet(ops[k].rs);
      forall j | k < j < |ops| ensures ops[j] != DeleteOp(concept) { assert j < n ==> ops[..n][j] == ops[j]; }
    }
  }

  // ----- reading rows back -----

  /** A row read back: a default for an empty actor. */
  function FromRow(H: Hasher, r: Record): Record {
    var b := r.fact.body;
    ReadBack(H, r.(fact := r.fact.(body := b.(actor := if b.actor == "" then "system" else b.actor))))
  }

  function FromRows(H: Hasher, rows: seq<Record>): seq<Record> { seq(|rows|, i requires 0 <= i < |rows| => FromRow(H, rows[i])) }

  /** What `retrieve_chain` puts together from rows and archive. */
  function Retrieved(H: Hasher, rows: seq<Record>, archived: seq<Record>): seq<Record> {
    if rows == [] || archived == [] then FromRows(H, rows) else Rejoin(FromRows(H, rows), archived)
  }

  lemma RowReadBack(H: Hasher, r: Record)
    requires r.hash != "" && !Blank(r.fact.body.actor)
    ensures FromRow(H, Stored(r)) == Stored(r)
  {
    StoredKeepsHash(H, r);
    assert r.fact.body.actor != "";
  }

  /** An event without an actor comes back as one by "system", and no longer fits its hash -- or the two contents collide. */
  lemma EmptyActorComesBack(H: Hasher, r: Record)
    requires r.fact.body.actor == "" && r.hash == ComputeHash(H, r)
    ensures var back := FromRow(H, Stored(r));
      && back.fact.body.actor == "system" && back.hash == r.hash && back.fact.body.payload == r.fact.body.payload
      && (back.hash != ComputeHash(H, back) || Collision(H, ContentOf(back), ContentOf(r)))
  {
    assert ContentOf(Stored(r)) == ContentOf(r);
    assert ContentOf(FromRow(H, Stored(r))).actor == "system" && ContentOf(r).actor == "";
  }

  // ----- the chain after its first archive -----

  /** `a` is the ARCHIVE event that a first archive of `rs` writes, with an id, a reasoning, a payload and an instant of its own. */
  ghost predicate FirstArchive(H: Hasher, concept: string, rs: seq<Record>, keep: nat, a: Record) {
    && |rs| > keep + 1 && Archivable(H, concept, rs, a.Id())
    && a == ArchiveRecord(H, Hot(rs, keep), ArchiveBody(a.Id(), concept, a.fact.body.reasoning, a.fact.body.payload), a.Ts())
  }

  lemma ArchiveEvent(H: Hasher, concept: string, rs: seq<Record>, keep: nat, a: Record)
    requires FirstArchive(H, concept, rs, keep, a)
    ensures a.Kind() == Archive && a.fact.body.concept == concept && a.hash != "" && !Blank(a.fact.body.actor)
    ensures a.prevId == Some(Hot(rs, keep)[|Hot(rs, keep)| - 1].Id()) && BodyOk(a.fact.body)
  {
    ArchiveBodyOk(a.Id(), concept, a.fact.body.reasoning, a.fact.body.payload);
    assert |a.hash| == 64;
  }

  /** What `store_with_events` stores after the archive. */
  function Trimmed(rs: seq<Record>, keep: nat, a: Record): seq<Record> { Hot(rs, keep) + [a] }

  /** Rows that are events of the history, the first and the last among them. */
  ghost predicate RowsOfWhole(whole: seq<Record>, rows: seq<Record>) {
    && whole != [] && (forall r :: r in rows ==> exists q :: 0 <= q < |whole| && r == Stored(whole[q]))
    && Stored(whole[0]) in rows && Stored(whole[|whole| - 1]) in rows
  }

  lemma TrimmedIsFromWhole(rs: seq<Record>, keep: nat, a: Record)
    requires |rs| > keep + 1
    ensures forall r :: r in Trimmed(rs, keep, a) ==> r in rs + [a]
    ensures Trimmed(rs, keep, a)[0] == rs[0] && Trimmed(rs, keep, a)[keep + 1] == a && |Trimmed(rs, keep, a)| == keep + 2
    ensures forall k :: 1 <= k < keep + 2 ==> Trimmed(rs, keep, a)[k] == (rs + [a])[|rs| - keep + k - 1]
  {
    var t := Trimmed(rs, keep, a);
    forall k | 1 <= k < keep + 2 ensures t[k] == (rs + [a])[|rs| - keep + k - 1] {
      if k < keep + 1 { assert t[k] == Hot(rs, keep)[k] == rs[|rs| - keep..][k - 1]; }
    }
    forall r | r in t ensures r in rs + [a] {
      var k :| 0 <= k < |t| && t[k] == r;
      if k == 0 { assert (rs + [a])[0] == r; }
    }
  }

  /** What can be selected after the trimmed chain was stored. */
  lemma SelectedRows(table: Table, concept: string, rs: seq<Record>, keep: nat, a: Record, rows: seq<Record>)
    requires |rs| > keep + 1 && Axiom5(Trimmed(rs, keep, a)) && Axiom2(concept, rs + [a]) && RowsFrom(table, concept, rs)
    requires Selects(StoreAll(table, Trimmed(rs, keep, a)), concept, rows)
    ensures RowsOfWhole(rs + [a], rows)
    ensures forall r :: r in Trimmed(rs, keep, a) ==> Stored(r) in rows
    ensures forall r :: r in rows && r !in StoredAll(Trimmed(rs, keep, a)) ==> r.Id() in table && table[r.Id()] == r
  {
    var t := Trimmed(rs, keep, a);
    TrimmedIsFromWhole(rs, keep, a);
    StoredIsThere(table, t);
    forall r | r in t ensures Stored(r) in rows { InConcept(concept, rs + [a], r); }
    assert t[0] in t && t[keep + 1] in t;
    forall r | r in rows
      ensures exists q :: 0 <= q < |rs + [a]| && r == Stored((rs + [a])[q])
      ensures r !in StoredAll(t) ==> r.Id() in table && table[r.Id()] == r
    {
      FromWhere(table, concept, rs, keep, a, r);
    }
  }

  lemma InConcept(concept: string, rs: seq<Record>, r: Record)
    requires Axiom2(concept, rs) && r in rs
    ensures r.fact.body.concept == concept
  {
  }

  lemma FromWhere(table: Table, concept: string, rs: seq<Record>, keep: nat, a: Record, r: Record)
    requires |rs| > keep + 1 && RowsFrom(table, concept, rs) && RowOf(StoreAll(table, Trimmed(rs, keep, a)), concept, r)
    ensures exists q :: 0 <= q < |rs + [a]| && r == Stored((rs + [a])[q])
    ensures r !in StoredAll(Trimmed(rs, keep, a)) ==> r.Id() in table && table[r.Id()] == r
  {
    var t := Trimmed(rs, keep, a);
    TrimmedIsFromWhole(rs, keep, a);
    StoreAdds(table, t, r.Id());
    if x :| x in t && x.Id() == r.Id() && StoreAll(table, t)[r.Id()] == Stored(x) {
      var k :| 0 <= k < |t| && t[k] == x;
      assert StoredAll(t)[k] == r;
      assert x in rs + [a];
      var q :| 0 <= q < |rs + [a]| && (rs + [a])[q] == x;
    } else {
      var x :| x in rs && r == Stored(x);
      var q :| 0 <= q < |rs| && rs[q] == x;
      assert (rs + [a])[q] == x;
    }
  }

  // ----- the links leave one order only -----

  /** What stands in front of row `k` once the archive is put behind the first row. */
  function Before(rows: seq<Record>, archived: seq<Record>, k: nat): Record
    requires archived != [] && 1 <= k < |rows|
  {
    if k == 1 then archived[|archived| - 1] else rows[k - 1]
  }

  lemma LinkedBehindSecond(H: Hasher, concept: string, rs: seq<Record>, i: nat)
    requires WellFormed(H, concept, rs) && 2 <= i < |rs|
    ensures LinkedTo(rs[i], rs[i - 1])
  {
  }

  lemma RejoinLinks(H: Hasher, concept: string, rows: seq<Record>, archived: seq<Record>)
    requires rows != [] && archived != [] && WellFormed(H, concept, Rejoin(rows, archived))
    ensures forall k :: 1 <= k < |rows| ==> RowLinked(rows, archived, k)
  {
    forall k | 1 <= k < |rows| ensures RowLinked(rows, archived, k) {
      RejoinAt(rows, archived, k);
      LinkedBehindSecond(H, concept, Rejoin(rows, archived), |archived| + k);
    }
  }

  lemma RejoinAt(rows: seq<Record>, archived: seq<Record>, k: nat)
    requires archived != [] && 1 <= k < |rows|
    ensures var out, m := Rejoin(rows, archived), |archived|;
      |out| == m + |rows| && out[m + k] == rows[k] && out[m + k - 1] == Before(rows, archived, k)
  {
  }

  ghost predicate ChainedBack(whole: seq<Record>) {
    && whole != [] && whole[0].prevId == None
    && forall q :: 1 <= q < |whole| ==> ChainedAt(whole, q)
  }

  predicate ChainedAt(whole: seq<Record>, q: nat)
    requires 1 <= q < |whole|
  {
    LinkedTo(whole[q], whole[q - 1])
  }

  /** Row `k` is linked to what stands in front of it. */
  predicate RowLinked(rows: seq<Record>, archived: seq<Record>, k: nat)
    requires archived != [] && 1 <= k < |rows|
  {
    LinkedTo(rows[k], Before(rows, archived, k))
  }

  /** Row `k` is the event as far behind the `n`-th of the history. */
  predicate RowIs(whole: seq<Record>, rows: seq<Record>, n: nat, k: nat)
    requires 1 <= n && 1 <= k < |rows|
  {
    n + k - 1 < |whole| && rows[k] == Stored(whole[n + k - 1])
  }

  lemma GenesisFirst(whole: seq<Record>, rows: seq<Record>, archived: seq<Record>)
    requires RowsOfWhole(whole, rows) && whole[0].prevId == None && archived != []
    requires forall k :: 1 <= k < |rows| ==> RowLinked(rows, archived, k)
    ensures rows != [] && rows[0] == Stored(whole[0])
  {
    var k :| 0 <= k < |rows| && rows[k] == Stored(whole[0]);
    assert k > 0 ==> RowLinked(rows, archived, k);
  }

  /** Each row behind the first is the next event of the history. */
  lemma {:induction false} RowAt(whole: seq<Record>, rows: seq<Record>, archived: seq<Record>, n: nat, k: nat)
    requires RowsOfWhole(whole, rows) && Axiom5(whole) && ChainedBack(whole) && archived != []
    requires forall k :: 1 <= k < |rows| ==> RowLinked(rows, archived, k)
    requires 1 <= n < |whole| && archived[|archived| - 1].Id() == whole[n - 1].Id()
    requires 1 <= k < |rows|
    ensures RowIs(whole, rows, n, k)
  {
    if k > 1 { RowAt(whole, rows, archived, n, k - 1); }
    assert rows[k] in rows;
    var q :| 0 <= q < |whole| && rows[k] == Stored(whole[q]);
    assert RowLinked(rows, archived, k);
    assert whole[q].prevId == Some(whole[n + k - 2].Id());
    assert ChainedAt(whole, q);
    SameIdSameIndex(whole, q - 1, n + k - 2);
  }

  lemma OrderForced(whole: seq<Record>, rows: seq<Record>, archived: seq<Record>, n: nat)
    requires RowsOfWhole(whole, rows) && Axiom5(whole) && ChainedBack(whole) && archived != []
    requires forall k :: 1 <= k < |rows| ==> RowLinked(rows, archived, k)
    requires 1 <= n < |whole| && archived[|archived| - 1].Id() == whole[n - 1].Id()
    ensures |rows| == |whole| - n + 1 && rows[0] == Stored(whole[0])
    ensures forall k :: 1 <= k < |rows| ==> RowIs(whole, rows, n, k)
  {
    GenesisFirst(whole, rows, archived);
    forall k | 1 <= k < |rows| ensures RowIs(whole, rows, n, k) { RowAt(whole, rows, archived, n, k); }
    var k :| 0 <= k < |rows| && rows[k] == Stored(whole[|whole| - 1]);
    assert k > 0 ==> RowIs(whole, rows, n, k);
    SameIdSameIndex(whole, if k == 0 then 0 else n + k - 1, |whole| - 1);
    assert |rows| > 1 ==> RowIs(whole, rows, n, |rows| - 1);
  }

  lemma WholeIsChained(H: Hasher, rs: seq<Record>, keep: nat, a: Record)
    requires AppendBuilt(H, rs) && |rs| > keep + 1
    requires a.prevId == Some(Hot(rs, keep)[|Hot(rs, keep)| - 1].Id())
    ensures rs[0].prevId == None
    ensures keep > 0 ==> ChainedBack(rs + [a])
    ensures keep == 0 ==> a.prevId == Some(rs[0].Id())
  {
    var whole := rs + [a];
    BuiltLinks(H, rs, 0);
    forall q | 1 <= q < |whole| ensures keep > 0 ==> ChainedAt(whole, q) {
      if q < |rs| { BuiltLinks(H, rs, q); assert whole[q] == rs[q] && whole[q - 1] == rs[q - 1]; }
    }
  }

  lemma WholeIsDistinct(rs: seq<Record>, a: Record)
    requires Axiom5(rs) && forall i :: 0 <= i < |rs| ==> rs[i].Id() != a.Id()
    ensures Axiom5(rs + [a])
  {
  }

  /** Keeping nothing links the ARCHIVE event to the genesis event: it cannot stand behind an archived one. */
  lemma NothingKeptFails(rs: seq<Record>, a: Record, rows: seq<Record>, archived: seq<Record>)
    requires |rs| > 1 && Axiom5(rs + [a]) && RowsOfWhole(rs + [a], rows) && Axiom5(rows) && rs[0].prevId == None
    requires a.prevId == Some(rs[0].Id()) && archived != [] && archived[|archived| - 1].Id() == rs[|rs| - 1].Id()
    ensures exists k :: 1 <= k < |rows| && !RowLinked(rows, archived, k)
  {
    var whole := rs + [a];
    assert whole[|rs|] == a && whole[0] == rs[0] && whole[|rs| - 1] == rs[|rs| - 1];
    var g :| 0 <= g < |rows| && rows[g] == Stored(rs[0]);
    if g > 0 {
      assert !RowLinked(rows, archived, g);
    } else {
      var k :| 0 <= k < |rows| && rows[k] == Stored(a);
      assert rows[k].Id() != rows[0].Id();
      assert Before(rows, archived, k).Id() != rs[0].Id();
      assert !RowLinked(rows, archived, k);
    }
  }

  // ----- when the retrieved chain verifies -----

  lemma RowsAreReadable(H: Hasher, concept: string, rs: seq<Record>, a: Record, rows: seq<Record>)
    requires WellFormed(H, concept, rs) && a.hash != "" && !Blank(a.fact.body.actor) && RowsOfWhole(rs + [a], rows)
    ensures FromRows(H, rows) == rows
  {
    forall i | 0 <= i < |rows| ensures FromRow(H, rows[i]) == rows[i] {
      assert rows[i] in rows;
      var q :| 0 <= q < |rs + [a]| && rows[i] == Stored((rs + [a])[q]);
      if q < |rs| { RecordOk(H, concept, rs, q); assert (rs + [a])[q] == rs[q]; }
      RowReadBack(H, (rs + [a])[q]);
    }
  }

  lemma RetrievedShape(H: Hasher, concept: string, rs: seq<Record>, keep: nat, a: Record, rows: seq<Record>)
    requires WellFormed(H, concept, rs) && |rs| > keep + 1 && a.hash != "" && !Blank(a.fact.body.actor) && RowsOfWhole(rs + [a], rows)
    ensures rows != [] && Middle(rs, keep) != []
    ensures Retrieved(H, rows, ReadBackAll(H, StoredAll(Middle(rs, keep)))) == Rejoin(rows, StoredAll(Middle(rs, keep)))
  {
    RowsAreReadable(H, concept, rs, a, rows);
    MiddleReadsBack(H, concept, rs, keep);
    assert |StoredAll(Middle(rs, keep))| == |Middle(rs, keep)| > 0;
  }

  /** A retrieved chain that verifies was selected in its own order, with nothing but the trimmed chain in the table. */
  lemma VerifiedMeansInOrder(H: Hasher, concept: string, rs: seq<Record>, keep: nat, a: Record, rows: seq<Record>)
    requires FirstArchive(H, concept, rs, keep, a) && RowsOfWhole(rs + [a], rows) && Axiom5(rows)
    requires WellFormed(H, concept, Rejoin(rows, StoredAll(Middle(rs, keep))))
    ensures keep > 0 && rows == StoredAll(Trimmed(rs, keep, a))
  {
    ArchiveEvent(H, concept, rs, keep, a);
    RejoinLinks(H, concept, rows, StoredAll(Middle(rs, keep)));
    WholeIsDistinct(rs, a);
    LinkedMeansInOrder(H, rs, keep, a, rows);
  }

  lemma LinkedMeansInOrder(H: Hasher, rs: seq<Record>, keep: nat, a: Record, rows: seq<Record>)
    requires AppendBuilt(H, rs) && |rs| > keep + 1 && Axiom5(rs + [a]) && RowsOfWhole(rs + [a], rows) && Axiom5(rows)
    requires a.prevId == Some(Hot(rs, keep)[|Hot(rs, keep)| - 1].Id())
    requires forall k :: 1 <= k < |rows| ==> RowLinked(rows, StoredAll(Middle(rs, keep)), k)
    ensures keep > 0 && rows == StoredAll(Trimmed(rs, keep, a))
  {
    LastArchived(rs, keep);
    WholeIsChained(H, rs, keep, a);
    if keep == 0 {
      NothingKeptFails(rs, a, rows, StoredAll(Middle(rs, keep)));
    } else {
      ChainedMeansInOrder(rs, keep, a, rows, StoredAll(Middle(rs, keep)));
    }
  }

  lemma LastArchived(rs: seq<Record>, keep: nat)
    requires |rs| > keep + 1
    ensures var mid := StoredAll(Middle(rs, keep)); mid != [] && mid[|mid| - 1].Id() == rs[|rs| - keep - 1].Id()
  {
    var mid := Middle(rs, keep);
    assert mid[|mid| - 1] == rs[|rs| - keep - 1];
    assert StoredAll(mid)[|mid| - 1] == Stored(mid[|mid| - 1]);
  }

  lemma ChainedMeansInOrder(rs: seq<Record>, keep: nat, a: Record, rows: seq<Record>, archived: seq<Record>)
    requires |rs| > keep + 1 && Axiom5(rs + [a]) && RowsOfWhole(rs + [a], rows) && ChainedBack(rs + [a])
    requires archived != [] && archived[|archived| - 1].Id() == rs[|rs| - keep - 1].Id()
    requires forall k :: 1 <= k < |rows| ==> RowLinked(rows, archived, k)
    ensures rows == StoredAll(Trimmed(rs, keep, a))
  {
    var whole, n := rs + [a], |rs| - keep;
    assert whole[n - 1] == rs[n - 1];
    OrderForced(whole, rows, archived, n);
    RowsAreTrimmed(rs, keep, a, whole, n, rows);
  }

  lemma RowsAreTrimmed(rs: seq<Record>, keep: nat, a: Record, whole: seq<Record>, n: nat, rows: seq<Record>)
    requires |rs| > keep + 1 && whole == rs + [a] && n == |rs| - keep && |rows| == keep + 2 && rows[0] == Stored(whole[0])
    requires forall k :: 1 <= k < |rows| ==> RowIs(whole, rows, n, k)
    ensures rows == StoredAll(Trimmed(rs, keep, a))
  {
    TrimmedIsFromWhole(rs, keep, a);
    forall k | 0 <= k < |rows| ensures rows[k] == StoredAll(Trimmed(rs, keep, a))[k] {
      assert k > 0 ==> RowIs(whole, rows, n, k);
    }
  }

  lemma InOrderStrips(H: Hasher, concept: string, rs: seq<Record>, keep: nat, a: Record)
    requires |rs| > keep + 1
    ensures StripsTo(rs + [a], Rejoin(StoredAll(Trimmed(rs, keep, a)), StoredAll(Middle(rs, keep))), i => true)
  {
    StoredParts(rs, keep, a);
  }

  lemma StoredParts(rs: seq<Record>, keep: nat, a: Record)
    requires |rs| > keep + 1
    ensures Rejoin(StoredAll(Trimmed(rs, keep, a)), StoredAll(Middle(rs, keep))) == StoredAll(rs + [a])
  {
    var n := |rs| - keep;
    var hot := StoredAll(Trimmed(rs, keep, a));
    var out := Rejoin(hot, StoredAll(Middle(rs, keep)));
    TrimmedIsFromWhole(rs, keep, a);
    assert |out| == |rs| + 1;
    forall i | 0 <= i < |out| ensures out[i] == Stored((rs + [a])[i]) {
      if i == 0 {
        assert out[0] == hot[0] && (rs + [a])[0] == rs[0];
      } else if i < n {
        assert out[i] == StoredAll(Middle(rs, keep))[i - 1];
      } else {
        assert out[i] == hot[1..][i - n] == hot[i - n + 1];
      }
    }
  }

  ghost predicate NoProofs(rs: seq<Record>) { forall i :: 0 <= i < |rs| ==> !NeedsProof(rs[i].Kind()) }

  lemma NoProofsWithArchive(rs: seq<Record>, a: Record)
    requires a.Kind() == Archive
    ensures (forall i :: 0 <= i < |rs + [a]| ==> !NeedsProof((rs + [a])[i].Kind())) <==> NoProofs(rs)
  {
    var whole := rs + [a];
    assert forall i :: 0 <= i < |rs| ==> whole[i] == rs[i];
    if forall i :: 0 <= i < |whole| ==> !NeedsProof(whole[i].Kind()) {
      forall i | 0 <= i < |rs| ensures !NeedsProof(rs[i].Kind()) { assert whole[i] == rs[i]; }
    }
  }

  /** Selected in its own order, the chain verifies exactly when no event at all is of a kind that must carry a proof,
      something was kept hot, and the clock was not behind. */
  lemma InOrderVerifiesIff(H: Hasher, concept: string, rs: seq<Record>, keep: nat, a: Record)
    requires FirstArchive(H, concept, rs, keep, a)
    ensures WellFormed(H, concept, Rejoin(StoredAll(Trimmed(rs, keep, a)), StoredAll(Middle(rs, keep)))) <==>
              keep > 0 && rs[|rs| - 1].Ts() <= a.Ts() && NoProofs(rs)
  {
    ArchiveEvent(H, concept, rs, keep, a);
    InOrderStrips(H, concept, rs, keep, a);
    WholeVerifiesIffHotTail(H, concept, rs, keep, a.Id(), a.fact.body.reasoning, a.fact.body.payload, a.Ts());
    forall i | 0 <= i < |rs + [a]| ensures BodyOk((rs + [a])[i].fact.body) { if i < |rs| { RecordOk(H, concept, rs, i); } }
    StripsMeanwhile(H, concept, rs + [a], Rejoin(StoredAll(Trimmed(rs, keep, a)), StoredAll(Middle(rs, keep))), i => true,
                    keep > 0 && rs[|rs| - 1].Ts() <= a.Ts());
    NoProofsWithArchive(rs, a);
  }

  /** After the first archive, with any rows left by earlier stores in the table and for any answer of the database: the
      retrieved chain verifies exactly when the answer is the trimmed chain in its own order, something was kept hot, and no
      event at all is of a kind that must carry a proof. */
  lemma RetrievedInOrderIff(H: Hasher, concept: string, rs: seq<Record>, keep: nat, a: Record,
                            table: Table, rows: seq<Record>)
    requires FirstArchive(H, concept, rs, keep, a) && RowsFrom(table, concept, rs)
    requires Selects(StoreAll(table, Trimmed(rs, keep, a)), concept, rows)
    ensures WellFormed(H, concept, Retrieved(H, rows, ReadBackAll(H, StoredAll(Middle(rs, keep))))) <==>
        keep > 0 && rows == StoredAll(Trimmed(rs, keep, a)) && NoProofs(rs)
  {
    ArchiveEvent(H, concept, rs, keep, a);
    TrimmedHistory(H, concept, rs, keep, a);
    SelectedRows(table, concept, rs, keep, a, rows);
    RetrievedShape(H, concept, rs, keep, a, rows);
    RowsVerifyIff(H, concept, rs, keep, a, rows);
  }

  lemma RowsVerifyIff(H: Hasher, concept: string, rs: seq<Record>, keep: nat, a: Record,
                      rows: seq<Record>)
    requires FirstArchive(H, concept, rs, keep, a) && Axiom5(rows) && Axiom7(rows) && RowsOfWhole(rs + [a], rows)
    ensures WellFormed(H, concept, Rejoin(rows, StoredAll(Middle(rs, keep)))) <==>
        keep > 0 && rows == StoredAll(Trimmed(rs, keep, a)) && NoProofs(rs)
  {
    InOrderVerifiesIff(H, concept, rs, keep, a);
    if rows == StoredAll(Trimmed(rs, keep, a)) {
      if keep > 0 { InOrderMeansClock(rs, keep, a); }
    } else if WellFormed(H, concept, Rejoin(rows, StoredAll(Middle(rs, keep)))) {
      VerifiedMeansInOrder(H, concept, rs, keep, a, rows);
    }
  }

  lemma TrimmedHistory(H: Hasher, concept: string, rs: seq<Record>, keep: nat, a: Record)
    requires Archivable(H, concept, rs, a.Id()) && |rs| > keep + 1 && a.fact.body.concept == concept
    ensures Axiom5(Trimmed(rs, keep, a)) && Axiom2(concept, rs + [a])
  {
    KeptIdsDistinct(rs, keep);
    FreshBehind(rs, keep, a, a.Id());
  }

  lemma InOrderMeansClock(rs: seq<Record>, keep: nat, a: Record)
    requires |rs| > keep + 1 && keep > 0 && Axiom7(StoredAll(Trimmed(rs, keep, a)))
    ensures rs[|rs| - 1].Ts() <= a.Ts()
  {
    var t := StoredAll(Trimmed(rs, keep, a));
    TrimmedIsFromWhole(rs, keep, a);
    assert t[keep].Ts() <= t[keep + 1].Ts();
  }

  // ----- when the answer is in order -----

  /** No row of the concept is left of any of these events. */
  ghost predicate NoneLeft(table: Table, concept: string, archived: seq<Record>) {
    forall r :: r in archived && r.Id() in table ==> table[r.Id()].fact.body.concept != concept
  }

  ghost predicate StrictInstants(rs: seq<Record>) { forall i, j :: 0 <= i < j < |rs| ==> rs[i].Ts() < rs[j].Ts() }

  predicate NotLater(r: Record, s: Record) { r.Ts() <= s.Ts() }

  lemma {:induction false} OrderedPairs(rs: seq<Record>, i: nat, j: nat)
    requires Axiom7(rs) && i <= j < |rs|
    ensures rs[i].Ts() <= rs[j].Ts()
    decreases j
  {
    if i < j { OrderedPairs(rs, i, j - 1); }
  }

  lemma OrderedByTime(rs: seq<Record>)
    requires Axiom7(rs)
    ensures SortedBy(rs, NotLater)
  {
    forall i, j | 0 <= i < j < |rs| ensures NotLater(rs[i], rs[j]) { OrderedPairs(rs, i, j); }
  }

  lemma {:induction false} StoreLeavesOthers(table: Table, rs: seq<Record>, id: string)
    requires id in table && id !in IdSet(rs)
    ensures id in StoreAll(table, rs) && StoreAll(table, rs)[id] == table[id]
  {
    if rs != [] {
      assert rs == rs[..|rs| - 1] + [rs[|rs| - 1]];
      assert rs[|rs| - 1] in rs;
      assert forall r :: r in rs[..|rs| - 1] ==> r in rs;
      StoreLeavesOthers(table, rs[..|rs| - 1], id);
    }
  }

  lemma MiddleApart(rs: seq<Record>, keep: nat, a: Record, x: Record)
    requires |rs| > keep + 1 && Axiom5(rs + [a]) && x in Middle(rs, keep)
    ensures x.Id() !in IdSet(Trimmed(rs, keep, a))
  {
    var whole, t := rs + [a], Trimmed(rs, keep, a);
    var m :| 0 <= m < |Middle(rs, keep)| && Middle(rs, keep)[m] == x;
    assert whole[m + 1] == x;
    TrimmedIsFromWhole(rs, keep, a);
    forall r | r in t ensures r.Id() != x.Id() {
      var k :| 0 <= k < |t| && t[k] == r;
      assert whole[if k == 0 then 0 else |rs| - keep + k - 1] == r;
    }
  }

  /** A row left of an archived event is selected, and so comes back twice. */
  lemma LeftIsSelected(table: Table, concept: string, rs: seq<Record>, keep: nat, a: Record, rows: seq<Record>)
    requires |rs| > keep + 1 && Axiom5(rs + [a]) && KeyedById(table)
    requires Selects(StoreAll(table, Trimmed(rs, keep, a)), concept, rows) && rows == StoredAll(Trimmed(rs, keep, a))
    ensures NoneLeft(table, concept, Middle(rs, keep))
  {
    var t := Trimmed(rs, keep, a);
    forall x | x in Middle(rs, keep) && x.Id() in table ensures table[x.Id()].fact.body.concept != concept {
      MiddleApart(rs, keep, a, x);
      StoreLeavesOthers(table, t, x.Id());
      assert table[x.Id()] !in StoredAll(t) by { NotStored(t, table[x.Id()]); }
    }
  }

  lemma NotStored(rs: seq<Record>, r: Record)
    requires r.Id() !in IdSet(rs)
    ensures r !in StoredAll(rs)
  {
    forall i | 0 <= i < |rs| ensures StoredAll(rs)[i] != r { assert rs[i] in rs; }
  }

  lemma IsStored(rs: seq<Record>, r: Record)
    requires r in rs
    ensures Stored(r) in StoredAll(rs)
  {
    var k :| 0 <= k < |rs| && rs[k] == r;
    assert StoredAll(rs)[k] == Stored(r);
  }

  lemma StayedOrLeft(rs: seq<Record>, keep: nat, a: Record, x: Record)
    requires |rs| > keep + 1 && x in rs
    ensures x in Trimmed(rs, keep, a) || x in Middle(rs, keep)
  {
    var q :| 0 <= q < |rs| && rs[q] == x;
    TrimmedIsFromWhole(rs, keep, a);
    var t := Trimmed(rs, keep, a);
    if q == 0 {
      assert t[0] == x;
    } else if q < |rs| - keep {
      assert Middle(rs, keep)[q - 1] == x;
    } else {
      assert t[q - (|rs| - keep) + 1] == (rs + [a])[q];
    }
  }

  lemma OnlyTrimmed(table: Table, concept: string, rs: seq<Record>, keep: nat, a: Record, r: Record)
    requires |rs| > keep + 1 && RowsFrom(table, concept, rs) && NoneLeft(table, concept, Middle(rs, keep))
    requires r !in StoredAll(Trimmed(rs, keep, a)) ==> r.Id() in table && table[r.Id()] == r
    requires r.fact.body.concept == concept
    ensures r in StoredAll(Trimmed(rs, keep, a))
  {
    if r.Id() in table && table[r.Id()] == r {
      var x :| x in rs && r == Stored(x);
      StayedOrLeft(rs, keep, a, x);
      if x in Trimmed(rs, keep, a) { IsStored(Trimmed(rs, keep, a), x); }
    }
  }

  lemma SelectedInOrder(table: Table, concept: string, rs: seq<Record>, keep: nat, a: Record, rows: seq<Record>)
    requires |rs| > keep + 1 && Axiom5(rs + [a]) && Axiom5(Trimmed(rs, keep, a)) && Axiom2(concept, rs + [a]) && RowsFrom(table, concept, rs)
    requires Selects(StoreAll(table, Trimmed(rs, keep, a)), concept, rows)
    requires StrictInstants(Trimmed(rs, keep, a)) && NoneLeft(table, concept, Middle(rs, keep))
    ensures rows == StoredAll(Trimmed(rs, keep, a))
  {
    var t := Trimmed(rs, keep, a);
    SelectedRows(table, concept, rs, keep, a, rows);
    forall r | r in rows ensures r in StoredAll(t) { OnlyTrimmed(table, concept, rs, keep, a, r); }
    forall r | r in StoredAll(t) ensures r in rows {
      var k :| 0 <= k < |t| && StoredAll(t)[k] == r;
      assert t[k] in t;
    }
    InTheirOrder(t, rows);
  }

  lemma InTheirOrder(t: seq<Record>, rows: seq<Record>)
    requires Axiom5(t) && StrictInstants(t) && Axiom5(rows) && Axiom7(rows) && forall r :: r in rows <==> r in StoredAll(t)
    ensures rows == StoredAll(t)
  {
    DistinctMultiplicity(rows, StoredAll(t));
    OrderedByTime(rows);
    forall r, s | r in rows && s in rows && NotLater(r, s) && NotLater(s, r) ensures r == s {
      var i :| 0 <= i < |t| && StoredAll(t)[i] == r;
      var j :| 0 <= j < |t| && StoredAll(t)[j] == s;
      assert t[i].Ts() == t[j].Ts();
    }
    SortedArrangementIsUnique(rows, StoredAll(t), NotLater);
  }

  /** The instants of what stays in the chain are distinct, the ARCHIVE event's included. */
  ghost predicate DistinctWhenTrimmed(rs: seq<Record>, keep: nat, now: Time)
    requires |rs| > keep + 1
  {
    StrictInstants(Hot(rs, keep)) && now != rs[|rs| - 1].Ts()
  }

  lemma StrictWhenTrimmed(rs: seq<Record>, keep: nat, a: Record)
    requires |rs| > keep + 1 && keep > 0 && DistinctWhenTrimmed(rs, keep, a.Ts()) && rs[|rs| - 1].Ts() <= a.Ts()
    ensures StrictInstants(Trimmed(rs, keep, a))
  {
    var t, kept := Trimmed(rs, keep, a), Hot(rs, keep);
    assert kept[|kept| - 1] == rs[|rs| - 1];
    forall i, j | 0 <= i < j < |t| ensures t[i].Ts() < t[j].Ts() {
      assert t[i] == kept[i];
      if j < |kept| { assert t[j] == kept[j]; } else { assert t[j] == a && kept[i].Ts() <= kept[|kept| - 1].Ts(); }
    }
  }

  /** With distinct instants: the retrieved chain verifies exactly when something was kept hot, the clock was not behind, no
      event at all is of a kind that must carry a proof, and no row of an archived event was left in the table. */
  lemma RetrievedVerifiesIff(H: Hasher, concept: string, rs: seq<Record>, keep: nat, a: Record,
                             table: Table, rows: seq<Record>)
    requires FirstArchive(H, concept, rs, keep, a) && RowsFrom(table, concept, rs) && DistinctWhenTrimmed(rs, keep, a.Ts())
    requires Selects(StoreAll(table, Trimmed(rs, keep, a)), concept, rows)
    ensures WellFormed(H, concept, Retrieved(H, rows, ReadBackAll(H, StoredAll(Middle(rs, keep))))) <==>
              keep > 0 && rs[|rs| - 1].Ts() <= a.Ts() && NoProofs(rs) && NoneLeft(table, concept, Middle(rs, keep))
  {
    RetrievedInOrderIff(H, concept, rs, keep, a, table, rows);
    TrimmedHistory(H, concept, rs, keep, a);
    if keep > 0 {
      WholeIsDistinct(rs, a);
      InOrderIffNoneLeft(table, concept, rs, keep, a, rows);
    }
  }

  lemma InOrderIffNoneLeft(table: Table, concept: string, rs: seq<Record>, keep: nat, a: Record, rows: seq<Record>)
    requires |rs| > keep + 1 && keep > 0 && Axiom5(rs + [a]) && Axiom5(Trimmed(rs, keep, a)) && Axiom2(concept, rs + [a])
    requires RowsFrom(table, concept, rs) && DistinctWhenTrimmed(rs, keep, a.Ts())
    requires Selects(StoreAll(table, Trimmed(rs, keep, a)), concept, rows)
    ensures rows == StoredAll(Trimmed(rs, keep, a)) <==> rs[|rs| - 1].Ts() <= a.Ts() && NoneLeft(table, concept, Middle(rs, keep))
  {
    if rows == StoredAll(Trimmed(rs, keep, a)) {
      InOrderMeansClock(rs, keep, a);
      LeftIsSelected(table, concept, rs, keep, a, rows);
    } else if rs[|rs| - 1].Ts() <= a.Ts() && NoneLeft(table, concept, Middle(rs, keep)) {
      StrictWhenTrimmed(rs, keep, a);
      SelectedInOrder(table, concept, rs, keep, a, rows);
    }
  }

  /** Ids are not shared with events of other concepts. */
  ghost predicate IdsApart(ops: seq<TableOp>, concept: string, rs: seq<Record>) {
    forall k, r, x :: 0 <= k < |ops| && ops[k].StoreOp? && r in ops[k].rs && x in rs && r.Id() == x.Id() ==> r.fact.body.concept == concept
  }

  /** The same over every run of stores and deletions before the archive: what counts is that no archived event was stored
      since the concept was last deleted. */
  lemma RetrievedAfterRunIff(H: Hasher, concept: string, rs: seq<Record>, keep: nat, a: Record,
                             ops: seq<TableOp>, rows: seq<Record>)
    requires FirstArchive(H, concept, rs, keep, a) && DistinctWhenTrimmed(rs, keep, a.Ts())
    requires StoresOf(ops, concept, rs) && IdsApart(ops, concept, rs)
    requires Selects(StoreAll(Run(ops), Trimmed(rs, keep, a)), concept, rows)
    ensures WellFormed(H, concept, Retrieved(H, rows, ReadBackAll(H, StoredAll(Middle(rs, keep))))) <==>
              keep > 0 && rs[|rs| - 1].Ts() <= a.Ts() && NoProofs(rs)
              && forall x :: x in Middle(rs, keep) ==> !StoredSince(ops, concept, x.Id())
  {
    RowsOfRun(ops, concept, rs);
    RetrievedVerifiesIff(H, concept, rs, keep, a, Run(ops), rows);
    forall x | x in Middle(rs, keep)
      ensures StoredSince(ops, concept, x.Id()) <==> x.Id() in Run(ops) && Run(ops)[x.Id()].fact.body.concept == concept
    {
      assert x in rs;
      RowExistsIff(ops, concept, x.Id());
    }
  }

  // ----- status and confidence come back -----

  lemma StoredAlike(r: Record)
    ensures CrdtStates.Alike(r, Stored(r)) && CrdtStates.Alike(Stored(r), r) && (Readable(Stored(r).fact.body) <==> Readable(r.fact.body))
  {
  }

  /** The same events, up to signatures and proofs, in any order and any number. */
  ghost predicate SameEvents(whole: seq<Record>, out: seq<Record>) {
    && (forall r :: r in out ==> exists q :: 0 <= q < |whole| && r == Stored(whole[q]))
    && (forall q :: 0 <= q < |whole| ==> Stored(whole[q]) in out)
  }

  lemma SameEventsBelow(whole: seq<Record>, out: seq<Record>)
    requires SameEvents(whole, out)
    ensures CrdtStates.Below(out, whole) && CrdtStates.Below(whole, out)
  {
    forall r | r in out ensures exists s :: s in whole && CrdtStates.Alike(r, s) {
      var q :| 0 <= q < |whole| && r == Stored(whole[q]);
      StoredAlike(whole[q]);
      assert whole[q] in whole;
    }
    forall s | s in whole ensures exists r :: r in out && CrdtStates.Alike(s, r) {
      var q :| 0 <= q < |whole| && whole[q] == s;
      StoredAlike(s);
      assert Stored(s) in out;
    }
  }

  lemma SameEventsReadable(whole: seq<Record>, out: seq<Record>)
    requires SameEvents(whole, out)
    ensures AllReadable(out) <==> AllReadable(whole)
  {
    if AllReadable(whole) {
      forall i | 0 <= i < |out| ensures Readable(out[i].fact.body) {
        assert out[i] in out;
        var q :| 0 <= q < |whole| && out[i] == Stored(whole[q]);
        StoredAlike(whole[q]);
      }
    }
    if AllReadable(out) {
      forall q | 0 <= q < |whole| ensures Readable(whole[q].fact.body) {
        var i :| 0 <= i < |out| && out[i] == Stored(whole[q]);
        StoredAlike(whole[q]);
      }
    }
  }

  lemma SameEventsSameState(whole: seq<Record>, out: seq<Record>)
    requires SameEvents(whole, out)
    ensures MaxOrder(out) == MaxOrder(whole) && MaxConfidence(out) == MaxConfidence(whole) && (AllReadable(out) <==> AllReadable(whole))
  {
    SameEventsBelow(whole, out);
    CrdtStates.StateBelow(out, whole);
    CrdtStates.StateBelow(whole, out);
    SameEventsReadable(whole, out);
  }

  /** Whether it verifies or not, and whatever the table still holds, the retrieved chain has the status and the confidence of
      the whole history, which the trimmed chain need not have. */
  lemma RetrievedStateIsWhole(H: Hasher, concept: string, rs: seq<Record>, keep: nat, a: Record,
                              table: Table, rows: seq<Record>)
    requires FirstArchive(H, concept, rs, keep, a) && RowsFrom(table, concept, rs)
    requires Selects(StoreAll(table, Trimmed(rs, keep, a)), concept, rows)
    ensures var out := Retrieved(H, rows, ReadBackAll(H, StoredAll(Middle(rs, keep))));
      && StatusAt(MaxOrder(out)) == Archived && MaxConfidence(out) == MaxConfidence(rs) && (AllReadable(out) <==> AllReadable(rs))
  {
    ArchiveEvent(H, concept, rs, keep, a);
    RetrievedIsWhole(H, concept, rs, keep, a, table, rows);
    var out := Retrieved(H, rows, ReadBackAll(H, StoredAll(Middle(rs, keep))));
    assert MaxOrder(out) == 5 && MaxConfidence(out) == MaxConfidence(rs) && (AllReadable(out) <==> AllReadable(rs)) by {
      StateWithArchive(rs, a, out);
    }
  }

  lemma RetrievedIsWhole(H: Hasher, concept: string, rs: seq<Record>, keep: nat, a: Record, table: Table, rows: seq<Record>)
    requires FirstArchive(H, concept, rs, keep, a) && RowsFrom(table, concept, rs)
    requires Selects(StoreAll(table, Trimmed(rs, keep, a)), concept, rows)
    ensures SameEvents(rs + [a], Retrieved(H, rows, ReadBackAll(H, StoredAll(Middle(rs, keep)))))
  {
    ArchiveEvent(H, concept, rs, keep, a);
    TrimmedHistory(H, concept, rs, keep, a);
    SelectedRows(table, concept, rs, keep, a, rows);
    RetrievedShape(H, concept, rs, keep, a, rows);
    AllThere(rs, keep, a, rows);
  }

  lemma StateWithArchive(rs: seq<Record>, a: Record, out: seq<Record>)
    requires a.Kind() == Archive && SameEvents(rs + [a], out)
    ensures MaxOrder(out) == 5 && MaxConfidence(out) == MaxConfidence(rs) && (AllReadable(out) <==> AllReadable(rs))
  {
    SameEventsSameState(rs + [a], out);
    WithArchive(rs, a);
  }

  lemma WithArchive(rs: seq<Record>, a: Record)
    requires a.Kind() == Archive
    ensures MaxOrder(rs + [a]) == 5 && MaxConfidence(rs + [a]) == MaxConfidence(rs) && (AllReadable(rs + [a]) <==> AllReadable(rs))
  {
    StateSnoc(rs + [a], |rs|);
    assert (rs + [a])[..|rs|] == rs && (rs + [a])[..|rs| + 1] == rs + [a];
  }

  lemma AllThere(rs: seq<Record>, keep: nat, a: Record, rows: seq<Record>)
    requires |rs| > keep + 1 && RowsOfWhole(rs + [a], rows) && forall r :: r in Trimmed(rs, keep, a) ==> Stored(r) in rows
    requires rows != []
    ensures SameEvents(rs + [a], Rejoin(rows, StoredAll(Middle(rs, keep))))
  {
    var whole, mid := rs + [a], Middle(rs, keep);
    var out := Rejoin(rows, StoredAll(mid));
    assert forall r :: r in out <==> r in rows || r in StoredAll(mid) by { assert rows == [rows[0]] + rows[1..]; }
    forall r | r in out ensures exists q :: 0 <= q < |whole| && r == Stored(whole[q]) {
      if r in StoredAll(mid) {
        var m :| 0 <= m < |mid| && StoredAll(mid)[m] == r;
        assert whole[m + 1] == mid[m];
      }
    }
    forall q | 0 <= q < |whole| ensures Stored(whole[q]) in out {
      if q < |rs| {
        assert whole[q] in rs;
        StayedOrLeft(rs, keep, a, whole[q]);
        if whole[q] in mid { IsStored(mid, whole[q]); }
      } else {
        TrimmedIsFromWhole(rs, keep, a);
        assert Trimmed(rs, keep, a)[keep + 1] in Trimmed(rs, keep, a);
      }
    }
  }

  // ----- store, then load -----

  /** What `load_event_chain` builds: the rows appended one by one, and so linked and hashed anew. */
  function Loaded(H: Hasher, rows: seq<Record>): seq<Record> { AppendAll(H, [], Facts(FromRows(H, rows))) }

  lemma StoredIsBuilt(H: Hasher, rs: seq<Record>)
    requires AppendBuilt(H, rs)
    ensures AppendBuilt(H, StoredAll(rs))
  {
    forall i | 0 <= i < |rs| ensures BuiltAt(H, StoredAll(rs), i) {
      assert BuiltAt(H, rs, i);
      StoredKeepsHash(H, rs[i]);
      StoredLink(H, rs[..i], StoredAll(rs)[..i], rs[i]);
    }
  }

  lemma StoredLink(H: Hasher, prior: seq<Record>, stored: seq<Record>, r: Record)
    requires stored == StoredAll(prior) && r == Link(H, prior, r.fact)
    ensures Stored(r) == Link(H, stored, Stored(r).fact)
  {
    StoredKeepsHash(H, r);
    if prior != [] { assert stored[|stored| - 1] == Stored(prior[|prior| - 1]); }
  }

  /** What can be selected after the whole chain was stored. */
  lemma SelectedWhole(table: Table, concept: string, rs: seq<Record>, rows: seq<Record>)
    requires Axiom5(rs) && Axiom2(concept, rs) && RowsFrom(table, concept, rs) && Selects(StoreAll(table, rs), concept, rows)
    ensures forall r :: r in rows <==> r in StoredAll(rs)
  {
    StoredIsThere(table, rs);
    forall r | r in StoredAll(rs) ensures r in rows {
      var k :| 0 <= k < |rs| && StoredAll(rs)[k] == r;
      assert rs[k] in rs;
    }
    forall r | r in rows ensures r in StoredAll(rs) {
      StoreAdds(table, rs, r.Id());
      var x :| x in rs && r == Stored(x);
      IsStored(rs, x);
    }
  }

  lemma WholeIsReadable(H: Hasher, concept: string, rs: seq<Record>, rows: seq<Record>)
    requires WellFormed(H, concept, rs) && forall r :: r in rows ==> r in StoredAll(rs)
    ensures FromRows(H, rows) == rows
  {
    forall i | 0 <= i < |rows| ensures FromRow(H, rows[i]) == rows[i] {
      assert rows[i] in rows;
      var k :| 0 <= k < |rs| && StoredAll(rs)[k] == rows[i];
      RecordOk(H, concept, rs, k);
      RowReadBack(H, rs[k]);
    }
  }

  lemma LoadedFixesRows(H: Hasher, rs: seq<Record>, rows: seq<Record>)
    requires Axiom5(rs) && (forall r :: r in rows ==> r in StoredAll(rs)) && AppendAll(H, [], Facts(rows)) == StoredAll(rs)
    ensures rows == StoredAll(rs)
  {
    AppendAllBodies(H, [], Facts(rows));
    assert |rows| == |rs|;
    forall i | 0 <= i < |rows| ensures rows[i] == StoredAll(rs)[i] {
      assert rows[i] in rows;
      var k :| 0 <= k < |rs| && StoredAll(rs)[k] == rows[i];
      assert StoredAll(rs)[0 + i].fact.body == Facts(rows)[i].body;
      SameIdSameIndex(rs, i, k);
    }
  }

  /** Storing a chain and loading it gives it back, hash for hash and without signatures and proofs, exactly when the database
      answers in the order of the chain, which it does when no two events share an instant. */
  lemma LoadedIsStoredIff(H: Hasher, concept: string, rs: seq<Record>, table: Table, rows: seq<Record>)
    requires AppendBuilt(H, rs) && WellFormed(H, concept, rs) && RowsFrom(table, concept, rs)
    requires Selects(StoreAll(table, rs), concept, rows)
    ensures Loaded(H, rows) == StoredAll(rs) <==> rows == StoredAll(rs)
    ensures StrictInstants(rs) ==> rows == StoredAll(rs)
  {
    SelectedWhole(table, concept, rs, rows);
    WholeIsReadable(H, concept, rs, rows);
    if rows == StoredAll(rs) {
      StoredIsBuilt(H, rs);
      Reappend(H, StoredAll(rs));
    } else if Loaded(H, rows) == StoredAll(rs) {
      LoadedFixesRows(H, rs, rows);
    }
    if StrictInstants(rs) { InTheirOrder(rs, rows); }
  }

  // ----- the table object -----

  class EventsTable {
    var rows: Table

    ghost predicate Valid()
      reads this
    {
      KeyedById(rows)
    }

    constructor ()
      ensures Valid() && rows == map[]
    {
      rows := map[];
    }

    /** `_store_events` */
    method StoreEvents(chain: EventChain)
      requires Valid()
      modifies this
      ensures Valid() && rows == StoreAll(old(rows), chain.Records())
    {
      ghost var table, rs := rows, chain.Records();
      for i := 0 to |chain.events|
        invariant Valid() && rows == StoreAll(table, rs[..i])
      {
        TakeSnoc(rs, i);
        var r := chain.events[i].View();
        assert r == rs[i];
        rows := rows[r.Id() := Stored(r)];
      }
      assert rs[..|chain.events|] == rs;
    }

    /** The events of `delete_document`. */
    method DeleteEvents(concept: string)
      requires Valid()
      modifies this
      ensures Valid() && rows == DeleteAll(old(rows), concept)
    {
      rows := DeleteAll(rows, concept);
    }

    /** The rows of a concept in time order; the order within an instant is not specified. */
    method Select(concept: string) returns (found: seq<Record>)
      requires Valid()
      ensures Selects(rows, concept, found)
    {
      var left := set id | id in rows && rows[id].fact.body.concept == concept;
      ghost var all := left;
      var gathered: seq<Record> := [];
      while left != {}
        invariant left <= all && Axiom5(gathered)
        invariant forall r :: r in gathered ==> RowOf(rows, concept, r) && r.Id() !in left
        invariant forall id :: id in all && id !in left ==> rows[id] in gathered
        decreases left
      {
        var id :| id in left;
        left := left - {id};
        gathered := gathered + [rows[id]];
      }
      found := SortBy(gathered, NotLater);
      SortedSelection(gathered);
    }
  }

  lemma SortedSelection(rs: seq<Record>)
    requires Axiom5(rs)
    ensures var s := SortBy(rs, NotLater); Axiom7(s) && Axiom5(s) && forall r :: r in s <==> r in rs
  {
    SortSorts(rs, NotLater);
    SortKeepsElements(rs, NotLater);
    SameElements(rs, SortBy(rs, NotLater));
    DistinctKeysRearranged(rs, SortBy(rs, NotLater), (r: Record) => r.Id());
    forall i | 1 <= i < |SortBy(rs, NotLater)| ensures SortBy(rs, NotLater)[i - 1].Ts() <= SortBy(rs, NotLater)[i].Ts() {
      assert NotLater(SortBy(rs, NotLater)[i - 1], SortBy(rs, NotLater)[i]);
    }
  }
}
