/** `ADLMemory.retrieve_chain` (adl_lite/memory.py): the hot events of the warm table and the archive, joined. */
module ChainRetrieval {
  import opened Basics
  import opened Events
  import opened DerivedState
  import opened EventChains
  import opened ColdStorages
  import opened Archiving
  import opened EventsTables

  method RestoreEvents(rs: seq<Record>) returns (es: seq<Event>)
    ensures Views(es) == rs && DistinctObjects(es) && forall k :: 0 <= k < |es| ==> fresh(es[k])
  {
    es := [];
    for i := 0 to |rs|
      invariant |es| == i && DistinctObjects(es) && forall k :: 0 <= k < i ==> fresh(es[k]) && es[k].View() == rs[k]
    {
      var e := new Event.Restore(rs[i]);
      es := es + [e];
    }
  }

  /** A chain over a given list, with its caches rebuilt and nothing verified yet. */
  method ChainOver(H: Hasher, concept: string, rs: seq<Record>) returns (r: Result<EventChain, ChainError>)
    ensures r.Ok? <==> AllReadable(rs)
    ensures r.Ok? ==> fresh(r.value) && r.value.H == H && r.value.conceptId == concept && r.value.Records() == rs
                      && r.value.CachesExact() && r.value.verifiedIds == [] && r.value.VerifierInv()
  {
    var es := RestoreEvents(rs);
    var chain := new EventChain(H, concept);
    chain.events := es;
    chain.InvalidateCaches();
    var rebuilt := chain.RebuildCrdtCaches();
    match rebuilt
    case Err(e) => r := Err(e);
    case Ok(_) => r := Ok(chain);
  }

  /** None when the table has no event of the concept. `rows` is what the database answered. */
  method RetrieveChain(H: Hasher, concept: string, table: EventsTable, cold: ColdStorage)
    returns (r: Option<Result<EventChain, ChainError>>, ghost rows: seq<Record>)
    requires table.Valid()
    ensures Selects(table.rows, concept, rows) && (r.None? <==> rows == [])
    ensures r.Some? ==>
      var found := ArchiveOf(H, cold.files, concept);
      var rs := Retrieved(H, rows, if found.Some? then found.value else []);
      && (r.value.Ok? <==> AllReadable(rs))
      && (r.value.Ok? ==> r.value.value.H == H && r.value.value.conceptId == concept && r.value.value.Records() == rs
                          && r.value.value.CachesExact() && r.value.value.verifiedIds == [] && r.value.value.VerifierInv())
  {
    var answer := table.Select(concept);
    rows := answer;
    var hot := FromRows(H, answer);
    if hot == [] {
      assert |rows| == |hot|;
      return None, rows;
    }
    var found := cold.Unarchive(H, concept);
    var archived := if found.Some? then found.value else [];
    var chain;
    if archived == [] {
      chain := ChainOver(H, concept, hot);
    } else {
      chain := ChainOver(H, concept, [hot[0]] + archived + hot[1..]);
    }
    r := Some(chain);
  }

  /** `load_event_chain`: the rows appended one by one to a new chain; None when there are none. */
  method LoadEventChain(H: Hasher, concept: string, table: EventsTable)
    returns (r: Option<Result<EventChain, ChainError>>, ghost rows: seq<Record>)
    requires table.Valid()
    ensures Selects(table.rows, concept, rows) && (r.None? <==> rows == [])
    ensures r.Some? ==> (r.value.Ok? <==> AllReadable(FromRows(H, rows)))
    ensures r.Some? && r.value.Ok? ==> JustBuilt(r.value.value, H, concept, Loaded(H, rows))
  {
    var answer := table.Select(concept);
    rows := answer;
    if answer == [] {
      return None, rows;
    }
    var es := RestoreEvents(FromRows(H, answer));
    var made := Reanchor(H, concept, es);
    forall i | 0 <= i < |rows| ensures FromRows(H, rows)[i].fact.body.concept == concept { assert rows[i] in rows; }
    r := Some(made);
  }

  /** What a caller sees of a chain that was archived, stored and retrieved. */
  ghost predicate ComesBack(H: Hasher, concept: string, rs: seq<Record>, keep: nat, now: Time, table: Table, out: seq<Record>)
    requires |rs| > keep + 1
  {
    && (WellFormed(H, concept, out) <==>
          keep > 0 && rs[|rs| - 1].Ts() <= now && NoProofs(rs) && NoneLeft(table, concept, Middle(rs, keep)))
    && StatusAt(MaxOrder(out)) == Archived && MaxConfidence(out) == MaxConfidence(rs)
  }

  lemma RetrievedComesBack(H: Hasher, concept: string, rs: seq<Record>, keep: nat, a: Record, table: Table, rows: seq<Record>)
    requires FirstArchive(H, concept, rs, keep, a) && RowsFrom(table, concept, rs) && DistinctWhenTrimmed(rs, keep, a.Ts())
    requires Selects(StoreAll(table, Trimmed(rs, keep, a)), concept, rows)
    ensures var out := Retrieved(H, rows, StoredAll(Middle(rs, keep)));
      ComesBack(H, concept, rs, keep, a.Ts(), table, out) && (AllReadable(rs) ==> AllReadable(out)) && rows != []
  {
    MiddleReadsBack(H, concept, rs, keep);
    RetrievedVerifiesIff(H, concept, rs, keep, a, table, rows);
    RetrievedStateIsWhole(H, concept, rs, keep, a, table, rows);
    ArchiveEvent(H, concept, rs, keep, a);
    TrimmedHistory(H, concept, rs, keep, a);
    SelectedRows(table, concept, rs, keep, a, rows);
  }

  /** A first archive and `_store_events`, as in `store_with_events`. */
  method ArchiveAndStore(cold: ColdStorage, table: EventsTable, chain: EventChain, keep: nat, compressed: bool, id: string, now: Time)
    returns (ghost a: Record)
    requires table.Valid() && |chain.events| > keep + 1 && Archivable(chain.H, chain.conceptId, chain.Records(), id)
    requires compressed || ArchivePath(chain.conceptId, true) !in cold.files
    modifies cold, chain, table
    ensures FirstArchive(chain.H, chain.conceptId, old(chain.Records()), keep, a) && a.Ts() == now
    ensures table.Valid() && table.rows == StoreAll(old(table.rows), Trimmed(old(chain.Records()), keep, a))
    ensures ArchiveOf(chain.H, cold.files, chain.conceptId) == Some(StoredAll(Middle(old(chain.Records()), keep)))
  {
    ghost var rs := chain.Records();
    UnarchiveFindsIff(chain.H, chain.conceptId, rs, keep, cold.files, compressed);
    var _ := cold.Archive(chain, keep, compressed, id, now);
    a := chain.Records()[|chain.Records()| - 1];
    assert chain.Records() == Trimmed(rs, keep, a);
    table.StoreEvents(chain);
  }

  /** Archive, store and retrieve, one after the other: whether the chain that comes back verifies, and that its status and
      confidence are those of the whole history. */
  method ArchiveStoreRetrieve(cold: ColdStorage, table: EventsTable, chain: EventChain, keep: nat, compressed: bool, id: string, now: Time)
    returns (back: EventChain)
    requires table.Valid() && |chain.events| > keep + 1 && Archivable(chain.H, chain.conceptId, chain.Records(), id)
    requires AllReadable(chain.Records()) && RowsFrom(table.rows, chain.conceptId, chain.Records())
    requires DistinctWhenTrimmed(chain.Records(), keep, now)
    requires compressed || ArchivePath(chain.conceptId, true) !in cold.files
    modifies cold, chain, table
    ensures ComesBack(chain.H, chain.conceptId, old(chain.Records()), keep, now, old(table.rows), back.Records())
    ensures back.CachesExact() && back.verifiedIds == []
  {
    ghost var rs, before := chain.Records(), table.rows;
    ghost var a := ArchiveAndStore(cold, table, chain, keep, compressed, id, now);
    var r, rows := RetrieveChain(chain.H, chain.conceptId, table, cold);
    RetrievedComesBack(chain.H, chain.conceptId, rs, keep, a, before, rows);
    back := r.value.value;
  }
}
