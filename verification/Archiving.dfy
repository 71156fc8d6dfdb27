/** Theorems about a first archive (adl_lite/cold_storage.py, adl_lite/memory.py): the trimmed chain, the deep
    check against the file, and the chain that is put together again. */
module Archiving {
  import opened Basics
  import opened Events
  import opened DerivedState
  import opened EventChains
  import opened ColdStorages

  /** No ARCHIVE event so far names a file: nothing has been archived yet. */
  ghost predicate NeverArchived(rs: seq<Record>) {
    forall i :: 0 <= i < |rs| && rs[i].Kind() == Archive ==> !HasPointer(rs[i])
  }

  predicate HasPointer(r: Record) {
    Text(r.fact.body.payload, "archive_pointer") != "" && Text(r.fact.body.payload, "archive_file") != ""
  }

  /** A chain that was only appended to and verifies, before its first archive, and a fresh id. */
  ghost predicate Archivable(H: Hasher, concept: string, rs: seq<Record>, id: string) {
    && AppendBuilt(H, rs) && WellFormed(H, concept, rs) && NeverArchived(rs)
    && (forall i :: 0 <= i < |rs| ==> rs[i].Id() != "" && rs[i].Id() != id)
  }

  /** Where the kept record at `i` came from. */
  function Source(rs: seq<Record>, keep: nat, i: nat): nat {
    if |rs| <= keep + 1 || i == 0 then i else |rs| - keep + i - 1
  }

  lemma KeptAt(rs: seq<Record>, keep: nat, i: nat)
    requires i < |Hot(rs, keep)|
    ensures Source(rs, keep, i) < |rs| && Hot(rs, keep)[i] == rs[Source(rs, keep, i)]
    ensures i > 0 ==> Source(rs, keep, i - 1) < Source(rs, keep, i)
    ensures i > 1 ==> Source(rs, keep, i - 1) == Source(rs, keep, i) - 1
    ensures Source(rs, keep, i) == 0 <==> i == 0
  {
  }

  lemma {:induction false} SourcesIncrease(rs: seq<Record>, keep: nat, i: nat, j: nat)
    requires i < j < |Hot(rs, keep)|
    ensures Source(rs, keep, i) < Source(rs, keep, j)
    decreases j
  {
    KeptAt(rs, keep, j);
    if i < j - 1 { SourcesIncrease(rs, keep, i, j - 1); }
  }

  /** What verifies carries over to any selection of its records. */
  lemma RecordOk(H: Hasher, concept: string, rs: seq<Record>, i: nat)
    requires WellFormed(H, concept, rs) && i < |rs|
    ensures rs[i].fact.body.concept == concept && rs[i].hash == ComputeHash(H, rs[i]) && BodyOk(rs[i].fact.body)
    ensures rs[i].hash != "" && |rs[i].hash| == 64 && (i > 0 ==> Named(rs[i].prevId))
  {
    assert rs[i].hash == "" || |rs[i].hash| == 64;
  }

  // ----- the trimmed chain -----

  lemma KeptRecordsOk(H: Hasher, concept: string, rs: seq<Record>, keep: nat, i: nat)
    requires AppendBuilt(H, rs) && WellFormed(H, concept, rs) && i < |Hot(rs, keep)|
    ensures var r := Hot(rs, keep)[i];
      && r.fact.body.concept == concept && r.hash == ComputeHash(H, r) && BodyOk(r.fact.body)
      && r.hash != "" && |r.hash| == 64 && (i > 0 ==> Named(r.prevId)) && (i == 0 ==> r.prevId == None)
    ensures i > 0 ==> Hot(rs, keep)[i - 1].Ts() <= Hot(rs, keep)[i].Ts()
    ensures i > 1 ==> LinkedTo(Hot(rs, keep)[i], Hot(rs, keep)[i - 1]) && Hot(rs, keep)[i].prevHash == Hot(rs, keep)[i - 1].hash
    ensures i == 1 && LinkedTo(Hot(rs, keep)[1], Hot(rs, keep)[0]) ==> Hot(rs, keep)[1].prevHash == Hot(rs, keep)[0].hash
  {
    var s := Source(rs, keep, i);
    KeptAt(rs, keep, i);
    RecordOk(H, concept, rs, s);
    BuiltLinks(H, rs, s);
    if i > 0 {
      KeptAt(rs, keep, i - 1);
      BuiltIsTimeOrdered(H, rs, Source(rs, keep, i - 1), s);
      if i == 1 && LinkedTo(rs[s], rs[0]) {
        // only the second event of the old chain can name the genesis event
        SameIdSameIndex(rs, s - 1, 0);
      }
    }
  }

  lemma SameIdSameIndex(rs: seq<Record>, i: nat, j: nat)
    requires Axiom5(rs) && i < |rs| && j < |rs| && rs[i].Id() == rs[j].Id()
    ensures i == j
  {
  }

  lemma KeptIdsDistinct(rs: seq<Record>, keep: nat)
    requires Axiom5(rs)
    ensures Axiom5(Hot(rs, keep))
  {
    forall i, j | 0 <= i < j < |Hot(rs, keep)| ensures Hot(rs, keep)[i].Id() != Hot(rs, keep)[j].Id() {
      SourcesIncrease(rs, keep, i, j);
      KeptAt(rs, keep, i);
      KeptAt(rs, keep, j);
    }
  }

  /** The body of the ARCHIVE event passes the checks on bodies. */
  lemma ArchiveBodyOk(id: string, concept: string, reasoning: string, payload: Payload)
    ensures BodyOk(ArchiveBody(id, concept, reasoning, payload))
  {
    assert !Blank("system") by { assert !IsSpace("system"[0]); }
  }

  /** A list of kept records and an ARCHIVE event behind it, position by position. */
  ghost predicate PositionOk(H: Hasher, concept: string, rs: seq<Record>, i: nat)
    requires i < |rs|
  {
    && rs[i].fact.body.concept == concept && rs[i].hash == ComputeHash(H, rs[i]) && BodyOk(rs[i].fact.body)
    && rs[i].hash != "" && |rs[i].hash| == 64 && (i > 0 ==> Named(rs[i].prevId))
    && (i > 0 ==> if LinkedTo(rs[i], rs[i - 1]) then rs[i].prevHash == rs[i - 1].hash else i == 1)
  }

  lemma VerifiesWithArchive(H: Hasher, concept: string, rs: seq<Record>)
    requires HasArchive(rs) && Axiom5(rs) && forall i :: 0 <= i < |rs| ==> PositionOk(H, concept, rs, i)
    ensures WellFormed(H, concept, rs) <==> Axiom7(rs)
  {
    forall i | 0 <= i < |rs|
      ensures rs[i].fact.body.concept == concept && rs[i].hash == ComputeHash(H, rs[i]) && BodyOk(rs[i].fact.body)
      ensures rs[i].hash != "" && |rs[i].hash| == 64 && (i > 0 ==> Named(rs[i].prevId))
      ensures i > 0 ==> if LinkedTo(rs[i], rs[i - 1]) then rs[i].prevHash == rs[i - 1].hash else i == 1
    {
      assert PositionOk(H, concept, rs, i);
    }
  }

  lemma TrimmedPosition(H: Hasher, concept: string, rs: seq<Record>, keep: nat, body: Body, now: Time, i: nat)
    requires AppendBuilt(H, rs) && WellFormed(H, concept, rs)
    requires body.concept == concept && BodyOk(body) && forall k :: 0 <= k < |rs| ==> rs[k].Id() != ""
    requires i <= |Hot(rs, keep)|
    ensures PositionOk(H, concept, Hot(rs, keep) + [ArchiveRecord(H, Hot(rs, keep), body, now)], i)
  {
    var kept := Hot(rs, keep);
    var a := ArchiveRecord(H, kept, body, now);
    var out := kept + [a];
    if i < |kept| {
      assert out[i] == kept[i] && (i > 0 ==> out[i - 1] == kept[i - 1]);
      KeptRecordsOk(H, concept, rs, keep, i);
    } else {
      assert out[i] == a && (i > 0 ==> out[i - 1] == kept[i - 1]);
      assert a.hash == ComputeHash(H, a);
      if i > 0 { KeptAt(rs, keep, i - 1); }
    }
  }

  /** The trimmed chain verifies exactly when the clock is not behind the last event that stayed. */
  lemma TrimmedVerifiesIff(H: Hasher, concept: string, rs: seq<Record>, keep: nat, id: string, reasoning: string, payload: Payload, now: Time)
    requires Archivable(H, concept, rs, id)
    ensures var kept := Hot(rs, keep);
      WellFormed(H, concept, kept + [ArchiveRecord(H, kept, ArchiveBody(id, concept, reasoning, payload), now)])
      <==> (kept == [] || kept[|kept| - 1].Ts() <= now)
  {
    var kept := Hot(rs, keep);
    TrimmedAxioms(H, concept, rs, keep, id, reasoning, payload, now);
    KeptInOrder(H, rs, keep);
    OrderedBehind(kept, ArchiveRecord(H, kept, ArchiveBody(id, concept, reasoning, payload), now));
  }

  lemma TrimmedAxioms(H: Hasher, concept: string, rs: seq<Record>, keep: nat, id: string, reasoning: string, payload: Payload, now: Time)
    requires Archivable(H, concept, rs, id)
    ensures var out := Hot(rs, keep) + [ArchiveRecord(H, Hot(rs, keep), ArchiveBody(id, concept, reasoning, payload), now)];
      WellFormed(H, concept, out) <==> Axiom7(out)
  {
    var kept, body := Hot(rs, keep), ArchiveBody(id, concept, reasoning, payload);
    var out := kept + [ArchiveRecord(H, kept, body, now)];
    ArchiveBodyOk(id, concept, reasoning, payload);
    assert out[|kept|].Kind() == Archive;
    forall i | 0 <= i < |out| ensures PositionOk(H, concept, out, i) {
      TrimmedPosition(H, concept, rs, keep, body, now, i);
    }
    KeptIdsDistinct(rs, keep);
    FreshBehind(rs, keep, out[|kept|], id);
    VerifiesWithArchive(H, concept, out);
  }

  lemma KeptInOrder(H: Hasher, rs: seq<Record>, keep: nat)
    requires AppendBuilt(H, rs)
    ensures Axiom7(Hot(rs, keep))
  {
    forall i | 1 <= i < |Hot(rs, keep)| ensures Hot(rs, keep)[i - 1].Ts() <= Hot(rs, keep)[i].Ts() {
      KeptAt(rs, keep, i);
      KeptAt(rs, keep, i - 1);
      BuiltIsTimeOrdered(H, rs, Source(rs, keep, i - 1), Source(rs, keep, i));
    }
  }

  lemma OrderedBehind(kept: seq<Record>, a: Record)
    requires Axiom7(kept)
    ensures Axiom7(kept + [a]) <==> (kept == [] || kept[|kept| - 1].Ts() <= a.Ts())
  {
    var out := kept + [a];
    assert forall i :: 0 <= i < |kept| ==> out[i] == kept[i];
    if kept != [] { assert out[|kept| - 1] == kept[|kept| - 1] && out[|kept|] == a; }
  }

  lemma FreshBehind(rs: seq<Record>, keep: nat, a: Record, id: string)
    requires Axiom5(Hot(rs, keep)) && a.Id() == id && forall i :: 0 <= i < |rs| ==> rs[i].Id() != id
    ensures Axiom5(Hot(rs, keep) + [a])
  {
    var kept := Hot(rs, keep);
    forall i | 0 <= i < |kept| ensures kept[i].Id() != id { KeptAt(rs, keep, i); }
  }

  // ----- the deep check -----

  lemma StoredKeepsHash(H: Hasher, r: Record)
    ensures ComputeHash(H, Stored(r)) == ComputeHash(H, r)
    ensures r.hash != "" ==> ReadBack(H, Stored(r)) == Stored(r)
  {
    assert ContentOf(Stored(r)) == ContentOf(r);
  }

  /** Reading an archive of verified records back gives them without signature and proof. */
  lemma ReadBackStored(H: Hasher, rs: seq<Record>)
    requires forall i :: 0 <= i < |rs| ==> rs[i].hash != ""
    ensures ReadBackAll(H, StoredAll(rs)) == StoredAll(rs)
  {
    forall i | 0 <= i < |rs| ensures ReadBackAll(H, StoredAll(rs))[i] == StoredAll(rs)[i] {
      StoredKeepsHash(H, rs[i]);
    }
  }

  lemma MiddleReadsBack(H: Hasher, concept: string, rs: seq<Record>, keep: nat)
    requires WellFormed(H, concept, rs) && |rs| > keep + 1
    ensures ReadBackAll(H, StoredAll(Middle(rs, keep))) == StoredAll(Middle(rs, keep))
  {
    var mid := Middle(rs, keep);
    forall i | 0 <= i < |mid| ensures mid[i].hash != "" { RecordOk(H, concept, rs, i + 1); }
    ReadBackStored(H, mid);
  }

  lemma ArchivedSubchain(H: Hasher, concept: string, rs: seq<Record>, keep: nat, i: nat)
    requires AppendBuilt(H, rs) && WellFormed(H, concept, rs) && |rs| > keep + 1 && i < |Middle(rs, keep)|
    ensures SubchainLinkOk(H, StoredAll(Middle(rs, keep)), i)
  {
    var mid := Middle(rs, keep);
    BuiltLinks(H, rs, i + 1);
    StoredKeepsHash(H, rs[i + 1]);
    assert StoredAll(mid)[i] == Stored(rs[i + 1]);
    if i > 0 { assert StoredAll(mid)[i - 1] == Stored(rs[i]); }
  }

  lemma PointerReads(digest: string)
    ensures PointerDigest(PREFIX + digest) == digest && PREFIX + digest != ""
  {
    assert PREFIX <= PREFIX + digest;
    assert (PREFIX + digest)[|PREFIX|..] == digest;
  }

  /** The hot tail continues the archived events. */
  lemma HotTailJoins(H: Hasher, concept: string, rs: seq<Record>, keep: nat, a: Record)
    requires AppendBuilt(H, rs) && WellFormed(H, concept, rs) && |rs| > keep + 1 && a.Kind() == Archive
    ensures JoinOk(Hot(rs, keep) + [a], StoredAll(Middle(rs, keep)))
  {
    var out := Hot(rs, keep) + [a];
    var mid := Middle(rs, keep);
    if keep > 0 {
      var m := |rs| - keep;
      BuiltLinks(H, rs, m);
      assert out[1] == rs[m];
      assert StoredAll(mid)[|mid| - 1] == Stored(rs[m - 1]);
    } else {
      assert out[1] == a;
    }
  }

  /** After the first archive the deep check passes against the file just written, for every `keep`. */
  lemma TrimmedPassesDeepCheck(H: Hasher, FH: FileHasher, concept: string, rs: seq<Record>, keep: nat, id: string,
                               files: map<string, seq<Record>>, compressed: bool, now: Time)
    requires Archivable(H, concept, rs, id) && |rs| > keep + 1
    requires files == files[ArchivePath(concept, compressed) := StoredAll(Middle(rs, keep))]
    ensures var mid := Middle(rs, keep);
      var payload := ArchivePayload(PREFIX + FH(StoredAll(mid)), ArchivePath(concept, compressed), |mid|, compressed);
      var kept := Hot(rs, keep);
      DeepOk(H, FH, files, kept + [ArchiveRecord(H, kept, ArchiveBody(id, concept, "Cold storage migration", payload), now)])
  {
    var mid := Middle(rs, keep);
    var path := ArchivePath(concept, compressed);
    var payload := ArchivePayload(PREFIX + FH(StoredAll(mid)), path, |mid|, compressed);
    var kept := Hot(rs, keep);
    var a := ArchiveRecord(H, kept, ArchiveBody(id, concept, "Cold storage migration", payload), now);
    var out := kept + [a];
    assert path in files && files[path] == StoredAll(mid);
    forall i | 0 <= i < |out| ensures ArchiveOk(H, FH, files, out, out[i]) {
      if i < |kept| {
        KeptAt(rs, keep, i);
        assert !(out[i].Kind() == Archive && HasPointer(out[i]));
      } else {
        NewArchiveOk(H, FH, concept, rs, keep, files, path, a);
      }
    }
  }

  /** For an ARCHIVE event that names the written file only the join is left to decide. */
  lemma PointedAtIff(H: Hasher, FH: FileHasher, concept: string, rs: seq<Record>, keep: nat, files: map<string, seq<Record>>,
                     path: string, out: seq<Record>, a: Record)
    requires AppendBuilt(H, rs) && WellFormed(H, concept, rs) && |rs| > keep + 1 && a.Kind() == Archive
    requires path in files && files[path] == StoredAll(Middle(rs, keep)) && path != ""
    requires exists n, compressed :: a.fact.body.payload == ArchivePayload(PREFIX + FH(StoredAll(Middle(rs, keep))), path, n, compressed)
    ensures ArchiveOk(H, FH, files, out, a) <==> JoinOk(out, StoredAll(Middle(rs, keep)))
  {
    var mid := Middle(rs, keep);
    PointerReads(FH(StoredAll(mid)));
    MiddleReadsBack(H, concept, rs, keep);
    forall k | 0 <= k < |mid| ensures SubchainLinkOk(H, StoredAll(mid), k) { ArchivedSubchain(H, concept, rs, keep, k); }
  }

  lemma NewArchiveOk(H: Hasher, FH: FileHasher, concept: string, rs: seq<Record>, keep: nat, files: map<string, seq<Record>>,
                     path: string, a: Record)
    requires AppendBuilt(H, rs) && WellFormed(H, concept, rs) && |rs| > keep + 1 && a.Kind() == Archive
    requires path in files && files[path] == StoredAll(Middle(rs, keep))
    requires exists n, compressed :: a.fact.body.payload == ArchivePayload(PREFIX + FH(StoredAll(Middle(rs, keep))), path, n, compressed)
    ensures ArchiveOk(H, FH, files, Hot(rs, keep) + [a], a)
  {
    HotTailJoins(H, concept, rs, keep, a);
    if path != "" { PointedAtIff(H, FH, concept, rs, keep, files, path, Hot(rs, keep) + [a], a); }
  }

  /** With nothing to archive the ARCHIVE event names no pointer and the deep check has nothing to do. */
  lemma NothingArchivedPassesDeepCheck(H: Hasher, FH: FileHasher, concept: string, rs: seq<Record>, id: string,
                                       files: map<string, seq<Record>>, path: string, compressed: bool, now: Time)
    requires Archivable(H, concept, rs, id)
    ensures DeepOk(H, FH, files, rs + [ArchiveRecord(H, rs,
              ArchiveBody(id, concept, "Cold storage migration — nothing to archive", ArchivePayload("", path, 0, compressed)), now)])
  {
    var body := ArchiveBody(id, concept, "Cold storage migration — nothing to archive", ArchivePayload("", path, 0, compressed));
    var out := rs + [ArchiveRecord(H, rs, body, now)];
    EmptyPointer(path, compressed);
    forall i | 0 <= i < |out| ensures ArchiveOk(H, FH, files, out, out[i]) {
      assert out[i].Kind() == Archive ==> !HasPointer(out[i]) by {
        if i < |rs| { assert out[i] == rs[i]; } else { assert out[i].fact.body == body; }
      }
      NothingPointedAt(H, FH, files, out, out[i]);
    }
  }

  lemma EmptyPointer(path: string, compressed: bool)
    ensures Text(ArchivePayload("", path, 0, compressed), "archive_pointer") == ""
  {
  }

  lemma NothingPointedAt(H: Hasher, FH: FileHasher, files: map<string, seq<Record>>, rs: seq<Record>, r: Record)
    requires r.Kind() == Archive ==> !HasPointer(r)
    ensures ArchiveOk(H, FH, files, rs, r)
  {
  }

  // ----- archive, then unarchive -----

  /** What was just archived is found again exactly when it was written compressed, or no compressed file of the concept was
      there before -- or one that happens to read back the same. An older compressed file hides a newer plain one. */
  lemma UnarchiveFindsIff(H: Hasher, concept: string, rs: seq<Record>, keep: nat, files: map<string, seq<Record>>, compressed: bool)
    requires WellFormed(H, concept, rs) && |rs| > keep + 1
    ensures var after := files[ArchivePath(concept, compressed) := StoredAll(Middle(rs, keep))];
      var older := ArchivePath(concept, true);
      ArchiveOf(H, after, concept) == Some(StoredAll(Middle(rs, keep))) <==>
        compressed || older !in files || ReadBackAll(H, files[older]) == StoredAll(Middle(rs, keep))
  {
    PathsDiffer(concept);
    MiddleReadsBack(H, concept, rs, keep);
  }

  // ----- reassembly -----

  /** `[hot[0]] + archived + hot[1:]` */
  function Rejoin(hot: seq<Record>, archived: seq<Record>): seq<Record>
    requires hot != []
  {
    [hot[0]] + archived + hot[1..]
  }

  predicate Bare(b: Body) { b.signature == "" && b.proof == None }

  lemma StoredOfBare(r: Record)
    ensures Stored(r) == r <==> Bare(r.fact.body)
  {
  }

  /** The pieces rejoin to the old list with the ARCHIVE event behind it, up to the signatures and proofs
      of the archived events, which the file does not hold. */
  lemma RejoinIsOldList(H: Hasher, concept: string, rs: seq<Record>, keep: nat, a: Record)
    requires WellFormed(H, concept, rs) && |rs| > keep + 1
    ensures var archived := ReadBackAll(H, StoredAll(Middle(rs, keep)));
      Rejoin(Hot(rs, keep) + [a], archived) ==
        [rs[0]] + StoredAll(Middle(rs, keep)) + rs[|rs| - keep..] + [a]
    ensures Rejoin(Hot(rs, keep) + [a], ReadBackAll(H, StoredAll(Middle(rs, keep)))) == rs + [a] <==>
              forall i :: 1 <= i < |rs| - keep ==> rs[i].fact.body.signature == "" && rs[i].fact.body.proof == None
  {
    MiddleReadsBack(H, concept, rs, keep);
    var mid, tail := Middle(rs, keep), rs[|rs| - keep..];
    RejoinShape(rs[0], StoredAll(mid), tail, a);
    SameMiddle(rs[0], mid, StoredAll(mid), tail + [a]);
    SplitAt(rs, keep);
    Regrouped(rs[0], mid, tail, a);
    Regrouped(rs[0], StoredAll(mid), tail, a);
    StoredAllOfBare(mid);
  }

  lemma SplitAt(rs: seq<Record>, keep: nat)
    requires |rs| > keep + 1
    ensures rs == [rs[0]] + Middle(rs, keep) + rs[|rs| - keep..]
    ensures forall i :: 1 <= i < |rs| - keep ==> rs[i] == Middle(rs, keep)[i - 1]
    ensures forall k :: 0 <= k < |Middle(rs, keep)| ==> Middle(rs, keep)[k] == rs[k + 1]
  {
  }

  lemma Regrouped(first: Record, m: seq<Record>, tail: seq<Record>, a: Record)
    ensures [first] + m + tail + [a] == [first] + m + (tail + [a])
  {
  }

  lemma RejoinShape(first: Record, archived: seq<Record>, tail: seq<Record>, a: Record)
    ensures Rejoin([first] + tail + [a], archived) == [first] + archived + tail + [a]
  {
    assert ([first] + tail + [a])[1..] == tail + [a];
  }

  lemma SameMiddle(first: Record, m: seq<Record>, n: seq<Record>, rest: seq<Record>)
    requires |m| == |n|
    ensures [first] + n + rest == [first] + m + rest <==> n == m
  {
    var x, y := [first] + n + rest, [first] + m + rest;
    if x == y {
      forall k | 0 <= k < |m| ensures n[k] == m[k] { assert x[k + 1] == n[k] && y[k + 1] == m[k]; }
    }
  }

  lemma StoredAllOfBare(rs: seq<Record>)
    ensures StoredAll(rs) == rs <==> forall k :: 0 <= k < |rs| ==> Bare(rs[k].fact.body)
  {
    forall k | 0 <= k < |rs| ensures StoredAll(rs)[k] == rs[k] <==> Bare(rs[k].fact.body) { StoredOfBare(rs[k]); }
  }

  /** `out` is `rs` with some signatures and proofs gone. */
  ghost predicate StripsTo(rs: seq<Record>, out: seq<Record>, lost: int -> bool) {
    |out| == |rs| && forall i :: 0 <= i < |rs| ==> out[i] == if lost(i) then Stored(rs[i]) else rs[i]
  }

  lemma StrippedBody(b: Body)
    ensures BodyOk(b) ==> (BodyOk(b.(signature := "", proof := None)) <==> !NeedsProof(b.kind))
  {
  }

  lemma StrippedAt(rs: seq<Record>, out: seq<Record>, lost: int -> bool, i: nat)
    requires StripsTo(rs, out, lost) && i < |rs|
    ensures out[i].Id() == rs[i].Id() && out[i].Ts() == rs[i].Ts() && out[i].Kind() == rs[i].Kind()
    ensures out[i].hash == rs[i].hash && out[i].prevId == rs[i].prevId && out[i].prevHash == rs[i].prevHash
    ensures ContentOf(out[i]) == ContentOf(rs[i]) && out[i].fact.body.concept == rs[i].fact.body.concept
  {
  }

  /** The records at `i` agree in all that the chain axioms look at. */
  ghost predicate AgreeAt(H: Hasher, rs: seq<Record>, out: seq<Record>, i: nat)
    requires i < |rs| == |out|
  {
    && out[i].Id() == rs[i].Id() && out[i].Ts() == rs[i].Ts() && out[i].Kind() == rs[i].Kind()
    && out[i].hash == rs[i].hash && out[i].prevId == rs[i].prevId && out[i].prevHash == rs[i].prevHash
    && ComputeHash(H, out[i]) == ComputeHash(H, rs[i]) && out[i].fact.body.concept == rs[i].fact.body.concept
  }

  /** All axioms but those on bodies. */
  ghost predicate ChainAxioms(H: Hasher, concept: string, rs: seq<Record>) {
    && Axiom1(rs) && Axiom2(concept, rs) && Axiom3(rs) && Axiom4(H, rs) && Axiom5(rs)
    && Axiom7(rs) && Axiom10(rs) && Axiom11(rs)
  }

  lemma AgreeingArchives(H: Hasher, rs: seq<Record>, out: seq<Record>)
    requires |rs| == |out| && forall i :: 0 <= i < |rs| ==> AgreeAt(H, rs, out, i)
    ensures HasArchive(rs) ==> HasArchive(out)
  {
    if HasArchive(rs) {
      var k :| 0 <= k < |rs| && rs[k].Kind() == Archive;
      assert AgreeAt(H, rs, out, k);
    }
  }

  lemma AgreeingChains(H: Hasher, concept: string, rs: seq<Record>, out: seq<Record>)
    requires |rs| == |out| && forall i :: 0 <= i < |rs| ==> AgreeAt(H, rs, out, i)
    requires ChainAxioms(H, concept, rs)
    ensures ChainAxioms(H, concept, out)
  {
    AgreeingArchives(H, rs, out);
    forall i, j | 0 <= i < j < |out| ensures out[i].Id() != out[j].Id() { assert AgreeAt(H, rs, out, i) && AgreeAt(H, rs, out, j); }
    forall i | 0 <= i < |out|
      ensures out[i].fact.body.concept == concept && out[i].hash == ComputeHash(H, out[i])
      ensures |out[i].hash| == 64 && (i > 0 ==> Named(out[i].prevId))
    {
      assert AgreeAt(H, rs, out, i);
    }
    forall i | 1 <= i < |out|
      ensures out[i - 1].Ts() <= out[i].Ts()
      ensures if LinkedTo(out[i], out[i - 1]) then out[i].prevHash == out[i - 1].hash else i == 1 && HasArchive(out)
    {
      assert AgreeAt(H, rs, out, i) && AgreeAt(H, rs, out, i - 1);
    }
    if out != [] { assert AgreeAt(H, rs, out, 0); }
  }

  lemma StrippedAgrees(H: Hasher, rs: seq<Record>, out: seq<Record>, lost: int -> bool)
    requires StripsTo(rs, out, lost)
    ensures forall i :: 0 <= i < |rs| ==> AgreeAt(H, rs, out, i) && AgreeAt(H, out, rs, i)
  {
    forall i | 0 <= i < |rs| ensures AgreeAt(H, rs, out, i) && AgreeAt(H, out, rs, i) { StrippedAt(rs, out, lost, i); }
  }

  lemma StrippedChainAxioms(H: Hasher, concept: string, rs: seq<Record>, out: seq<Record>, lost: int -> bool)
    requires StripsTo(rs, out, lost) && WellFormed(H, concept, rs)
    ensures WellFormed(H, concept, out) <==> BodyAxioms(out)
  {
    StrippedAgrees(H, rs, out, lost);
    assert ChainAxioms(H, concept, rs);
    AgreeingChains(H, concept, rs, out);
  }

  /** A chain whose events at `lost` went through a file verifies exactly when none of them is of a kind
      that must carry a proof. */
  lemma StrippedVerifiesIff(H: Hasher, concept: string, rs: seq<Record>, out: seq<Record>, lost: int -> bool)
    requires StripsTo(rs, out, lost) && WellFormed(H, concept, rs)
    ensures WellFormed(H, concept, out) <==> forall i :: 0 <= i < |rs| && lost(i) ==> !NeedsProof(rs[i].Kind())
  {
    StrippedChainAxioms(H, concept, rs, out, lost);
    forall i | 0 <= i < |rs| ensures BodyOk(out[i].fact.body) <==> (lost(i) ==> !NeedsProof(rs[i].Kind())) {
      RecordOk(H, concept, rs, i);
      StrippedBody(rs[i].fact.body);
    }
  }

  /** The old list with the ARCHIVE event behind it verifies exactly when the clock is not behind its tail. */
  lemma WholeVerifiesIff(H: Hasher, concept: string, rs: seq<Record>, keep: nat, id: string, reasoning: string, payload: Payload, now: Time)
    requires Archivable(H, concept, rs, id) && |rs| > keep + 1 && keep > 0
    ensures var a := ArchiveRecord(H, Hot(rs, keep), ArchiveBody(id, concept, reasoning, payload), now);
      WellFormed(H, concept, rs + [a]) <==> rs[|rs| - 1].Ts() <= now
  {
    var kept := Hot(rs, keep);
    assert kept[|kept| - 1] == rs[|rs| - 1];
    assert Hot(rs, |rs|) == rs;
    TrimmedVerifiesIff(H, concept, rs, |rs|, id, reasoning, payload, now);
  }

  /** Keeping nothing links the ARCHIVE event to the genesis event, so it cannot stand behind the middle. */
  lemma WholeFailsWithoutHotTail(H: Hasher, concept: string, rs: seq<Record>, id: string, reasoning: string, payload: Payload, now: Time)
    requires Archivable(H, concept, rs, id) && |rs| > 1
    ensures !WellFormed(H, concept, rs + [ArchiveRecord(H, Hot(rs, 0), ArchiveBody(id, concept, reasoning, payload), now)])
  {
    var a := ArchiveRecord(H, Hot(rs, 0), ArchiveBody(id, concept, reasoning, payload), now);
    var out := rs + [a];
    var n := |rs|;
    assert Hot(rs, 0) == [rs[0]];
    assert out[n] == a && out[n - 1] == rs[n - 1];
    assert rs[0].Id() != rs[n - 1].Id();
    assert !LinkedTo(out[n], out[n - 1]);
  }

  lemma WholeVerifiesIffHotTail(H: Hasher, concept: string, rs: seq<Record>, keep: nat, id: string, reasoning: string, payload: Payload, now: Time)
    requires Archivable(H, concept, rs, id) && |rs| > keep + 1
    ensures WellFormed(H, concept, rs + [ArchiveRecord(H, Hot(rs, keep), ArchiveBody(id, concept, reasoning, payload), now)])
            <==> keep > 0 && rs[|rs| - 1].Ts() <= now
  {
    if keep > 0 {
      WholeVerifiesIff(H, concept, rs, keep, id, reasoning, payload, now);
    } else {
      WholeFailsWithoutHotTail(H, concept, rs, id, reasoning, payload, now);
    }
  }

  lemma StripsMeanwhile(H: Hasher, concept: string, whole: seq<Record>, out: seq<Record>, lost: int -> bool, ok: bool)
    requires StripsTo(whole, out, lost) && (WellFormed(H, concept, whole) <==> ok)
    requires forall i :: 0 <= i < |whole| ==> (lost(i) ==> BodyOk(whole[i].fact.body))
    ensures WellFormed(H, concept, out) <==> ok && forall i :: 0 <= i < |whole| && lost(i) ==> !NeedsProof(whole[i].Kind())
  {
    if ok {
      StrippedVerifiesIff(H, concept, whole, out, lost);
    } else {
      if WellFormed(H, concept, out) { StrippedFailsToo(H, concept, whole, out, lost); }
    }
  }

  /** Losing signatures and proofs never makes a chain verify that did not. */
  lemma StrippedFailsToo(H: Hasher, concept: string, rs: seq<Record>, out: seq<Record>, lost: int -> bool)
    requires StripsTo(rs, out, lost) && WellFormed(H, concept, out)
    requires forall i :: 0 <= i < |rs| ==> (lost(i) ==> BodyOk(rs[i].fact.body))
    ensures WellFormed(H, concept, rs)
  {
    StrippedAgrees(H, rs, out, lost);
    assert ChainAxioms(H, concept, out);
    AgreeingChains(H, concept, out, rs);
    forall i | 0 <= i < |rs| ensures BodyOk(rs[i].fact.body) { RecordOk(H, concept, out, i); }
  }

  function Between(lo: int, hi: int): int -> bool { i => lo <= i < hi }

  /** The rebuilt chain -- genesis, archived middle, hot tail with the ARCHIVE event -- verifies exactly when
      something was kept hot, the clock was not behind the old tail, and no archived event is of a kind
      that must carry a proof. */
  lemma RejoinedVerifiesIff(H: Hasher, concept: string, rs: seq<Record>, keep: nat, id: string, reasoning: string, payload: Payload, now: Time)
    requires Archivable(H, concept, rs, id) && |rs| > keep + 1
    ensures var hot := Hot(rs, keep) + [ArchiveRecord(H, Hot(rs, keep), ArchiveBody(id, concept, reasoning, payload), now)];
      var archived := ReadBackAll(H, StoredAll(Middle(rs, keep)));
      WellFormed(H, concept, Rejoin(hot, archived)) <==>
        && keep > 0 && rs[|rs| - 1].Ts() <= now
        && forall i :: 1 <= i < |rs| - keep ==> !NeedsProof(rs[i].Kind())
  {
    var a := ArchiveRecord(H, Hot(rs, keep), ArchiveBody(id, concept, reasoning, payload), now);
    var out := Rejoin(Hot(rs, keep) + [a], ReadBackAll(H, StoredAll(Middle(rs, keep))));
    var lost := Between(1, |rs| - keep);
    RejoinIsOldList(H, concept, rs, keep, a);
    RejoinStrips(rs, keep, a, out);
    WholeVerifiesIffHotTail(H, concept, rs, keep, id, reasoning, payload, now);
    forall i | 0 <= i < |rs + [a]| && lost(i) ensures BodyOk((rs + [a])[i].fact.body) { RecordOk(H, concept, rs, i); }
    StripsMeanwhile(H, concept, rs + [a], out, lost, keep > 0 && rs[|rs| - 1].Ts() <= now);
    KindsOfPrefix(rs, a, lost, |rs| - keep);
  }

  lemma RejoinStrips(rs: seq<Record>, keep: nat, a: Record, out: seq<Record>)
    requires |rs| > keep + 1 && out == [rs[0]] + StoredAll(Middle(rs, keep)) + rs[|rs| - keep..] + [a]
    ensures StripsTo(rs + [a], out, Between(1, |rs| - keep))
  {
    forall i | 0 <= i < |rs + [a]|
      ensures out[i] == if Between(1, |rs| - keep)(i) then Stored((rs + [a])[i]) else (rs + [a])[i]
    {
      if 1 <= i < |rs| - keep { assert out[i] == StoredAll(Middle(rs, keep))[i - 1]; }
    }
  }

  lemma KindsOfPrefix(rs: seq<Record>, a: Record, lost: int -> bool, n: int)
    requires 1 <= n <= |rs| && lost == Between(1, n)
    ensures (forall i :: 0 <= i < |rs + [a]| && lost(i) ==> !NeedsProof((rs + [a])[i].Kind())) <==>
            (forall i :: 1 <= i < n ==> !NeedsProof(rs[i].Kind()))
  {
    assert forall i :: 0 <= i < |rs| ==> (rs + [a])[i] == rs[i];
    if forall i :: 0 <= i < |rs + [a]| && lost(i) ==> !NeedsProof((rs + [a])[i].Kind()) {
      forall i | 1 <= i < n ensures !NeedsProof(rs[i].Kind()) { assert lost(i) && (rs + [a])[i] == rs[i]; }
    }
  }

  // ----- the deep check on the rebuilt chain -----

  /** The deep check takes the second event of the list for the first hot one, and in the rebuilt list that is the first archived
      event, which links to the genesis event. So a rebuilt chain fails the deep check, its archive file intact, whenever
      something was archived -- unless its second event is an ARCHIVE event itself, which the check passes over. */
  lemma RejoinedDeepCheckIff(H: Hasher, FH: FileHasher, concept: string, rs: seq<Record>, keep: nat, id: string,
                             files: map<string, seq<Record>>, compressed: bool, now: Time)
    requires Archivable(H, concept, rs, id) && |rs| > keep + 1
    requires files == files[ArchivePath(concept, compressed) := StoredAll(Middle(rs, keep))]
    ensures var mid := Middle(rs, keep);
      var payload := ArchivePayload(PREFIX + FH(StoredAll(mid)), ArchivePath(concept, compressed), |mid|, compressed);
      var a := ArchiveRecord(H, Hot(rs, keep), ArchiveBody(id, concept, "Cold storage migration", payload), now);
      DeepOk(H, FH, files, Rejoin(Hot(rs, keep) + [a], ReadBackAll(H, StoredAll(mid)))) <==> rs[1].Kind() == Archive
  {
    var mid, path := Middle(rs, keep), ArchivePath(concept, compressed);
    var payload := ArchivePayload(PREFIX + FH(StoredAll(mid)), path, |mid|, compressed);
    var a := ArchiveRecord(H, Hot(rs, keep), ArchiveBody(id, concept, "Cold storage migration", payload), now);
    var out := Rejoin(Hot(rs, keep) + [a], ReadBackAll(H, StoredAll(mid)));
    assert path in files && files[path] == StoredAll(mid);
    RejoinIsOldList(H, concept, rs, keep, a);
    RejoinStrips(rs, keep, a, out);
    forall i | 0 <= i < |rs| ensures ArchiveOk(H, FH, files, out, out[i]) {
      StrippedPointer(rs, a, out, Between(1, |rs| - keep), i);
      NothingPointedAt(H, FH, files, out, out[i]);
    }
    MiddleReadsBack(H, concept, rs, keep);
    RejoinedJoinIff(H, rs, keep, a, out);
    PointedAtIff(H, FH, concept, rs, keep, files, path, out, a);
    assert out[|rs|] == a;
  }

  lemma StrippedPointer(rs: seq<Record>, a: Record, out: seq<Record>, lost: int -> bool, i: nat)
    requires StripsTo(rs + [a], out, lost) && NeverArchived(rs) && i < |rs|
    ensures i < |out| && (out[i].Kind() == Archive ==> !HasPointer(out[i]))
  {
    assert out[i] == if lost(i) then Stored((rs + [a])[i]) else (rs + [a])[i];
    assert (rs + [a])[i] == rs[i];
  }

  /** The second event of the rebuilt list links to the genesis event, not to the last archived one. */
  lemma RejoinedJoinIff(H: Hasher, rs: seq<Record>, keep: nat, a: Record, out: seq<Record>)
    requires AppendBuilt(H, rs) && Axiom5(rs) && |rs| > keep + 1
    requires out == [rs[0]] + StoredAll(Middle(rs, keep)) + rs[|rs| - keep..] + [a]
    ensures JoinOk(out, StoredAll(Middle(rs, keep))) <==> rs[1].Kind() == Archive
  {
    var mid := StoredAll(Middle(rs, keep));
    assert out[1] == mid[0] == Stored(rs[1]);
    assert mid[|mid| - 1] == Stored(rs[|mid|]);
    BuiltLinks(H, rs, 1);
    assert rs[0].Id() != rs[|mid|].Id();
  }

  // ----- what the caches know after an archive -----

  /** `archive` resets the confidence cache, and the events that claimed a confidence may have left the chain. A read after it,
      and after appending `added`, gives the confidence of the whole history exactly when the appended events claim as much
      as any event before them -- or claim none, so that the rest of the chain is read again, and the archived events claim
      no more than the ones that stayed. */
  lemma ConfidenceAfterArchiveIff(rs: seq<Record>, keep: nat, a: Record, added: seq<Record>)
    requires |rs| > keep + 1 && a.Kind() == Archive
    ensures var present := Hot(rs, keep) + [a] + added;
      ConfidenceRead(present, MaxConfidence(added)) == Some(MaxConfidence(rs + [a] + added)) <==>
        if MaxConfidence(added) > 0.0 then MaxConfidence(rs) <= MaxConfidence(added)
        else AllReadable(present) && MaxConfidence(Middle(rs, keep)) <= MaxConfidence(Hot(rs, keep))
  {
    ConfidenceOfParts(rs, keep);
    assert MaxConfidence([a]) == 0.0 by { assert [a][..0] == []; }
    StateOfConcat(Hot(rs, keep) + [a], added);
    StateOfConcat(Hot(rs, keep), [a]);
    StateOfConcat(rs + [a], added);
    StateOfConcat(rs, [a]);
  }

  lemma ConfidenceOfParts(rs: seq<Record>, keep: nat)
    requires |rs| > keep + 1
    ensures MaxConfidence(rs) == MaxReal(MaxConfidence(Hot(rs, keep)), MaxConfidence(Middle(rs, keep)))
  {
    var mid, tail := Middle(rs, keep), rs[|rs| - keep..];
    SplitAt(rs, keep);
    StateOfConcat([rs[0]] + mid, tail);
    StateOfConcat([rs[0]], mid);
    StateOfConcat([rs[0]], tail);
  }

  ghost predicate IsTrimmed(rs: seq<Record>, keep: nat, out: seq<Record>) {
    |out| == |Hot(rs, keep)| + 1 && out == Hot(rs, keep) + [out[|out| - 1]] && out[|out| - 1].Kind() == Archive
  }

  lemma StateIsTrimmed(H: Hasher, FH: FileHasher, concept: string, rs: seq<Record>, files: map<string, seq<Record>>,
                       after: seq<Record>, filesAfter: map<string, seq<Record>>, keep: nat, compressed: bool, id: string, now: Time)
    requires |rs| > keep + 1 && ArchiveState(H, FH, concept, rs, files, after, filesAfter, keep, compressed, id, now)
    ensures IsTrimmed(rs, keep, after)
  {
  }

  method TrimChain(cold: ColdStorage, chain: EventChain, keep: nat, compressed: bool, id: string, now: Time)
    requires |chain.events| > keep + 1
    modifies cold, chain
    ensures IsTrimmed(old(chain.Records()), keep, chain.Records())
    ensures forall e :: e in chain.events ==> e in old(chain.events) || fresh(e)
    ensures chain.CacheShape() && chain.cachedStatusOrder == 0 && chain.cachedConfidence == 0.0
  {
    ghost var rs, files := chain.Records(), cold.files;
    var _ := cold.Archive(chain, keep, compressed, id, now);
    StateIsTrimmed(chain.H, cold.FH, chain.conceptId, rs, files, chain.Records(), cold.files, keep, compressed, id, now);
  }

  /** A first archive and appends behind it. */
  method ArchiveThenAppend(cold: ColdStorage, chain: EventChain, keep: nat, compressed: bool, id: string, now: Time, es: seq<Event>)
    returns (r: Result<(), ChainError>, ghost trimmed: seq<Record>)
    requires |chain.events| > keep + 1 && DistinctObjects(es) && forall e :: e in es ==> e !in chain.events
    modifies cold, chain, es
    ensures IsTrimmed(old(chain.Records()), keep, trimmed)
    ensures chain.CacheShape() && (r.Ok? <==> Appendable(chain.conceptId, old(Views(es))))
    ensures r.Ok? ==> chain.Records() == AppendAll(chain.H, trimmed, Facts(old(Views(es))))
    ensures r.Ok? ==> chain.cachedConfidence == MaxReal(0.0, MaxConfidence(old(Views(es))))
  {
    ghost var added := Views(es);
    TrimChain(cold, chain, keep, compressed, id, now);
    trimmed := chain.Records();
    assert Views(es) == added;
    r := AppendEvents(chain, es);
  }

  /** On objects: archive a chain, append to what is left, and read the confidence. */
  method ConfidenceAfterArchive(cold: ColdStorage, chain: EventChain, keep: nat, compressed: bool, id: string, now: Time, es: seq<Event>)
    returns (r: Result<Option<real>, ChainError>)
    requires |chain.events| > keep + 1 && DistinctObjects(es) && forall e :: e in es ==> e !in chain.events
    modifies cold, chain, es
    ensures r.Ok? <==> Appendable(chain.conceptId, old(Views(es)))
    ensures r.Ok? ==>
      var rs, added := old(chain.Records()), old(Views(es));
      r.value == Some(MaxReal(MaxConfidence(rs), MaxConfidence(added))) <==>
        if MaxConfidence(added) > 0.0 then MaxConfidence(rs) <= MaxConfidence(added)
        else AllReadable(chain.Records()) && MaxConfidence(Middle(rs, keep)) <= MaxConfidence(Hot(rs, keep))
  {
    ghost var rs, added := chain.Records(), Views(es);
    var appended, trimmed := ArchiveThenAppend(cold, chain, keep, compressed, id, now, es);
    if appended.Err? {
      return Err(appended.error);
    }
    var c := chain.Confidence();
    r := Ok(c);
    ReadBehind(chain.H, rs, keep, trimmed, added);
  }

  lemma ReadBehind(H: Hasher, rs: seq<Record>, keep: nat, trimmed: seq<Record>, added: seq<Record>)
    requires |rs| > keep + 1 && |trimmed| == |Hot(rs, keep)| + 1
    requires trimmed == Hot(rs, keep) + [trimmed[|trimmed| - 1]] && trimmed[|trimmed| - 1].Kind() == Archive
    ensures var present := AppendAll(H, trimmed, Facts(added));
      ConfidenceRead(present, MaxReal(0.0, MaxConfidence(added))) == Some(MaxReal(MaxConfidence(rs), MaxConfidence(added))) <==>
        if MaxConfidence(added) > 0.0 then MaxConfidence(rs) <= MaxConfidence(added)
        else AllReadable(present) && MaxConfidence(Middle(rs, keep)) <= MaxConfidence(Hot(rs, keep))
  {
    var present, a := AppendAll(H, trimmed, Facts(added)), trimmed[|trimmed| - 1];
    ConfidenceAfterArchiveIff(rs, keep, a, added);
    StateOfConcat(rs + [a], added);
    StateOfConcat(rs, [a]);
    assert MaxConfidence([a]) == 0.0 by { assert [a][..0] == []; }
    AppendedBodies(H, trimmed, added);
    SameBodiesSameState(present, trimmed + added);
    SameBodiesSameReadable(present, trimmed + added);
  }

  lemma AppendedBodies(H: Hasher, base: seq<Record>, added: seq<Record>)
    ensures var present := AppendAll(H, base, Facts(added));
      |present| == |base + added| && forall i :: 0 <= i < |present| ==> present[i].fact.body == (base + added)[i].fact.body
  {
    var present := AppendAll(H, base, Facts(added));
    AppendAllKeepsBase(H, base, Facts(added));
    AppendAllBodies(H, base, Facts(added));
    forall i | 0 <= i < |present| ensures present[i].fact.body == (base + added)[i].fact.body {
      if i < |base| {
        assert present[i] == present[..|base|][i];
      } else {
        assert present[|base| + (i - |base|)].fact.body == Facts(added)[i - |base|].body;
      }
    }
  }

  lemma SameBodiesSameReadable(xs: seq<Record>, ys: seq<Record>)
    requires |xs| == |ys| && forall i :: 0 <= i < |xs| ==> xs[i].fact.body == ys[i].fact.body
    ensures AllReadable(xs) <==> AllReadable(ys)
  {
    if AllReadable(xs) { forall i | 0 <= i < |ys| ensures Readable(ys[i].fact.body) { assert Readable(xs[i].fact.body); } }
    if AllReadable(ys) { forall i | 0 <= i < |xs| ensures Readable(xs[i].fact.body) { assert Readable(ys[i].fact.body); } }
  }
}
