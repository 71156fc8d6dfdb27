/** Cold storage (adl_lite/cold_storage.py) and reassembly (adl_lite/memory.py: `retrieve_chain`): what a first
    archive leaves behind, what the deep check accepts, and what the pieces rejoin to. */
module ColdStorages {
  import opened Basics
  import opened Events
  import opened DerivedState
  import opened EventChains
  import opened Integrity

  /** SHA-256 of an archive file. */
  type FileHasher = seq<Record> -> string

  /** `_event_to_dict` writes neither the signature nor the proof. */
  function Stored(r: Record): Record {
    r.(fact := r.fact.(body := r.fact.body.(signature := "", proof := None)))
  }

  function StoredAll(rs: seq<Record>): seq<Record> { seq(|rs|, i requires 0 <= i < |rs| => Stored(rs[i])) }

  /** `_event_from_dict`: the constructor hashes an event that has no hash, before its link is restored. */
  function ReadBack(H: Hasher, r: Record): Record {
    if r.hash == "" then r.(hash := ComputeHash(H, r.(prevHash := ""))) else r
  }

  function ReadBackAll(H: Hasher, rs: seq<Record>): seq<Record> {
    seq(|rs|, i requires 0 <= i < |rs| => ReadBack(H, rs[i]))
  }

  function ArchivePath(concept: string, compressed: bool): string {
    concept + (if compressed then ".archive.msgpack.zst" else ".archive.jsonl")
  }

  /** What `unarchive` finds: the compressed file first, then the plain one. */
  function ArchiveOf(H: Hasher, files: map<string, seq<Record>>, concept: string): Option<seq<Record>> {
    if ArchivePath(concept, true) in files then Some(ReadBackAll(H, files[ArchivePath(concept, true)]))
    else if ArchivePath(concept, false) in files then Some(ReadBackAll(H, files[ArchivePath(concept, false)]))
    else None
  }

  lemma PathsDiffer(concept: string)
    ensures ArchivePath(concept, true) != ArchivePath(concept, false)
  {
    assert |ArchivePath(concept, true)| == |concept| + 20 && |ArchivePath(concept, false)| == |concept| + 14;
  }

  // ----- the split -----

  /** What leaves the chain: everything between the genesis event and the last `keep` events. */
  function Middle(rs: seq<Record>, keep: nat): seq<Record>
    requires |rs| > keep + 1
  {
    rs[1..|rs| - keep]
  }

  /** What stays. */
  function Hot(rs: seq<Record>, keep: nat): seq<Record> {
    if |rs| <= keep + 1 then rs else [rs[0]] + rs[|rs| - keep..]
  }

  /** How many of `n` events the slice `events[-keep:]` holds; a negative `keep` drops from the front instead. */
  function TailLength(n: nat, keep: int): nat {
    if keep >= 0 then keep else if -keep <= n then n + keep else 0
  }

  /** The first and the last `keep` of some objects. */
  function KeptOf<T>(es: seq<T>, keep: nat): seq<T> { if |es| <= keep + 1 then es else [es[0]] + es[|es| - keep..] }

  /** What leaves the chain, nothing when it would be an empty middle. */
  function Leaving(rs: seq<Record>, keep: nat): seq<Record> { if |rs| <= keep + 1 then [] else Middle(rs, keep) }

  lemma CutAt(rs: seq<Record>, keep: nat, cut: nat)
    requires 1 <= cut <= |rs| && keep == |rs| - cut
    ensures rs[1..cut] == Leaving(rs, keep) && [rs[0]] + rs[cut..] == Hot(rs, keep)
  {
  }

  datatype ArchiveError = IndexOutOfRange

  function ArchivePayload(pointer: string, path: string, count: nat, compressed: bool): Payload {
    map["archive_pointer" := Str(pointer), "archive_file" := Str(path), "archived_count" := Num(count as real), "compressed" := Bool(compressed)]
  }

  function ArchiveBody(id: string, concept: string, reasoning: string, payload: Payload): Body {
    Body(id, concept, Archive, "system", reasoning, payload, "", None)
  }

  /** The ARCHIVE event behind `kept`: linked by hand, its timestamp not lifted. */
  function ArchiveRecord(H: Hasher, kept: seq<Record>, body: Body, now: Time): Record {
    if kept == [] then Sealed(H, Fact(body, now), None, "")
    else Sealed(H, Fact(body, now), Some(kept[|kept| - 1].Id()), kept[|kept| - 1].hash)
  }

  // ----- what an archive does, in the words of its caller -----

  /** `out` is `r` without signature and proof. */
  predicate WithoutProof(r: Record, out: Record) {
    var b, c := r.fact.body, out.fact.body;
    && c.id == b.id && c.concept == b.concept && c.kind == b.kind && c.actor == b.actor && c.reasoning == b.reasoning
    && c.payload == b.payload && c.signature == "" && c.proof == None
    && out.fact.ts == r.fact.ts && out.prevId == r.prevId && out.prevHash == r.prevHash && out.hash == r.hash
  }

  lemma StoredIs(r: Record, out: Record)
    ensures out == Stored(r) <==> WithoutProof(r, out)
  {
  }

  /** The file holds these records, one for one, without signatures and proofs. */
  ghost predicate HoldsAll(file: seq<Record>, rs: seq<Record>) {
    |file| == |rs| && forall i :: 0 <= i < |rs| ==> WithoutProof(rs[i], file[i])
  }

  /** The ARCHIVE event behind the kept events, with what it says of the file. */
  predicate Announces(H: Hasher, kept: seq<Record>, a: Record, id: string, concept: string, now: Time,
                      pointer: string, path: string, count: nat, compressed: bool) {
    var b := a.fact.body;
    && b.id == id && b.concept == concept && b.kind == Archive && b.actor == "system" && a.fact.ts == now
    && b.payload.Keys == {"archive_pointer", "archive_file", "archived_count", "compressed"}
    && b.payload["archive_pointer"] == Str(pointer) && b.payload["archive_file"] == Str(path)
    && b.payload["archived_count"] == Num(count as real) && b.payload["compressed"] == Bool(compressed)
    && (if kept == [] then a.prevId == None && a.prevHash == ""
        else a.prevId == Some(kept[|kept| - 1].Id()) && a.prevHash == kept[|kept| - 1].hash)
    && a.hash == ComputeHash(H, a)
  }

  /** Where the slice `events[-keep:]` of `n` events starts, for a `keep` other than zero; zero keeps nothing. */
  function CutOf(n: nat, keep: int): (cut: int)
    ensures n > keep + 1 && n > 0 ==> 1 <= cut <= n
  {
    if keep >= 0 then n - keep else if -keep < n then -keep else n
  }

  ghost predicate ArchiveDone(H: Hasher, FH: FileHasher, concept: string, rs: seq<Record>, files: map<string, seq<Record>>,
                              after: seq<Record>, filesAfter: map<string, seq<Record>>, keep: int, compressed: bool, id: string, now: Time) {
    var path := concept + (if compressed then ".archive.msgpack.zst" else ".archive.jsonl");
    && after != []
    && var kept, a := after[..|after| - 1], after[|after| - 1];
       if |rs| <= keep + 1 then
         kept == rs && filesAfter == files && Announces(H, kept, a, id, concept, now, "", path, 0, compressed)
       else
         && rs != [] && kept == [rs[0]] + rs[CutOf(|rs|, keep)..]
         && filesAfter.Keys == files.Keys + {path} && (forall f :: f in files && f != path ==> filesAfter[f] == files[f])
         && HoldsAll(filesAfter[path], rs[1..CutOf(|rs|, keep)])
         && Announces(H, kept, a, id, concept, now, "sha256:" + FH(filesAfter[path]), path, |rs| + 1 - |after|, compressed)
  }

  lemma AnnouncesSo(H: Hasher, kept: seq<Record>, id: string, concept: string, reasoning: string, now: Time,
                    pointer: string, path: string, count: nat, compressed: bool)
    ensures Announces(H, kept, ArchiveRecord(H, kept, ArchiveBody(id, concept, reasoning, ArchivePayload(pointer, path, count, compressed)), now),
                      id, concept, now, pointer, path, count, compressed)
  {
  }

  lemma HoldsStored(rs: seq<Record>)
    ensures HoldsAll(StoredAll(rs), rs)
  {
    forall i | 0 <= i < |rs| ensures WithoutProof(rs[i], StoredAll(rs)[i]) { StoredIs(rs[i], Stored(rs[i])); }
  }

  lemma LeavingIsCut(rs: seq<Record>, keep: int)
    requires |rs| > keep + 1 && rs != []
    ensures var k, cut := TailLength(|rs|, keep), CutOf(|rs|, keep);
      Leaving(rs, k) == rs[1..cut] && Hot(rs, k) == [rs[0]] + rs[cut..] && |Leaving(rs, k)| == |rs| - |Hot(rs, k)|
  {
    var k, cut := TailLength(|rs|, keep), CutOf(|rs|, keep);
    assert k == |rs| - cut;
    CutAt(rs, k, cut);
  }

  /** The list and the files after an archive, by the functions above. */
  predicate ArchiveState(H: Hasher, FH: FileHasher, concept: string, rs: seq<Record>, files: map<string, seq<Record>>,
                         after: seq<Record>, filesAfter: map<string, seq<Record>>, keepLastN: int, compressed: bool, id: string, now: Time) {
    var path := ArchivePath(concept, compressed);
    var keep := TailLength(|rs|, keepLastN);
    if |rs| <= keepLastN + 1 then
      && filesAfter == files
      && after == rs + [ArchiveRecord(H, rs,
           ArchiveBody(id, concept, "Cold storage migration — nothing to archive", ArchivePayload("", path, 0, compressed)), now)]
    else
      && rs != [] && filesAfter == files[path := StoredAll(Leaving(rs, keep))]
      && after == Hot(rs, keep) + [ArchiveRecord(H, Hot(rs, keep),
           ArchiveBody(id, concept, "Cold storage migration",
             ArchivePayload(PREFIX + FH(StoredAll(Leaving(rs, keep))), path, |Leaving(rs, keep)|, compressed)), now)]
  }

  /** The list, the files and the body before the ARCHIVE event is appended. */
  predicate SplitState(FH: FileHasher, concept: string, rs: seq<Record>, files: map<string, seq<Record>>,
                       kept: seq<Record>, filesAfter: map<string, seq<Record>>, body: Body, keepLastN: int, compressed: bool, id: string) {
    var path := ArchivePath(concept, compressed);
    var keep := TailLength(|rs|, keepLastN);
    if |rs| <= keepLastN + 1 then
      && filesAfter == files && kept == rs
      && body == ArchiveBody(id, concept, "Cold storage migration — nothing to archive", ArchivePayload("", path, 0, compressed))
    else
      && rs != [] && filesAfter == files[path := StoredAll(Leaving(rs, keep))] && kept == Hot(rs, keep)
      && body == ArchiveBody(id, concept, "Cold storage migration",
                   ArchivePayload(PREFIX + FH(StoredAll(Leaving(rs, keep))), path, |Leaving(rs, keep)|, compressed))
  }

  lemma SplitThenAppended(H: Hasher, FH: FileHasher, concept: string, rs: seq<Record>, files: map<string, seq<Record>>,
                          kept: seq<Record>, filesAfter: map<string, seq<Record>>, body: Body,
                          keepLastN: int, compressed: bool, id: string, now: Time)
    requires SplitState(FH, concept, rs, files, kept, filesAfter, body, keepLastN, compressed, id)
    ensures ArchiveState(H, FH, concept, rs, files, kept + [ArchiveRecord(H, kept, body, now)], filesAfter, keepLastN, compressed, id, now)
  {
  }

  /** What that comes to in the words above. */
  lemma ArchiveMeaning(H: Hasher, FH: FileHasher, concept: string, rs: seq<Record>, files: map<string, seq<Record>>,
                    after: seq<Record>, filesAfter: map<string, seq<Record>>, keep: int, compressed: bool, id: string, now: Time)
    requires ArchiveState(H, FH, concept, rs, files, after, filesAfter, keep, compressed, id, now)
    ensures ArchiveDone(H, FH, concept, rs, files, after, filesAfter, keep, compressed, id, now)
  {
    if |rs| <= keep + 1 {
      ArchivedNothing(H, FH, concept, rs, files, keep, compressed, id, now);
    } else {
      ArchivedSome(H, FH, concept, rs, files, keep, compressed, id, now);
    }
  }

  lemma ArchivedNothing(H: Hasher, FH: FileHasher, concept: string, rs: seq<Record>, files: map<string, seq<Record>>,
                        keep: int, compressed: bool, id: string, now: Time)
    requires |rs| <= keep + 1
    ensures ArchiveDone(H, FH, concept, rs, files,
              rs + [ArchiveRecord(H, rs, ArchiveBody(id, concept, "Cold storage migration — nothing to archive",
                                                     ArchivePayload("", ArchivePath(concept, compressed), 0, compressed)), now)],
              files, keep, compressed, id, now)
  {
    AnnouncesSo(H, rs, id, concept, "Cold storage migration — nothing to archive", now, "", ArchivePath(concept, compressed), 0, compressed);
    var a := ArchiveRecord(H, rs, ArchiveBody(id, concept, "Cold storage migration — nothing to archive",
                                              ArchivePayload("", ArchivePath(concept, compressed), 0, compressed)), now);
    assert (rs + [a])[..|rs + [a]| - 1] == rs;
  }

  lemma ArchivedSome(H: Hasher, FH: FileHasher, concept: string, rs: seq<Record>, files: map<string, seq<Record>>,
                     keep: int, compressed: bool, id: string, now: Time)
    requires |rs| > keep + 1 && rs != []
    ensures var k, path := TailLength(|rs|, keep), ArchivePath(concept, compressed);
      var mid := StoredAll(Leaving(rs, k));
      ArchiveDone(H, FH, concept, rs, files,
        Hot(rs, k) + [ArchiveRecord(H, Hot(rs, k), ArchiveBody(id, concept, "Cold storage migration",
                                                               ArchivePayload(PREFIX + FH(mid), path, |Leaving(rs, k)|, compressed)), now)],
        files[path := mid], keep, compressed, id, now)
  {
    var k, path := TailLength(|rs|, keep), ArchivePath(concept, compressed);
    var kept, gone := Hot(rs, k), Leaving(rs, k);
    LeavingIsCut(rs, keep);
    HoldsStored(gone);
    AnnouncesSo(H, kept, id, concept, "Cold storage migration", now, PREFIX + FH(StoredAll(gone)), path, |gone|, compressed);
    var a := ArchiveRecord(H, kept, ArchiveBody(id, concept, "Cold storage migration",
                                                ArchivePayload(PREFIX + FH(StoredAll(gone)), path, |gone|, compressed)), now);
    ArchiveParts(H, FH, concept, rs, files, kept, a, StoredAll(gone), keep, compressed, id, now);
  }

  lemma ArchiveParts(H: Hasher, FH: FileHasher, concept: string, rs: seq<Record>, files: map<string, seq<Record>>,
                     kept: seq<Record>, a: Record, file: seq<Record>, keep: int, compressed: bool, id: string, now: Time)
    requires |rs| > keep + 1 && rs != [] && kept == [rs[0]] + rs[CutOf(|rs|, keep)..] && HoldsAll(file, rs[1..CutOf(|rs|, keep)])
    requires |kept| <= |rs|
    requires Announces(H, kept, a, id, concept, now, PREFIX + FH(file), ArchivePath(concept, compressed), |rs| - |kept|, compressed)
    ensures ArchiveDone(H, FH, concept, rs, files, kept + [a], files[ArchivePath(concept, compressed) := file], keep, compressed, id, now)
  {
    assert (kept + [a])[..|kept + [a]| - 1] == kept;
  }

  // ----- reading a file -----

  /** What is read is what was written, except that an event without a hash gets that of its content before its link is restored. */
  ghost predicate ReadsBack(H: Hasher, file: seq<Record>, read: seq<Record>) {
    |read| == |file| && forall i :: 0 <= i < |file| ==> if file[i].hash != "" then read[i] == file[i] else Rehashed(H, file[i], read[i])
  }

  /** The hash is that of the record with an empty link hash; everything else is as it was. */
  predicate Rehashed(H: Hasher, r: Record, out: Record) {
    && out.fact == r.fact && out.prevId == r.prevId && out.prevHash == r.prevHash
    && out.hash == ComputeHash(H, Record(r.fact, r.prevId, "", ""))
  }

  lemma AllReadBack(H: Hasher, file: seq<Record>)
    ensures ReadsBack(H, file, ReadBackAll(H, file))
  {
  }

  // ----- the deep check -----

  function Text(p: Payload, key: string): string {
    match Get(p, key)
    case Str(s) => s
    case _ => ""
  }

  const PREFIX := "sha256:"

  /** The digest named by a pointer, with or without its prefix. */
  function PointerDigest(pointer: string): string {
    if PREFIX <= pointer then pointer[|PREFIX|..] else pointer
  }

  predicate SubchainLinkOk(H: Hasher, es: seq<Record>, i: nat)
    requires i < |es|
  {
    && (i > 0 ==> es[i].prevId == Some(es[i - 1].Id()) && es[i].prevHash == es[i - 1].hash)
    && es[i].hash == ComputeHash(H, es[i])
  }

  /** The first hot event continues the archived ones. */
  predicate JoinOk(rs: seq<Record>, es: seq<Record>) {
    |rs| > 1 && rs[1].Kind() != Archive && es != [] ==>
      rs[1].prevId == Some(es[|es| - 1].Id()) && rs[1].prevHash == es[|es| - 1].hash
  }

  ghost predicate ArchiveOk(H: Hasher, FH: FileHasher, files: map<string, seq<Record>>, rs: seq<Record>, r: Record) {
    var pointer, path := Text(r.fact.body.payload, "archive_pointer"), Text(r.fact.body.payload, "archive_file");
    r.Kind() == Archive && pointer != "" && path != "" ==>
      && path in files && PointerDigest(pointer) == FH(files[path])
      && (forall i :: 0 <= i < |files[path]| ==> SubchainLinkOk(H, ReadBackAll(H, files[path]), i))
      && JoinOk(rs, ReadBackAll(H, files[path]))
  }

  /** `verify_integrity(full=True)` beyond the prefix check. */
  ghost predicate DeepOk(H: Hasher, FH: FileHasher, files: map<string, seq<Record>>, rs: seq<Record>) {
    forall i :: 0 <= i < |rs| ==> ArchiveOk(H, FH, files, rs, rs[i])
  }

  // ----- the store -----

  class ColdStorage {
    const FH: FileHasher
    var files: map<string, seq<Record>>

    constructor (FH: FileHasher)
      ensures this.FH == FH && files == map[]
    {
      this.FH := FH;
      files := map[];
    }

    /** Moves the middle of the chain to a file and appends an ARCHIVE event to what stays. The clock `now`
        and the fresh id are inputs. The event objects of the chain are not touched. A negative `keepLastN` archives
        from the front, and raises on an empty chain unless it is -1. */
    method Archive(chain: EventChain, keepLastN: int, compressed: bool, id: string, now: Time) returns (r: Result<Event, ArchiveError>)
      modifies this, chain
      ensures r.Err? <==> old(chain.events) == [] && keepLastN < -1
      ensures r.Err? ==> files == old(files) && chain.events == [] && unchanged(chain)
      ensures r.Ok? ==> fresh(r.value)
      ensures r.Ok? ==>
        chain.events == old(KeptOf(chain.events, TailLength(|chain.events|, keepLastN))) + [r.value]
      ensures r.Ok? ==>
        ArchiveState(chain.H, FH, chain.conceptId, old(chain.Records()), old(files), chain.Records(), files, keepLastN, compressed, id, now)
      ensures r.Ok? ==>
        && chain.CacheShape() && chain.cachedStatusOrder == 0 && chain.cachedConfidence == 0.0
        && chain.verifiedIds == [] && chain.VerifierInv()
    {
      ghost var rs, before := chain.Records(), files;
      var split := SplitOff(chain, keepLastN, compressed, id);
      if split.Err? { return Err(split.error); }
      ghost var kept := chain.Records();
      var e := AppendByHand(chain, split.value, now);
      r := Ok(e);
      SplitThenAppended(chain.H, FH, chain.conceptId, rs, before, kept, files, split.value, keepLastN, compressed, id, now);
    }

    /** What `archive` does before it appends: nothing, or the middle goes to a file; and the body of the ARCHIVE event. */
    method SplitOff(chain: EventChain, keepLastN: int, compressed: bool, id: string) returns (r: Result<Body, ArchiveError>)
      modifies this, chain`events
      ensures r.Err? <==> old(chain.events) == [] && keepLastN < -1
      ensures r.Err? ==> files == old(files) && chain.events == []
      ensures r.Ok? ==> chain.events == old(KeptOf(chain.events, TailLength(|chain.events|, keepLastN)))
      ensures r.Ok? ==>
        SplitState(FH, chain.conceptId, old(chain.Records()), old(files), chain.Records(), files, r.value, keepLastN, compressed, id)
    {
      var total := |chain.events|;
      var path := ArchivePath(chain.conceptId, compressed);
      if total <= keepLastN + 1 {
        return Ok(ArchiveBody(id, chain.conceptId, "Cold storage migration — nothing to archive", ArchivePayload("", path, 0, compressed)));
      }
      if total == 0 {
        return Err(IndexOutOfRange);
      }
      var cut := if keepLastN >= 0 then total - keepLastN else if -keepLastN <= total then -keepLastN else total;
      var pointer, count := MoveOut(chain, cut, TailLength(total, keepLastN), path);
      r := Ok(ArchiveBody(id, chain.conceptId, "Cold storage migration", ArchivePayload(pointer, path, count, compressed)));
    }

    /** Writes the events between the first one and `cut` to a file and takes them out of the chain; `keep` stay behind them. */
    method MoveOut(chain: EventChain, cut: nat, ghost keep: nat, path: string) returns (pointer: string, count: nat)
      requires 1 <= cut <= |chain.events| && keep == |chain.events| - cut
      modifies this, chain`events
      ensures chain.events == old(KeptOf(chain.events, keep))
      ensures var rs := old(chain.Records());
        && files == old(files)[path := StoredAll(Leaving(rs, keep))] && chain.Records() == Hot(rs, keep)
        && pointer == PREFIX + FH(StoredAll(Leaving(rs, keep))) && count == |Leaving(rs, keep)|
    {
      var archived := chain.Records()[1..cut];
      files := files[path := StoredAll(archived)];
      pointer, count := PREFIX + FH(files[path]), |archived|;
      chain.events := [chain.events[0]] + chain.events[cut..];
      CutAt(old(chain.Records()), keep, cut);
      assert chain.Records() == [old(chain.Records())[0]] + old(chain.Records())[cut..];
    }

    /** The ARCHIVE event is linked and appended without `append`; the caches are only invalidated. */
    method AppendByHand(chain: EventChain, body: Body, now: Time) returns (e: Event)
      modifies chain
      ensures fresh(e) && chain.events == old(chain.events) + [e]
      ensures chain.Records() == old(chain.Records()) + [ArchiveRecord(chain.H, old(chain.Records()), body, now)]
      ensures chain.CacheShape() && chain.cachedStatusOrder == 0 && chain.cachedConfidence == 0.0
      ensures chain.verifiedIds == [] && chain.VerifierInv()
    {
      ghost var rs := chain.Records();
      e := new Event(chain.H, body, now);
      LinkByHand(chain, e);
      chain.events := chain.events + [e];
      chain.InvalidateCaches();
      assert chain.Records() == rs + [e.View()];
    }

    /** Points a new event at the tail, and leaves its time alone. */
    method LinkByHand(chain: EventChain, e: Event)
      requires e !in chain.events && e.View() == Sealed(chain.H, e.View().fact, None, "")
      modifies e
      ensures e.View() == ArchiveRecord(chain.H, chain.Records(), old(e.body), old(e.timestamp))
    {
      if chain.events != [] {
        var last := chain.events[|chain.events| - 1];
        e.previousEventId := Some(last.body.id);
        e.prevHash := last.hash;
        e.hash := "";
        e.PostInit(chain.H);
      }
    }

    method Unarchive(H: Hasher, concept: string) returns (r: Option<seq<Record>>)
      ensures r == ArchiveOf(H, files, concept)
      ensures var older, plain := concept + ".archive.msgpack.zst", concept + ".archive.jsonl";
        && (r.None? <==> older !in files && plain !in files)
        && (older in files ==> ReadsBack(H, files[older], r.value))
        && (older !in files && plain in files ==> ReadsBack(H, files[plain], r.value))
    {
      forall file: seq<Record> ensures ReadsBack(H, file, ReadBackAll(H, file)) { AllReadBack(H, file); }
      if ArchivePath(concept, true) in files {
        return Some(ReadBackAll(H, files[ArchivePath(concept, true)]));
      }
      if ArchivePath(concept, false) !in files {
        return None;
      }
      r := Some(ReadBackAll(H, files[ArchivePath(concept, false)]));
    }

    /** `verify_integrity`: the incremental check, and on demand the archives behind it. */
    method VerifyIntegrity(chain: EventChain, full: bool) returns (ok: bool)
      requires chain.VerifierInv()
      modifies chain`verifiedIndex, chain`verifiedHash, chain`verifiedSeen, chain`verifiedIds, chain`verifiedLast
      ensures chain.VerifierInv()
      ensures ok == (Verify(chain.H, chain.conceptId, chain.Records(), old(chain.verifiedIds)).0
                     && (full ==> DeepOk(chain.H, FH, files, chain.Records())))
      ensures chain.events != [] ==> chain.verifiedIds == Verify(chain.H, chain.conceptId, chain.Records(), old(chain.verifiedIds)).1
    {
      if chain.events == [] {
        return true;
      }
      ok := chain.VerifyPrefix();
      if ok && full {
        ok := VerifyArchives(chain);
      }
    }

    method VerifyArchives(chain: EventChain) returns (ok: bool)
      ensures ok == DeepOk(chain.H, FH, files, chain.Records())
    {
      ghost var rs := chain.Records();
      for k := 0 to |chain.events|
        invariant forall i :: 0 <= i < k ==> ArchiveOk(chain.H, FH, files, rs, rs[i])
      {
        ok := VerifyArchive(chain, k);
        if !ok {
          return;
        }
      }
      ok := true;
    }

    /** One ARCHIVE event: file hash, links and hashes inside the file, and the join to the hot tail. */
    method VerifyArchive(chain: EventChain, k: nat) returns (ok: bool)
      requires k < |chain.events|
      ensures ok == ArchiveOk(chain.H, FH, files, chain.Records(), chain.Records()[k])
    {
      var event := chain.events[k];
      ghost var rs := chain.Records();
      assert rs[k] == event.View();
      if event.body.kind != EventType.Archive {
        return true;
      }
      var pointer := Text(event.body.payload, "archive_pointer");
      var path := Text(event.body.payload, "archive_file");
      if pointer == "" || path == "" {
        return true;
      }
      if path !in files || PointerDigest(pointer) != FH(files[path]) {
        return false;
      }
      var archived := ReadBackAll(chain.H, files[path]);
      for i := 0 to |archived|
        invariant forall j :: 0 <= j < i ==> SubchainLinkOk(chain.H, archived, j)
      {
        if !SubchainLinkOk(chain.H, archived, i) {
          return false;
        }
      }
      assert forall j :: 0 <= j < |files[path]| ==> SubchainLinkOk(chain.H, archived, j);
      if |chain.events| > 1 {
        assert rs[1] == chain.events[1].View();
        ok := JoinOk(chain.Records(), archived);
      } else {
        ok := true;
      }
    }
  }
}
