/** What the deep check of an archived chain guarantees (adl_lite/models.py: `verify_integrity(full=True)`): the file named by the
    ARCHIVE event holds the archived events, or a collision shows. */
module DeepChecks {
  import opened Basics
  import opened Events
  import opened ColdStorages
  import opened Archiving
  import opened HashedFields
  import opened TailHash

  /** The records `k` places before the ends agree in every hashed field. */
  ghost predicate AlikeFromEnd(a: seq<Record>, b: seq<Record>, k: nat)
    requires k < |a| && k < |b|
  {
    SameHashed(a[|a| - 1 - k], b[|b| - 1 - k])
  }

  /** Counted from their ends, the lists agree in every hashed field for as long as both last. */
  ghost predicate SameEnd(a: seq<Record>, b: seq<Record>) {
    forall k: nat :: k < |a| && k < |b| ==> AlikeFromEnd(a, b, k)
  }

  /** Every record is hashed and points at the one before it; the first may point anywhere. */
  ghost predicate LinkedBack(H: Hasher, es: seq<Record>) { forall i :: 0 <= i < |es| ==> SubchainLinkOk(H, es, i) }

  lemma LinkedBackPrefix(H: Hasher, es: seq<Record>, n: nat)
    requires LinkedBack(H, es) && n <= |es|
    ensures LinkedBack(H, es[..n])
  {
    forall i | 0 <= i < n ensures SubchainLinkOk(H, es[..n], i) { assert SubchainLinkOk(H, es, i); }
  }

  lemma SameEndLonger(a: seq<Record>, b: seq<Record>)
    requires a != [] && b != [] && SameHashed(a[|a| - 1], b[|b| - 1]) && SameEnd(a[..|a| - 1], b[..|b| - 1])
    ensures SameEnd(a, b)
  {
    forall k: nat | k < |a| && k < |b| ensures AlikeFromEnd(a, b, k) {
      if k > 0 { assert AlikeFromEnd(a[..|a| - 1], b[..|b| - 1], k - 1); }
    }
  }

  /** Two lists that are linked back and end in the same hash have the same end -- or two of their contents collide. */
  lemma {:induction false} SameHashSameEnd(H: Hasher, a: seq<Record>, b: seq<Record>)
    requires LinkedBack(H, a) && LinkedBack(H, b) && a != [] && b != [] && a[|a| - 1].hash == b[|b| - 1].hash
    ensures SameEnd(a, b) || CollisionBetween(H, a, b)
  {
    var m, n := |a| - 1, |b| - 1;
    assert SubchainLinkOk(H, a, m) && SubchainLinkOk(H, b, n);
    SameHashMeans(H, a[m], b[n]);
    if SameHashed(a[m], b[n]) {
      if m > 0 && n > 0 {
        LinkedBackPrefix(H, a, m);
        LinkedBackPrefix(H, b, n);
        assert a[m - 1].hash == b[n - 1].hash;
        SameHashSameEnd(H, a[..m], b[..n]);
        if CollisionBetween(H, a[..m], b[..n]) { CollisionInLonger(H, a, b); }
      }
      if SameEnd(a[..m], b[..n]) { SameEndLonger(a, b); }
    } else {
      CollisionAtEnd(H, a, b);
    }
  }

  lemma CollisionAtEnd(H: Hasher, a: seq<Record>, b: seq<Record>)
    requires a != [] && b != [] && Collision(H, ContentOf(a[|a| - 1]), ContentOf(b[|b| - 1]))
    ensures CollisionBetween(H, a, b)
  {
    assert Contents(a)[|a| - 1] == ContentOf(a[|a| - 1]) && Contents(b)[|b| - 1] == ContentOf(b[|b| - 1]);
  }

  /** The ARCHIVE event that a first archive of `rs` writes. */
  function Announcement(H: Hasher, FH: FileHasher, concept: string, rs: seq<Record>, keep: nat, id: string, compressed: bool, now: Time): Record
    requires |rs| > keep + 1
  {
    var mid := Middle(rs, keep);
    ArchiveRecord(H, Hot(rs, keep), ArchiveBody(id, concept, "Cold storage migration",
      ArchivePayload(PREFIX + FH(StoredAll(mid)), ArchivePath(concept, compressed), |mid|, compressed)), now)
  }

  lemma AnnouncedFile(H: Hasher, FH: FileHasher, concept: string, rs: seq<Record>, keep: nat, id: string, compressed: bool, now: Time,
                      files: map<string, seq<Record>>)
    requires |rs| > keep + 1
    requires var out := Hot(rs, keep) + [Announcement(H, FH, concept, rs, keep, id, compressed, now)];
      DeepOk(H, FH, files, out)
    ensures var path := ArchivePath(concept, compressed);
      var out := Hot(rs, keep) + [Announcement(H, FH, concept, rs, keep, id, compressed, now)];
      && path in files && FH(files[path]) == FH(StoredAll(Middle(rs, keep)))
      && LinkedBack(H, ReadBackAll(H, files[path])) && JoinOk(out, ReadBackAll(H, files[path]))
  {
    var a := Announcement(H, FH, concept, rs, keep, id, compressed, now);
    var kept := Hot(rs, keep);
    PointerReads(FH(StoredAll(Middle(rs, keep))));
    assert (kept + [a])[|kept|] == a;
    assert ArchiveOk(H, FH, files, kept + [a], a);
  }

  lemma StoredIsLinkedBack(H: Hasher, concept: string, rs: seq<Record>, keep: nat)
    requires AppendBuilt(H, rs) && WellFormed(H, concept, rs) && |rs| > keep + 1
    ensures LinkedBack(H, StoredAll(Middle(rs, keep)))
  {
    forall i | 0 <= i < |Middle(rs, keep)| ensures SubchainLinkOk(H, StoredAll(Middle(rs, keep)), i) {
      ArchivedSubchain(H, concept, rs, keep, i);
    }
  }

  /** A trimmed chain that passes the deep check, whatever its files hold by then: the file has the digest of the archived events.
      And even a file of the same digest, when something was kept hot whose first event is no ARCHIVE, is empty or agrees with the
      archived events from their end on in every hashed field -- or two contents have one hash. */
  lemma DeepCheckFixesArchive(H: Hasher, FH: FileHasher, concept: string, rs: seq<Record>, keep: nat, id: string, compressed: bool,
                              now: Time, files: map<string, seq<Record>>)
    requires Archivable(H, concept, rs, id) && |rs| > keep + 1
    requires DeepOk(H, FH, files, Hot(rs, keep) + [Announcement(H, FH, concept, rs, keep, id, compressed, now)])
    ensures var path := ArchivePath(concept, compressed);
      && path in files && FH(files[path]) == FH(StoredAll(Middle(rs, keep)))
      && (keep > 0 && rs[|rs| - keep].Kind() != Archive ==>
            var read := ReadBackAll(H, files[path]);
            SameEnd(read, StoredAll(Middle(rs, keep))) || CollisionBetween(H, read, StoredAll(Middle(rs, keep))))
  {
    var a, kept, mid := Announcement(H, FH, concept, rs, keep, id, compressed, now), Hot(rs, keep), StoredAll(Middle(rs, keep));
    var read := DeepRead(H, FH, concept, rs, keep, id, compressed, now, files);
    if keep > 0 && rs[|rs| - keep].Kind() != Archive && read != [] {
      HotTailJoins(H, concept, rs, keep, a);
      StoredIsLinkedBack(H, concept, rs, keep);
      assert (kept + [a])[1] == rs[|rs| - keep];
      SameHashSameEnd(H, read, mid);
    }
  }

  lemma DeepRead(H: Hasher, FH: FileHasher, concept: string, rs: seq<Record>, keep: nat, id: string, compressed: bool, now: Time,
                 files: map<string, seq<Record>>) returns (read: seq<Record>)
    requires |rs| > keep + 1
    requires DeepOk(H, FH, files, Hot(rs, keep) + [Announcement(H, FH, concept, rs, keep, id, compressed, now)])
    ensures var path := ArchivePath(concept, compressed);
      path in files && FH(files[path]) == FH(StoredAll(Middle(rs, keep))) && read == ReadBackAll(H, files[path])
    ensures LinkedBack(H, read) && JoinOk(Hot(rs, keep) + [Announcement(H, FH, concept, rs, keep, id, compressed, now)], read)
  {
    AnnouncedFile(H, FH, concept, rs, keep, id, compressed, now, files);
    read := ReadBackAll(H, files[ArchivePath(concept, compressed)]);
  }
}
