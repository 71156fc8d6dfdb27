/** The event chain (adl_lite/models.py): appending, the incremental caches and the incremental
    integrity check. `Event` and `EventChain` are objects that the source updates in place. */
module EventChains {
  import opened Basics
  import opened Events
  import opened DerivedState
  import opened HashedFields
  import opened Integrity

  datatype ChainError = ConceptMismatch | UnreadableConfidence

  class Event {
    var body: Body
    var timestamp: Time
    var previousEventId: Option<string>
    var prevHash: string
    var hash: string

    function View(): Record
      reads this
    {
      Record(Fact(body, timestamp), previousEventId, prevHash, hash)
    }

    /** A new event outside any chain is hashed with empty links. */
    constructor (H: Hasher, body: Body, ts: Time)
      ensures View() == Sealed(H, Fact(body, ts), None, "")
    {
      this.body := body;
      timestamp := ts;
      previousEventId := None;
      prevHash := "";
      hash := "";
      new;
      PostInit(H);
    }

    /** `model_copy`: a new object with the same fields. */
    constructor Copy(original: Event)
      ensures View() == original.View()
    {
      body := original.body;
      timestamp := original.timestamp;
      previousEventId := original.previousEventId;
      prevHash := original.prevHash;
      hash := original.hash;
    }

    /** An event read back from a store, link and hash as they were written. */
    constructor Restore(r: Record)
      ensures View() == r
    {
      body := r.fact.body;
      timestamp := r.fact.ts;
      previousEventId := r.prevId;
      prevHash := r.prevHash;
      hash := r.hash;
    }

    /** `model_post_init`: hash the content when there is no hash yet. */
    method PostInit(H: Hasher)
      modifies this`hash
      ensures hash == if old(hash) == "" then ComputeHash(H, old(View())) else old(hash)
      ensures old(hash) == "" ==> BearsItsHash(H, View())
    {
      if hash == "" {
        hash := ComputeHash(H, View());
        HashIsBorne(H, View());
      }
    }
  }

  /** The present values of some event objects. */
  function Views(es: seq<Event>): (rs: seq<Record>)
    reads es
  {
    seq(|es|, i requires 0 <= i < |es| reads es => es[i].View())
  }

  class EventChain {
    const H: Hasher
    const conceptId: string
    var events: seq<Event>
    var cachedStatus: DiscoveryStatus
    var cachedStatusOrder: nat
    var cachedConfidence: real
    var verifiedIndex: int
    var verifiedHash: string
    var verifiedSeen: set<string>
    var verifiedIds: seq<string>
    var verifiedLast: Option<Time>

    constructor (H: Hasher, conceptId: string)
      ensures this.H == H && this.conceptId == conceptId
      ensures events == [] && CachesExact() && verifiedIds == [] && VerifierInv()
    {
      this.H := H;
      this.conceptId := conceptId;
      events := [];
      cachedStatus := Provisional;
      cachedStatusOrder := 0;
      cachedConfidence := 0.0;
      verifiedIndex := -1;
      verifiedHash := "";
      verifiedSeen := {};
      verifiedIds := [];
      verifiedLast := None;
    }

    function Records(): (rs: seq<Record>)
      reads `events, events
    {
      Views(events)
    }

    // ----- caches -----

    ghost predicate CacheShape()
      reads `cachedStatus, `cachedStatusOrder, `cachedConfidence
    {
      cachedStatusOrder <= 5 && cachedStatus == StatusAt(cachedStatusOrder) && 0.0 <= cachedConfidence <= 1.0
    }

    /** Both caches hold what a recomputation over the whole list would give. */
    ghost predicate CachesExact()
      reads `cachedStatus, `cachedStatusOrder, `cachedConfidence, `events, events
    {
      CacheShape() && cachedStatusOrder == MaxOrder(Records()) && cachedConfidence == MaxConfidence(Records())
    }

    /** Folds one event into the caches; raises after the status step when the confidence is unreadable. */
    method UpdateCrdtCaches(event: Event) returns (r: Result<(), ChainError>)
      requires CacheShape()
      modifies `cachedStatus, `cachedStatusOrder, `cachedConfidence
      ensures CacheShape()
      ensures cachedStatusOrder == Max(old(cachedStatusOrder), Order(event.body.kind))
      ensures cachedConfidence == MaxReal(old(cachedConfidence), Claim(event.body))
      ensures r == if Readable(event.body) then Ok(()) else Err(UnreadableConfidence)
    {
      var order := Order(event.body.kind);
      if order > cachedStatusOrder {
        cachedStatusOrder := order;
        cachedStatus := StatusAt(order);
      }
      if ClaimsConfidence(event.body.kind) {
        var raw := RawConfidence(event.body.payload);
        if raw.None? {
          return Err(UnreadableConfidence);
        }
        var val := Clamp(raw.value);
        if val > cachedConfidence {
          cachedConfidence := val;
        }
      }
      r := Ok(());
    }

    method InvalidateCaches()
      modifies `cachedStatus, `cachedStatusOrder, `cachedConfidence, `verifiedIndex, `verifiedHash, `verifiedSeen, `verifiedIds, `verifiedLast
      ensures CacheShape() && cachedStatusOrder == 0 && cachedConfidence == 0.0
      ensures verifiedIds == [] && VerifierInv()
    {
      cachedStatus := Provisional;
      cachedStatusOrder := 0;
      cachedConfidence := 0.0;
      ResetVerifier();
    }

    /** Stops at the first unreadable confidence, as the exception does. */
    method RebuildCrdtCaches() returns (r: Result<(), ChainError>)
      modifies `cachedStatus, `cachedStatusOrder, `cachedConfidence
      ensures CacheShape()
      ensures r.Ok? <==> AllReadable(Records())
      ensures r.Ok? ==> CachesExact()
    {
      cachedStatus := Provisional;
      cachedStatusOrder := 0;
      cachedConfidence := 0.0;
      ghost var rs := Records();
      for i := 0 to |events|
        invariant CacheShape() && Records() == rs
        invariant AllReadable(rs[..i])
        invariant cachedStatusOrder == MaxOrder(rs[..i])
        invariant cachedConfidence == MaxConfidence(rs[..i])
      {
        StateSnoc(rs, i);
        r := UpdateCrdtCaches(events[i]);
        if r.Err? {
          assert !Readable(rs[i].fact.body);
          return;
        }
      }
      assert rs[..|events|] == rs;
      r := Ok(());
    }

    /** The status property. */
    method Status() returns (s: DiscoveryStatus)
      requires CacheShape()
      ensures s == StatusRead(Records(), cachedStatusOrder)
      ensures CachesExact() ==> s == StatusAt(MaxOrder(Records())) && CalledFor(Records(), s)
    {
      StatusByKinds(Records(), StatusAt(MaxOrder(Records())));
      if events != [] && cachedStatusOrder == 0 {
        s := ComputeStatusFromEvents();
      } else {
        s := cachedStatus;
      }
    }

    method ComputeStatusFromEvents() returns (s: DiscoveryStatus)
      ensures s == StatusAt(MaxOrder(Records())) && CalledFor(Records(), s)
    {
      var maxOrder: nat := 0;
      for i := 0 to |events|
        invariant maxOrder == MaxOrder(Records()[..i])
      {
        assert Records()[..i + 1][..i] == Records()[..i];
        var order := Order(events[i].body.kind);
        if order > maxOrder {
          maxOrder := order;
        }
      }
      assert Records()[..|events|] == Records();
      s := StatusAt(maxOrder);
      StatusByKinds(Records(), s);
    }

    /** The confidence property; None where it raises. */
    method Confidence() returns (c: Option<real>)
      requires CacheShape()
      ensures c == ConfidenceRead(Records(), cachedConfidence)
      ensures CachesExact() && AllReadable(Records()) ==> c == Some(MaxConfidence(Records())) && Reported(Records(), c.value)
    {
      ConfidenceByEvents(Records(), MaxConfidence(Records()));
      if events != [] && cachedConfidence == 0.0 {
        c := ComputeConfidenceFromEvents();
      } else {
        c := Some(cachedConfidence);
      }
    }

    method ComputeConfidenceFromEvents() returns (c: Option<real>)
      ensures c == if AllReadable(Records()) then Some(MaxConfidence(Records())) else None
      ensures c.Some? ==> Reported(Records(), c.value)
    {
      var maxConf := 0.0;
      ghost var rs := Records();
      for i := 0 to |events|
        invariant AllReadable(rs[..i]) && maxConf == MaxConfidence(rs[..i])
      {
        StateSnoc(rs, i);
        var body := events[i].body;
        assert rs[i].fact.body == body;
        if ClaimsConfidence(body.kind) {
          var raw := RawConfidence(body.payload);
          if raw.None? {
            assert !Readable(rs[i].fact.body);
            return None;
          }
          var val := Clamp(raw.value);
          if val > maxConf {
            maxConf := val;
          }
        }
      }
      assert rs[..|events|] == rs;
      ConfidenceByEvents(rs, maxConf);
      c := Some(maxConf);
    }

    // ----- append -----

    /** Links the event behind the tail, lifts its timestamp to the tail's, rehashes it, and updates
        the caches. The event object itself is rewritten, also when it already sits in some chain. */
    method Append(event: Event) returns (r: Result<(), ChainError>)
      requires CacheShape()
      modifies `events, `cachedStatus, `cachedStatusOrder, `cachedConfidence
      modifies event`timestamp, event`previousEventId, event`prevHash, event`hash
      ensures CacheShape()
      ensures event.body.concept != conceptId ==> r == Err(ConceptMismatch) && unchanged(this) && unchanged(event)
      ensures event.body.concept == conceptId ==>
                && r == (if Readable(event.body) then Ok(()) else Err(UnreadableConfidence))
                && events == old(events) + [event]
                && event.View() == Link(H, old(Records()), old(event.View().fact))
                && (event !in old(events) ==> Records() == old(Records()) + [event.View()])
                && cachedStatusOrder == Max(old(cachedStatusOrder), Order(event.body.kind))
                && cachedConfidence == MaxReal(old(cachedConfidence), Claim(event.body))
      ensures old(CachesExact()) ==> CachesExact()
    {
      if event.body.concept != conceptId {
        return Err(ConceptMismatch);
      }
      ghost var before := Records();
      Relink(event);
      events := events + [event];
      r := UpdateCrdtCaches(event);
      AppendKeepsState(before, Records());
    }

    /** Points the event at the present tail and rehashes it. */
    method Relink(event: Event)
      modifies event`timestamp, event`previousEventId, event`prevHash, event`hash
      ensures event.View() == Link(H, old(Records()), old(event.View().fact))
    {
      if events != [] {
        var prevEvent := events[|events| - 1];
        event.previousEventId := Some(prevEvent.body.id);
        event.prevHash := prevEvent.hash;
        if event.timestamp < prevEvent.timestamp {
          event.timestamp := prevEvent.timestamp;
        }
        event.hash := "";
        event.PostInit(H);
      } else {
        event.previousEventId := None;
        event.prevHash := "";
        event.hash := "";
        event.PostInit(H);
      }
    }

    // ----- integrity -----

    /** The bookkeeping of the verifier: the set holds the recorded ids. */
    ghost predicate VerifierInv()
      reads `verifiedSeen, `verifiedIds, `verifiedLast
    {
      && verifiedSeen == (set x | x in verifiedIds)
      && (verifiedIds == [] ==> verifiedLast == None)
    }

    method ResetVerifier()
      modifies `verifiedIndex, `verifiedHash, `verifiedSeen, `verifiedIds, `verifiedLast
      ensures verifiedIds == [] && VerifierInv()
    {
      verifiedIndex := -1;
      verifiedHash := "";
      verifiedSeen := {};
      verifiedIds := [];
      verifiedLast := None;
    }

    /** Position from which the next check scans; clears the cache unless events were only appended. */
    method ScanStart() returns (start: nat)
      requires VerifierInv()
      modifies `verifiedIndex, `verifiedHash, `verifiedSeen, `verifiedIds, `verifiedLast
      ensures VerifierInv()
      ensures start == Start(Records(), old(verifiedIds))
      ensures verifiedIds == Ids(Records())[..start]
    {
      var n := |events|;
      var prefixLen := if |verifiedIds| < n then |verifiedIds| else n;
      var prefixMatch := true;
      var i := 0;
      while i < prefixLen
        invariant 0 <= i <= prefixLen
        invariant prefixMatch
        invariant forall k :: 0 <= k < i ==> verifiedIds[k] == Ids(Records())[k]
      {
        if verifiedIds[i] != events[i].body.id {
          prefixMatch := false;
          break;
        }
        i := i + 1;
      }
      assert prefixMatch && |verifiedIds| < n ==> verifiedIds == Ids(Records())[..|verifiedIds|];
      assert !prefixMatch && |verifiedIds| < n ==> verifiedIds[i] != Ids(Records())[..|verifiedIds|][i];
      if !prefixMatch || |verifiedIds| >= n {
        ResetVerifier();
        start := 0;
      } else {
        start := |verifiedIds|;
      }
    }

    /** Axioms 1 to 5 of the event at `i`. */
    method CheckHead(i: nat) returns (ok: bool)
      requires i < |events| && VerifierInv() && verifiedIds == Ids(Records())[..i]
      ensures ok == HeadOk(H, conceptId, Records(), i)
      ensures ok ==> BearsItsHash(H, Records()[i])
    {
      var event := events[i];
      ghost var rs := Records();
      assert event.View() == rs[i];
      FreshIsUnseen(rs, i);
      var hasArchive := exists k :: 0 <= k < |events| && events[k].body.kind == Archive;
      assert hasArchive == HasArchive(rs) by {
        if hasArchive {
          var k :| 0 <= k < |events| && events[k].body.kind == Archive;
          assert rs[k].Kind() == Archive;
        }
        if HasArchive(rs) {
          var k :| 0 <= k < |rs| && rs[k].Kind() == Archive;
          assert events[k].body.kind == Archive;
        }
      }
      if i == 0 {
        if event.previousEventId != None {
          if !hasArchive {
            return false;
          }
        }
      } else {
        var prevEvent := events[i - 1];
        assert prevEvent.View() == rs[i - 1];
        if event.previousEventId == Some(prevEvent.body.id) {
          if event.prevHash != prevEvent.hash {
            return false;
          }
        } else {
          if i != 1 || !hasArchive {
            return false;
          }
        }
      }
      assert LinkOk(rs, i);
      if event.body.concept != conceptId {
        return false;
      }
      if event.hash != ComputeHash(H, event.View()) {
        return false;
      }
      if event.body.id in verifiedSeen {
        return false;
      }
      HashIsBorne(H, event.View());
      ok := true;
    }

    /** Axioms 6 to 15 of the event at `i`, `lastDt` being the timestamp before it. */
    method CheckTail(i: nat, lastDt: Option<Time>) returns (ok: bool)
      requires i < |events|
      requires lastDt == if i == 0 then None else Some(Records()[i - 1].Ts())
      ensures ok == TailOk(Records(), i)
    {
      var event := events[i];
      assert event.View() == Records()[i];
      if Blank(event.body.actor) {
        return false;
      }
      if lastDt.Some? && event.timestamp < lastDt.value {
        return false;
      }
      if IsAction(event.body.kind) && !Truthy(Get(event.body.payload, "action")) {
        return false;
      }
      if event.hash != "" && |event.hash| != 64 {
        return false;
      }
      if i > 0 && !Named(event.previousEventId) {
        return false;
      }
      if event.hash == "" {
        return false;
      }
      if !AllFilled(event.body.payload, RequiredFields(event.body.kind)) {
        return false;
      }
      if NeedsProof(event.body.kind) && !ProofPresent(event.body.proof) {
        return false;
      }
      if event.body.kind == Attest && !VerdictConsistent(event.body.payload) {
        return false;
      }
      if event.body.kind == Challenge && !ChallengeWellFormed(event.body.payload) {
        return false;
      }
      ok := true;
    }

    method RecordId(i: nat)
      requires i < |events| && VerifierInv() && verifiedIds == Ids(Records())[..i]
      modifies `verifiedSeen, `verifiedIds
      ensures VerifierInv() && verifiedIds == Ids(Records())[..i + 1]
    {
      assert Ids(Records())[..i + 1] == Ids(Records())[..i] + [events[i].body.id];
      verifiedSeen := verifiedSeen + {events[i].body.id};
      verifiedIds := verifiedIds + [events[i].body.id];
    }

    /** The ids recorded so far are the first `n` of the list `rs`. */
    ghost predicate Recorded(rs: seq<Record>, n: nat)
      requires n <= |rs|
      reads `events, events, `verifiedSeen, `verifiedIds, `verifiedLast
    {
      Records() == rs && VerifierInv() && verifiedIds == Ids(rs)[..n]
    }

    /** Checks one event; its id is recorded between the two groups of checks. */
    method CheckEvent(i: nat, lastDt: Option<Time>, ghost rs: seq<Record>, ghost c: Checks) returns (ok: bool)
      requires i < |rs| && Recorded(rs, i) && c == ChecksOf(H, conceptId, rs)
      requires lastDt == if i == 0 then None else Some(rs[i - 1].Ts())
      modifies `verifiedSeen, `verifiedIds
      ensures ok == (c.head(i) && c.tail(i))
      ensures Recorded(rs, if c.head(i) then i + 1 else i)
    {
      ok := CheckHead(i);
      if ok {
        RecordId(i);
        ok := CheckTail(i, lastDt);
      }
    }

    /** Checks the events from `start` on, stopping at the first bad one. */
    method ScanSuffix(start: nat, ghost rs: seq<Record>, ghost c: Checks) returns (ok: bool, lastDt: Option<Time>)
      requires start <= |rs| && Recorded(rs, start) && c == ChecksOf(H, conceptId, rs)
      modifies `verifiedSeen, `verifiedIds
      ensures VerifierInv() && (ok, verifiedIds) == VerifyFrom(c, rs, start)
      ensures ok && verifiedIds == [] ==> lastDt == None
    {
      lastDt := verifiedLast;
      if start > 0 {
        lastDt := Some(events[start - 1].timestamp);
      }
      var i := start;
      while i < |events|
        invariant start <= i <= |rs| && Recorded(rs, i)
        invariant Scan(c, |rs|, start) == Scan(c, |rs|, i)
        invariant lastDt == if i == 0 then None else Some(rs[i - 1].Ts())
      {
        ScanStep(c, |rs|, i);
        ok := CheckEvent(i, lastDt, rs, c);
        if !ok {
          return;
        }
        lastDt := Some(events[i].timestamp);
        i := i + 1;
      }
      ok := true;
    }

    method RememberTail(lastDt: Option<Time>)
      requires VerifierInv() && (verifiedIds == [] ==> lastDt == None)
      modifies `verifiedIndex, `verifiedHash, `verifiedLast
      ensures VerifierInv()
      ensures verifiedIndex == |events| - 1 && (events != [] ==> verifiedHash == events[|events| - 1].hash)
    {
      verifiedIndex := |events| - 1;
      if events != [] {
        verifiedHash := events[|events| - 1].hash;
      }
      verifiedLast := lastDt;
    }

    /** The incremental check. Its verdict and the ids it records are exactly those of `Verify`. */
    method VerifyPrefix() returns (ok: bool)
      requires VerifierInv()
      modifies `verifiedIndex, `verifiedHash, `verifiedSeen, `verifiedIds, `verifiedLast
      ensures VerifierInv()
      ensures (ok, verifiedIds) == Verify(H, conceptId, Records(), old(verifiedIds))
      ensures ok ==> verifiedIndex == |events| - 1 && (events != [] ==> verifiedHash == events[|events| - 1].hash)
    {
      ghost var rs, known := Records(), verifiedIds;
      ghost var c := ChecksOf(H, conceptId, rs);
      var start := ScanStart();
      var lastDt;
      ok, lastDt := ScanSuffix(start, rs, c);
      VerifyIsScan(H, conceptId, rs, known);
      if ok {
        RememberTail(lastDt);
      }
    }
  }

  function EventsOf(chains: seq<EventChain>): (es: set<Event>)
    reads chains
    ensures forall c, e :: c in chains && e in c.events ==> e in es
  {
    set c, e | c in chains && e in c.events :: e
  }

  ghost predicate DistinctObjects(es: seq<Event>) {
    forall i, j :: 0 <= i < j < |es| ==> es[i] != es[j]
  }

  /** The first `i` of the objects `es`, which held `vs`, stand appended behind `base`; the others wait. */
  ghost predicate Appended(chain: EventChain, es: seq<Event>, i: nat, before: seq<Event>, base: seq<Record>, vs: seq<Record>)
    reads chain`events, chain.events, es
    requires i <= |es| == |vs|
  {
    && chain.events == before + es[..i]
    && chain.Records() == AppendAll(chain.H, base, Facts(vs)[..i])
    && (forall k :: i <= k < |es| ==> es[k].View() == vs[k])
  }

  /** The caches after the events `vs` were folded into caches holding `order` and `confidence`. */
  ghost predicate CachesSince(chain: EventChain, order: nat, confidence: real, vs: seq<Record>)
    reads chain`cachedStatus, chain`cachedStatusOrder, chain`cachedConfidence
  {
    && chain.CacheShape() && chain.cachedStatusOrder == Max(order, MaxOrder(vs))
    && chain.cachedConfidence == MaxReal(confidence, MaxConfidence(vs))
  }

  lemma AppendedSnoc(H: Hasher, base: seq<Record>, vs: seq<Record>, i: nat)
    requires i < |vs|
    ensures |Facts(vs)| == |vs| && Facts(vs)[i] == vs[i].fact
    ensures AppendAll(H, base, Facts(vs)[..i + 1]) ==
            AppendAll(H, base, Facts(vs)[..i]) + [Link(H, AppendAll(H, base, Facts(vs)[..i]), vs[i].fact)]
  {
    TakeSnoc(Facts(vs), i);
  }

  lemma NotAppendedYet(es: seq<Event>, i: nat, before: seq<Event>)
    requires i < |es| && DistinctObjects(es) && forall e :: e in es ==> e !in before
    ensures es[i] !in before + es[..i] && before + es[..i] + [es[i]] == before + es[..i + 1]
  {
    assert forall k :: 0 <= k < i ==> es[k] != es[i];
    TakeSnoc(es, i);
  }

  /** The objects still have the bodies they had when they held `vs`. */
  ghost predicate BodiesKept(es: seq<Event>, vs: seq<Record>)
    reads es
  {
    |es| == |vs| && forall k :: 0 <= k < |es| ==> es[k].body == vs[k].fact.body
  }

  method AppendNext(chain: EventChain, es: seq<Event>, i: nat, ghost before: seq<Event>, ghost base: seq<Record>, ghost vs: seq<Record>)
    returns (r: Result<(), ChainError>)
    requires i < |es| == |vs| && chain.CacheShape() && DistinctObjects(es) && forall e :: e in es ==> e !in before
    requires Appended(chain, es, i, before, base, vs) && BodiesKept(es, vs)
    modifies chain`events, chain`cachedStatus, chain`cachedStatusOrder, chain`cachedConfidence, es[i]
    ensures chain.CacheShape() && (old(chain.CachesExact()) ==> chain.CachesExact())
    ensures BodiesKept(es, vs)
    ensures r.Ok? <==> vs[i].fact.body.concept == chain.conceptId && Readable(vs[i].fact.body)
    ensures r.Ok? ==> Appended(chain, es, i + 1, before, base, vs)
    ensures r.Ok? ==> chain.cachedStatusOrder == Max(old(chain.cachedStatusOrder), Order(vs[i].Kind()))
    ensures r.Ok? ==> chain.cachedConfidence == MaxReal(old(chain.cachedConfidence), Claim(vs[i].fact.body))
  {
    var e := es[i];
    assert e.View() == vs[i];
    NotAppendedYet(es, i, before);
    AppendedSnoc(chain.H, base, vs, i);
    r := chain.Append(e);
  }

  /** `for e in es: chain.append(e)`, stopping at the first exception. The objects are rewritten in place. */
  method AppendEvents(chain: EventChain, es: seq<Event>) returns (r: Result<(), ChainError>)
    requires chain.CacheShape()
    requires DistinctObjects(es) && forall e :: e in es ==> e !in chain.events
    modifies chain`events, chain`cachedStatus, chain`cachedStatusOrder, chain`cachedConfidence, es
    ensures BodiesKept(es, old(Views(es)))
    ensures chain.CacheShape() && (old(chain.CachesExact()) ==> chain.CachesExact())
    ensures r.Ok? <==> Appendable(chain.conceptId, old(Views(es)))
    ensures r.Ok? ==> chain.events == old(chain.events) + es
    ensures r.Ok? ==> chain.Records() == AppendAll(chain.H, old(chain.Records()), Facts(old(Views(es))))
    ensures r.Ok? ==> CachesSince(chain, old(chain.cachedStatusOrder), old(chain.cachedConfidence), old(Views(es)))
  {
    ghost var before := chain.events;
    ghost var base := chain.Records();
    ghost var vs := Views(es);
    ghost var order, confidence, exact := chain.cachedStatusOrder, chain.cachedConfidence, chain.CachesExact();
    for i := 0 to |es|
      invariant exact ==> chain.CachesExact()
      invariant CachesSince(chain, order, confidence, vs[..i]) && Appended(chain, es, i, before, base, vs)
      invariant Appendable(chain.conceptId, vs[..i]) && BodiesKept(es, vs)
    {
      AppendableSnoc(chain.conceptId, vs, i);
      StateSnoc(vs, i);
      r := AppendNext(chain, es, i, before, base, vs);
      if r.Err? {
        return;
      }
    }
    assert es[..|es|] == es && Facts(vs)[..|es|] == Facts(vs) && vs[..|es|] == vs;
    r := Ok(());
  }

  /** A chain just built by appending: it holds the records `rs`, its caches are exact, nothing has been verified yet. */
  ghost predicate JustBuilt(c: EventChain, H: Hasher, concept: string, rs: seq<Record>)
    reads c, c.events
  {
    && c.H == H && c.conceptId == concept && c.Records() == rs
    && c.CachesExact() && c.verifiedIds == [] && c.VerifierInv()
  }

  /** A new chain over the given objects, which it relinks. */
  method Reanchor(H: Hasher, concept: string, es: seq<Event>) returns (r: Result<EventChain, ChainError>)
    requires DistinctObjects(es)
    modifies es
    ensures forall e :: e in es ==> e.body == old(e.body)
    ensures r.Ok? <==> Appendable(concept, old(Views(es)))
    ensures r.Ok? ==> fresh(r.value) && r.value.events == es && JustBuilt(r.value, H, concept, AppendAll(H, [], Facts(old(Views(es)))))
  {
    var chain := new EventChain(H, concept);
    var appended := AppendEvents(chain, es);
    match appended
    case Err(e) => r := Err(e);
    case Ok(_) => r := Ok(chain);
  }

  /** `append` raises on none of these. */
  ghost predicate Appendable(concept: string, rs: seq<Record>) {
    forall i :: 0 <= i < |rs| ==> rs[i].fact.body.concept == concept && Readable(rs[i].fact.body)
  }

  lemma AppendableSnoc(concept: string, rs: seq<Record>, i: nat)
    requires i < |rs|
    ensures Appendable(concept, rs[..i + 1]) <==>
              Appendable(concept, rs[..i]) && rs[i].fact.body.concept == concept && Readable(rs[i].fact.body)
    ensures Appendable(concept, rs) ==> Appendable(concept, rs[..i + 1])
  {
    assert rs[..i + 1] == rs[..i] + [rs[i]];
  }

  lemma AppendKeepsState(before: seq<Record>, after: seq<Record>)
    requires |after| == |before| + 1
    requires forall i :: 0 <= i < |before| ==> after[i].fact.body == before[i].fact.body
    ensures MaxOrder(after) == Max(MaxOrder(before), Order(after[|before|].Kind()))
    ensures MaxConfidence(after) == MaxReal(MaxConfidence(before), Claim(after[|before|].fact.body))
  {
    SameBodiesSameState(before, after[..|before|]);
  }

  /** Status and confidence depend on the bodies alone. */
  lemma {:induction false} SameBodiesSameState(xs: seq<Record>, ys: seq<Record>)
    requires |xs| == |ys| && forall i :: 0 <= i < |xs| ==> xs[i].fact.body == ys[i].fact.body
    ensures MaxOrder(xs) == MaxOrder(ys) && MaxConfidence(xs) == MaxConfidence(ys)
  {
    if xs == [] {
    } else {
      SameBodiesSameState(xs[..|xs| - 1], ys[..|ys| - 1]);
    }
  }
}
