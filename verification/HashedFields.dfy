/** What the hash of an event covers (adl_lite/models.py: `_round_floats`, `Event._compute_hash`), said of the
    fields of a record: which changes alter the hashed content and which do not. */
module HashedFields {
  import opened Basics
  import opened Events

  // ----- rounding -----

  /** `y` is a whole number of millionths, at most half a millionth from `x`; of two such the even one. */
  predicate Nearest(x: real, y: real) {
    var n := y * 1000000.0;
    var d := x * 1000000.0 - n;
    n.Floor as real == n && -0.5 <= d <= 0.5 && (d == 0.5 || d == -0.5 ==> n.Floor % 2 == 0)
  }

  /** `k` is `j` with each of its numbers rounded: same structure, same keys, same leaves otherwise. */
  ghost predicate RoundsTo(j: Json, k: Json) {
    match j
    case Num(x) => k.Num? && Nearest(x, k.n)
    case Arr(xs) => k.Arr? && |k.items| == |xs| && forall i :: 0 <= i < |xs| ==> RoundsTo(xs[i], k.items[i])
    case Obj(fs) => k.Obj? && k.fields.Keys == fs.Keys && forall key :: key in fs ==> RoundsTo(fs[key], k.fields[key])
    case _ => k == j
  }

  ghost predicate PayloadRoundsTo(p: Payload, q: Payload) {
    q.Keys == p.Keys && forall key :: key in p ==> RoundsTo(p[key], q[key])
  }

  lemma NearestIsRound6(x: real, y: real)
    ensures Nearest(x, y) <==> y == Round6(x)
  {
    var lo := (x * 1000000.0).Floor;
    var n := y * 1000000.0;
    assert y == n / 1000000.0;
    if Nearest(x, y) { assert n.Floor == lo || n.Floor == lo + 1; }
  }

  /** Rounding leaves structure, keys and all leaves that are no numbers alone and moves each number to the nearest millionth,
      ties to the even one; and it is the only thing that does. */
  lemma {:induction false} RoundingIff(j: Json, k: Json)
    ensures RoundsTo(j, k) <==> k == RoundFloats(j)
  {
    match j
    case Num(x) => if k.Num? { NearestIsRound6(x, k.n); }
    case Arr(xs) =>
      if k.Arr? && |k.items| == |xs| {
        forall i | 0 <= i < |xs| ensures RoundsTo(xs[i], k.items[i]) <==> k.items[i] == RoundFloats(xs[i]) {
          RoundingIff(xs[i], k.items[i]);
        }
      }
    case Obj(fs) =>
      if k.Obj? && k.fields.Keys == fs.Keys {
        forall key | key in fs ensures RoundsTo(fs[key], k.fields[key]) <==> k.fields[key] == RoundFloats(fs[key]) {
          RoundingIff(fs[key], k.fields[key]);
        }
      }
    case _ =>
  }

  lemma PayloadRoundingIff(p: Payload, q: Payload)
    ensures PayloadRoundsTo(p, q) <==> q == RoundPayload(p)
  {
    if q.Keys == p.Keys {
      forall key | key in p ensures RoundsTo(p[key], q[key]) <==> q[key] == RoundFloats(p[key]) {
        RoundingIff(p[key], q[key]);
      }
    }
  }

  // ----- the hashed fields -----

  /** The payloads agree but for what rounding removes. */
  ghost predicate SamePayload(p: Payload, q: Payload) { exists rounded :: PayloadRoundsTo(p, rounded) && PayloadRoundsTo(q, rounded) }

  /** The records agree in every field that the hash covers: all but reasoning, signature, proof and the hash itself. */
  ghost predicate SameHashed(r: Record, s: Record) {
    var b, c := r.fact.body, s.fact.body;
    && b.id == c.id && b.concept == c.concept && b.kind == c.kind && b.actor == c.actor && r.fact.ts == s.fact.ts
    && SamePayload(b.payload, c.payload) && r.prevId == s.prevId && r.prevHash == s.prevHash
  }

  lemma SamePayloadIff(p: Payload, q: Payload)
    ensures SamePayload(p, q) <==> RoundPayload(p) == RoundPayload(q)
  {
    forall rounded ensures PayloadRoundsTo(p, rounded) <==> rounded == RoundPayload(p) { PayloadRoundingIff(p, rounded); }
    forall rounded ensures PayloadRoundsTo(q, rounded) <==> rounded == RoundPayload(q) { PayloadRoundingIff(q, rounded); }
    assert PayloadRoundsTo(p, RoundPayload(p));
  }

  /** Two records have the same hashed content exactly when they agree in every hashed field. */
  lemma HashCoversIff(r: Record, s: Record)
    ensures ContentOf(r) == ContentOf(s) <==> SameHashed(r, s)
  {
    SamePayloadIff(r.fact.body.payload, s.fact.body.payload);
  }

  /** The same number of events, agreeing one by one in every hashed field. */
  ghost predicate SameHistory(a: seq<Record>, b: seq<Record>) {
    |a| == |b| && forall i :: 0 <= i < |a| ==> SameHashed(a[i], b[i])
  }

  // ----- tampering -----

  /** Records that agree in every hashed field have one hash; two that bear their own hash and bear the same one agree in every
      hashed field, or their different contents collide. */
  lemma SameHashMeans(H: Hasher, r: Record, s: Record)
    ensures SameHashed(r, s) ==> ComputeHash(H, r) == ComputeHash(H, s)
    ensures r.hash == ComputeHash(H, r) && s.hash == ComputeHash(H, s) && r.hash == s.hash ==>
              SameHashed(r, s) || Collision(H, ContentOf(r), ContentOf(s))
  {
    HashCoversIff(r, s);
  }

  /** The record bears the hash of its hashed fields: that of every record that agrees with it in them, and borne by no other
      record whose hash fits -- but for a collision. */
  ghost predicate BearsItsHash(H: Hasher, r: Record) {
    forall s: Record ::
      && (SameHashed(s, r) ==> ComputeHash(H, s) == r.hash)
      && (ComputeHash(H, s) == r.hash ==> SameHashed(s, r) || Collision(H, ContentOf(s), ContentOf(r)))
  }

  lemma HashIsBorne(H: Hasher, r: Record)
    requires r.hash == ComputeHash(H, r)
    ensures BearsItsHash(H, r)
  {
    forall s: Record
      ensures SameHashed(s, r) ==> ComputeHash(H, s) == r.hash
      ensures ComputeHash(H, s) == r.hash ==> SameHashed(s, r) || Collision(H, ContentOf(s), ContentOf(r))
    {
      HashCoversIff(s, r);
    }
  }

  /** Tampering shows: a verifying chain in which one record is replaced by another that bears the same hash and differs in any
      hashed field no longer verifies, or the two contents collide. */
  lemma TamperingShows(H: Hasher, concept: string, rs: seq<Record>, i: nat, r: Record)
    requires i < |rs| && WellFormed(H, concept, rs) && r.hash == rs[i].hash && !SameHashed(r, rs[i])
    ensures !WellFormed(H, concept, rs[i := r]) || Collision(H, ContentOf(r), ContentOf(rs[i]))
  {
    if WellFormed(H, concept, rs[i := r]) {
      assert rs[i := r][i].hash == ComputeHash(H, rs[i := r][i]);
      SameHashMeans(H, r, rs[i]);
    }
  }
}
