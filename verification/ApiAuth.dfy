/** The sliding-window rate limiter (adl_lite/api_auth.py). Times are real seconds; each call reads the clock twice. */
module RateLimits {
  import opened Basics

  type Seconds = real

  predicate Sorted(log: seq<Seconds>) { forall i, j :: 0 <= i < j < |log| ==> log[i] <= log[j] }

  /** `[t for t in ts if t > cutoff]`. */
  function Recent(ts: seq<Seconds>, cutoff: Seconds): seq<Seconds> {
    if ts == [] then [] else if ts[0] > cutoff then [ts[0]] + Recent(ts[1..], cutoff) else Recent(ts[1..], cutoff)
  }

  /** How many of the times are in (lo, hi]. */
  function Within(log: seq<Seconds>, lo: Seconds, hi: Seconds): nat {
    if log == [] then 0 else (if lo < log[0] <= hi then 1 else 0) + Within(log[1..], lo, hi)
  }

  function InWindow(log: seq<Seconds>, s: Seconds, w: Seconds): nat { Within(log, s, s + w) }

  /** How many of the times are at most `x`; in a sorted log these come first. */
  function UpTo(log: seq<Seconds>, x: Seconds): (k: nat)
    requires Sorted(log)
    ensures k <= |log|
    ensures forall i :: 0 <= i < k ==> log[i] <= x
    ensures forall i :: k <= i < |log| ==> log[i] > x
  {
    if log == [] || log[0] > x then 0 else 1 + UpTo(log[1..], x)
  }

  lemma {:induction false} NothingWithin(log: seq<Seconds>, lo: Seconds, hi: Seconds)
    requires hi < lo
    ensures Within(log, lo, hi) == 0
  {
    if log != [] { NothingWithin(log[1..], lo, hi); }
  }

  lemma {:induction false} WithinSorted(log: seq<Seconds>, lo: Seconds, hi: Seconds)
    requires Sorted(log) && lo <= hi
    ensures UpTo(log, lo) <= UpTo(log, hi) && Within(log, lo, hi) == UpTo(log, hi) - UpTo(log, lo)
  {
    if log != [] { WithinSorted(log[1..], lo, hi); }
  }

  lemma {:induction false} RecentSorted(ts: seq<Seconds>, cutoff: Seconds)
    requires Sorted(ts)
    ensures Recent(ts, cutoff) == ts[UpTo(ts, cutoff)..]
  {
    if ts != [] {
      if ts[0] > cutoff { AllRecent(ts, cutoff); } else { RecentSorted(ts[1..], cutoff); }
    }
  }

  lemma {:induction false} AllRecent(ts: seq<Seconds>, cutoff: Seconds)
    requires forall i :: 0 <= i < |ts| ==> ts[i] > cutoff
    ensures Recent(ts, cutoff) == ts
  {
    if ts != [] { AllRecent(ts[1..], cutoff); }
  }

  // ----- the bound on every window -----

  /** A request is at least `w` later than the one `max` places before it. */
  predicate Spaced(log: seq<Seconds>, max: nat, w: Seconds) {
    forall i :: 0 <= i < |log| - max ==> SpacedAt(log, i, max, w)
  }

  predicate SpacedAt(log: seq<Seconds>, i: nat, max: nat, w: Seconds)
    requires i + max < |log|
  {
    log[i + max] >= log[i] + w
  }

  ghost predicate Bounded(log: seq<Seconds>, max: nat, w: Seconds) { forall s :: InWindow(log, s, w) <= max }

  /** At most `max` requests in every window (s, s + w], wherever it starts, exactly when the log is spaced. */
  lemma BoundedIffSpaced(log: seq<Seconds>, max: nat, w: Seconds)
    requires Sorted(log)
    ensures Bounded(log, max, w) <==> Spaced(log, max, w)
  {
    if Spaced(log, max, w) {
      forall s ensures InWindow(log, s, w) <= max { SpacedWindow(log, max, w, s); }
    }
    if Bounded(log, max, w) {
      forall i: nat | i < |log| - max ensures SpacedAt(log, i, max, w) {
        if !SpacedAt(log, i, max, w) {
          assert InWindow(log, log[i + max] - w, w) <= max;
          CrowdedWindow(log, max, w, i);
        }
      }
    }
  }

  lemma SpacedWindow(log: seq<Seconds>, max: nat, w: Seconds, s: Seconds)
    requires Sorted(log) && Spaced(log, max, w)
    ensures Within(log, s, s + w) <= max
  {
    if w < 0.0 {
      NothingWithin(log, s, s + w);
      return;
    }
    WithinSorted(log, s, s + w);
    var a, b := UpTo(log, s), UpTo(log, s + w);
    if a + max < |log| {
      assert SpacedAt(log, a, max, w);
      assert log[a + max] > s + w;
    }
  }

  lemma CrowdedWindow(log: seq<Seconds>, max: nat, w: Seconds, i: nat)
    requires Sorted(log) && i + max < |log| && !SpacedAt(log, i, max, w)
    ensures InWindow(log, log[i + max] - w, w) > max
  {
    var s := log[i + max] - w;
    assert w >= 0.0;
    WithinSorted(log, s, s + w);
    assert UpTo(log, s) <= i;
    assert UpTo(log, s + w) > i + max;
  }

  // ----- what the limiter remembers -----

  /** A client's admissions: those that have left the window and been dropped, and those still kept. */
  datatype Track = Track(gone: seq<Seconds>, kept: seq<Seconds>) {
    function Log(): seq<Seconds> { gone + kept }
  }

  predicate NotAfter(log: seq<Seconds>, t: Seconds) { forall i :: 0 <= i < |log| ==> log[i] <= t }

  predicate Remembers(k: Track, clock: Seconds, w: Seconds) {
    Sorted(k.Log()) && NotAfter(k.Log(), clock) && NotAfter(k.gone, clock - w)
  }

  /** `_clean_window` on one list. */
  function Clean(k: Track, cutoff: Seconds): Track
    requires Sorted(k.kept)
  {
    Track(k.gone + k.kept[..UpTo(k.kept, cutoff)], k.kept[UpTo(k.kept, cutoff)..])
  }

  lemma KeptIsSorted(k: Track)
    requires Sorted(k.Log())
    ensures Sorted(k.kept)
  {
    assert forall i :: 0 <= i < |k.kept| ==> k.kept[i] == k.Log()[|k.gone| + i];
  }

  /** Cleaning drops the list's old times and leaves exactly the requests of the window that ends now. */
  lemma Cleaned(k: Track, clock: Seconds, now: Seconds, w: Seconds)
    requires Remembers(k, clock, w) && clock <= now
    ensures Sorted(k.kept) && Remembers(Clean(k, now - w), now, w)
    ensures Clean(k, now - w).Log() == k.Log()
    ensures Clean(k, now - w).kept == Recent(k.kept, now - w)
    ensures |Recent(k.kept, now - w)| == Within(k.Log(), now - w, now)
  {
    KeptIsSorted(k);
    RecentSorted(k.kept, now - w);
    CleanKeepsLog(k, now - w);
    CountAfterCutoff(k, clock, now, w);
  }

  lemma CleanKeepsLog(k: Track, cutoff: Seconds)
    requires Sorted(k.kept)
    ensures Clean(k, cutoff).Log() == k.Log()
    ensures NotAfter(k.gone, cutoff) ==> NotAfter(Clean(k, cutoff).gone, cutoff)
  {
  }

  lemma CountAfterCutoff(k: Track, clock: Seconds, now: Seconds, w: Seconds)
    requires Remembers(k, clock, w) && clock <= now && Sorted(k.kept)
    ensures |k.kept| - UpTo(k.kept, now - w) == Within(k.Log(), now - w, now)
  {
    var log, cutoff := k.Log(), now - w;
    UpToIs(log, cutoff, |k.gone| + UpTo(k.kept, cutoff));
    if w < 0.0 {
      NothingWithin(log, cutoff, now);
      UpToIs(log, cutoff, |log|);
    } else {
      WithinSorted(log, cutoff, now);
      UpToIs(log, now, |log|);
    }
  }

  lemma UpToIs(log: seq<Seconds>, x: Seconds, k: nat)
    requires Sorted(log) && k <= |log|
    requires forall i :: 0 <= i < k ==> log[i] <= x
    requires forall i :: k <= i < |log| ==> log[i] > x
    ensures UpTo(log, x) == k
  {
    var u := UpTo(log, x);
    assert u < |log| ==> log[u] > x;
    assert k < |log| ==> log[k] > x;
  }

  lemma Admitted(k: Track, clock: Seconds, now: Seconds, w: Seconds, max: nat)
    requires Remembers(k, clock, w) && clock <= now
    requires Spaced(k.Log(), max, w) && |k.kept| < max
    ensures k.(kept := k.kept + [now]).Log() == k.Log() + [now]
    ensures Remembers(k.(kept := k.kept + [now]), now, w)
    ensures Spaced(k.Log() + [now], max, w)
  {
    var log, more := k.Log(), k.Log() + [now];
    assert k.(kept := k.kept + [now]).Log() == more;
    forall i: nat | i < |more| - max ensures SpacedAt(more, i, max, w) {
      if i + max < |log| { assert SpacedAt(log, i, max, w); } else { assert log[i] == k.gone[i]; }
    }
  }

  // ----- every run -----

  /** The two clock readings of one check. */
  datatype Visit = Visit(cleaned: Seconds, stamped: Seconds)

  predicate InOrder(vs: seq<Visit>) {
    && (forall i :: 0 <= i < |vs| ==> vs[i].cleaned <= vs[i].stamped)
    && forall i, j :: 0 <= i < j < |vs| ==> vs[i].stamped <= vs[j].cleaned
  }

  predicate Admits(log: seq<Seconds>, now: Seconds, max: nat, w: Seconds) { Within(log, now - w, now) < max }

  /** The times at which one client's checks were admitted. */
  function Served(vs: seq<Visit>, max: nat, w: Seconds): seq<Seconds> {
    if vs == [] then []
    else
      var log, v := Served(vs[..|vs| - 1], max, w), vs[|vs| - 1];
      if Admits(log, v.cleaned, max, w) then log + [v.stamped] else log
  }

  lemma {:induction false} ServedIsSpaced(vs: seq<Visit>, max: nat, w: Seconds)
    requires InOrder(vs)
    ensures Sorted(Served(vs, max, w)) && Spaced(Served(vs, max, w), max, w)
    ensures vs != [] ==> NotAfter(Served(vs, max, w), vs[|vs| - 1].stamped)
  {
    if vs != [] {
      var front, v := vs[..|vs| - 1], vs[|vs| - 1];
      ServedIsSpaced(front, max, w);
      var log := Served(front, max, w);
      assert NotAfter(log, v.cleaned);
      if Admits(log, v.cleaned, max, w) { OneMoreServed(log, v.cleaned, v.stamped, max, w); }
    }
  }

  lemma OneMoreServed(log: seq<Seconds>, cleaned: Seconds, stamped: Seconds, max: nat, w: Seconds)
    requires Sorted(log) && Spaced(log, max, w) && NotAfter(log, cleaned) && cleaned <= stamped
    requires Admits(log, cleaned, max, w)
    ensures Sorted(log + [stamped]) && Spaced(log + [stamped], max, w) && NotAfter(log + [stamped], stamped)
  {
    var k := Track([], log);
    assert k.Log() == log;
    Cleaned(k, cleaned, cleaned, w);
    Admitted(Clean(k, cleaned - w), cleaned, stamped, w, max);
  }

  /** With a clock that never goes back, no window of the given length contains more than `max` admitted requests,
      wherever the window starts. */
  lemma EveryWindowIsBounded(vs: seq<Visit>, max: nat, w: Seconds)
    requires InOrder(vs)
    ensures Bounded(Served(vs, max, w), max, w)
  {
    ServedIsSpaced(vs, max, w);
    BoundedIffSpaced(Served(vs, max, w), max, w);
  }

  /** And no more is refused than must be: a visit is turned away exactly when the window that ends with it already holds `max` of
      the requests admitted before; otherwise its stamp is added to them. */
  lemma RefusedIffFull(vs: seq<Visit>, max: nat, w: Seconds)
    requires vs != []
    ensures var before, v := Served(vs[..|vs| - 1], max, w), vs[|vs| - 1];
      && (Served(vs, max, w) == before <==> Within(before, v.cleaned - w, v.cleaned) >= max)
      && (Served(vs, max, w) != before ==> Served(vs, max, w) == before + [v.stamped])
  {
    var before, v := Served(vs[..|vs| - 1], max, w), vs[|vs| - 1];
    assert |before + [v.stamped]| == |before| + 1;
  }

  // ----- waiting -----

  /** Python's `int(x)` on a float: truncation toward zero. */
  function Truncate(x: real): int { if x >= 0.0 then x.Floor else -(-x).Floor }

  function RetryAfter(oldest: Seconds, now: Seconds, w: Seconds): int { Max(Truncate(w - (now - oldest)), 1) }

  /** A client at its limit is admitted again exactly from the moment its oldest remembered request leaves. */
  lemma FreeFrom(k: Track, now: Seconds, w: Seconds, t: Seconds)
    requires Remembers(k, now, w) && k.kept != [] && now <= t
    ensures Admits(k.Log(), t, |k.kept|, w) <==> t >= k.kept[0] + w
  {
    Cleaned(k, now, t, w);
    RecentSorted(k.kept, t - w);
  }

  /** The answer is within a second of the wait that is left. */
  lemma RetryIsClose(oldest: Seconds, now: Seconds, w: Seconds)
    ensures var r, left := RetryAfter(oldest, now, w) as real, MaxReal(oldest + w - now, 0.0);
      r >= 1.0 && r - 1.0 <= left < r + 1.0
  {
  }

  /** Truncation can answer too little: waiting as long as told suffices exactly when at most a second is left or
      the wait is a whole number of seconds. */
  lemma RetrySufficesIff(k: Track, clock: Seconds, now: Seconds, w: Seconds)
    requires Remembers(k, clock, w) && k.kept != [] && clock <= now
    ensures var left := k.kept[0] + w - now;
      Admits(k.Log(), now + RetryAfter(k.kept[0], now, w) as real, |k.kept|, w) <==> left <= 1.0 || left == left.Floor as real
  {
    FreeFrom(k, clock, w, now + RetryAfter(k.kept[0], now, w) as real);
  }

  // ----- all clients -----

  predicate Sound(k: Track, clock: Seconds, max: nat, w: Seconds) { Remembers(k, clock, w) && Spaced(k.Log(), max, w) }

  type Lists = map<string, seq<Seconds>>

  function Of(lists: Lists, client: string): seq<Seconds> { if client in lists then lists[client] else [] }

  /** The ghost record of dropped admissions has the clients the lists have. */
  ghost predicate AllSound(gone: Lists, kept: Lists, clock: Seconds, max: nat, w: Seconds) {
    gone.Keys == kept.Keys && forall c :: c in kept ==> Sound(Track(gone[c], kept[c]), clock, max, w)
  }

  lemma Waited(k: Track, clock: Seconds, now: Seconds, max: nat, w: Seconds)
    requires Sound(k, clock, max, w) && clock <= now
    ensures Sound(k, now, max, w)
  {
  }

  /** Time passing, and putting a sound track in one client's place. */
  lemma Replaced(gone: Lists, kept: Lists, clock: Seconds, now: Seconds, max: nat, w: Seconds, client: string, k: Track)
    requires AllSound(gone, kept, clock, max, w) && clock <= now && Sound(k, now, max, w)
    ensures AllSound(gone[client := k.gone], kept[client := k.kept], now, max, w)
  {
    forall c | c in kept ensures Sound(Track(gone[c], kept[c]), now, max, w) { Waited(Track(gone[c], kept[c]), clock, now, max, w); }
  }

  lemma NobodyThere(clock: Seconds, max: nat, w: Seconds)
    ensures Sound(Track([], []), clock, max, w)
  {
  }

  function LogIn(gone: Lists, kept: Lists, client: string): seq<Seconds> { Of(gone, client) + Of(kept, client) }

  ghost predicate SameLogs(gone: Lists, kept: Lists, gone2: Lists, kept2: Lists) {
    forall c :: LogIn(gone2, kept2, c) == LogIn(gone, kept, c)
  }

  ghost predicate OthersSame(gone: Lists, kept: Lists, gone2: Lists, kept2: Lists, client: string) {
    forall c :: c != client ==> LogIn(gone2, kept2, c) == LogIn(gone, kept, c)
  }

  lemma SoundTrack(gone: Lists, kept: Lists, clock: Seconds, max: nat, w: Seconds, client: string)
    requires AllSound(gone, kept, clock, max, w)
    ensures Sound(Track(Of(gone, client), Of(kept, client)), clock, max, w)
  {
    if client !in kept { NobodyThere(clock, max, w); }
  }

  /** What `_clean_window` does to all the lists. */
  function CleanedFor(kept: Lists, client: string, cutoff: Seconds): Lists {
    if client in kept then kept[client := Recent(kept[client], cutoff)] else kept
  }

  lemma CleanedLists(gone: Lists, kept: Lists, clock: Seconds, now: Seconds, max: nat, w: Seconds, client: string)
    returns (gone2: Lists)
    requires AllSound(gone, kept, clock, max, w) && clock <= now
    ensures AllSound(gone2, CleanedFor(kept, client, now - w), now, max, w)
    ensures SameLogs(gone, kept, gone2, CleanedFor(kept, client, now - w))
    ensures |Of(CleanedFor(kept, client, now - w), client)| == Within(LogIn(gone, kept, client), now - w, now)
  {
    var k := Track(Of(gone, client), Of(kept, client));
    SoundTrack(gone, kept, clock, max, w, client);
    Cleaned(k, clock, now, w);
    var after := Clean(k, now - w);
    if client in kept {
      gone2 := gone[client := after.gone];
      Replaced(gone, kept, clock, now, max, w, client, after);
    } else {
      gone2 := gone;
      Later(gone, kept, clock, now, max, w);
    }
  }

  lemma Later(gone: Lists, kept: Lists, clock: Seconds, now: Seconds, max: nat, w: Seconds)
    requires AllSound(gone, kept, clock, max, w) && clock <= now
    ensures AllSound(gone, kept, now, max, w)
  {
    forall c | c in kept ensures Sound(Track(gone[c], kept[c]), now, max, w) { Waited(Track(gone[c], kept[c]), clock, now, max, w); }
  }

  lemma AdmittedLists(gone: Lists, kept: Lists, clock: Seconds, now: Seconds, max: nat, w: Seconds, client: string)
    returns (gone2: Lists)
    requires AllSound(gone, kept, clock, max, w) && clock <= now && |Of(kept, client)| < max
    ensures AllSound(gone2, kept[client := Of(kept, client) + [now]], now, max, w)
    ensures LogIn(gone2, kept[client := Of(kept, client) + [now]], client) == LogIn(gone, kept, client) + [now]
    ensures OthersSame(gone, kept, gone2, kept[client := Of(kept, client) + [now]], client)
  {
    var k := Track(Of(gone, client), Of(kept, client));
    SoundTrack(gone, kept, clock, max, w, client);
    Admitted(k, clock, now, w, max);
    gone2 := gone[client := k.gone];
    Replaced(gone, kept, clock, now, max, w, client, k.(kept := k.kept + [now]));
  }

  /** A full list frees a place when its oldest entry leaves the window. */
  lemma FullList(gone: Lists, kept: Lists, now: Seconds, max: nat, w: Seconds, client: string, t: Seconds)
    requires AllSound(gone, kept, now, max, w) && Of(kept, client) != [] && now <= t
    ensures Admits(LogIn(gone, kept, client), t, |Of(kept, client)|, w) <==> t >= Of(kept, client)[0] + w
  {
    var k := Track(Of(gone, client), Of(kept, client));
    SoundTrack(gone, kept, now, max, w, client);
    FreeFrom(k, now, w, t);
  }

  lemma BoundedLists(gone: Lists, kept: Lists, clock: Seconds, max: nat, w: Seconds, client: string)
    requires AllSound(gone, kept, clock, max, w)
    ensures Bounded(LogIn(gone, kept, client), max, w)
  {
    SoundTrack(gone, kept, clock, max, w, client);
    BoundedIffSpaced(LogIn(gone, kept, client), max, w);
  }

  class RateLimiter {
    const maxRequests: int
    const windowSeconds: int
    var requests: Lists
    ghost var gone: Lists
    ghost var clock: Seconds

    ghost function Limit(): nat { if maxRequests > 0 then maxRequests else 0 }

    function Window(): Seconds { windowSeconds as real }

    ghost predicate Valid()
      reads this
    {
      AllSound(gone, requests, clock, Limit(), Window())
    }

    /** The times at which a client's requests were admitted, whether or not the limiter still keeps them. */
    ghost function Log(client: string): seq<Seconds>
      reads this
    {
      LogIn(gone, requests, client)
    }

    constructor (maxRequests: int, windowSeconds: int, ghost now: Seconds)
      ensures Valid() && clock == now && requests == map[] && gone == map[]
      ensures this.maxRequests == maxRequests && this.windowSeconds == windowSeconds
    {
      this.maxRequests, this.windowSeconds := maxRequests, windowSeconds;
      requests, gone, clock := map[], map[], now;
    }

    method CleanWindow(client: string, now: Seconds)
      requires Valid() && clock <= now
      modifies this
      ensures Valid() && clock == now
      ensures requests == CleanedFor(old(requests), client, now - Window())
      ensures |Of(requests, client)| == Within(Log(client), now - Window(), now)
      ensures SameLogs(old(gone), old(requests), gone, requests)
    {
      ghost var after := CleanedLists(gone, requests, clock, now, Limit(), Window(), client);
      var cutoff := now - Window();
      if client in requests {
        requests := requests[client := Recent(requests[client], cutoff)];
      }
      gone, clock := after, now;
    }

    /** Admit the request unless the window that ends now already holds the limit. */
    method Check(client: string, now: Seconds, stamp: Seconds) returns (ok: bool)
      requires Valid() && clock <= now <= stamp
      modifies this
      ensures Valid() && clock <= stamp
      ensures maxRequests <= 0 ==> ok && requests == old(requests) && gone == old(gone)
      ensures maxRequests > 0 ==> (ok <==> Admits(old(Log(client)), now, maxRequests, Window()))
      ensures maxRequests > 0 ==> Log(client) == if ok then old(Log(client)) + [stamp] else old(Log(client))
      ensures OthersSame(old(gone), old(requests), gone, requests, client)
    {
      if maxRequests <= 0 { return true; }
      CleanWindow(client, now);
      var timestamps := Of(requests, client);
      if |timestamps| >= maxRequests { return false; }
      ghost var after := AdmittedLists(gone, requests, now, stamp, Limit(), Window(), client);
      requests := requests[client := timestamps + [stamp]];
      gone, clock := after, stamp;
      ok := true;
    }

    /** Zero exactly when the client has no request in the window. For a client at its limit, `free` is the instant from
        which a check is admitted again, and the answer is within a second of the time left until then. */
    method GetRetryAfter(client: string, now: Seconds, reading: Seconds) returns (r: int, ghost free: Seconds)
      requires Valid() && clock <= now <= reading
      modifies this
      ensures Valid() && clock <= reading
      ensures SameLogs(old(gone), old(requests), gone, requests)
      ensures r == 0 <==> Within(Log(client), now - Window(), now) == 0
      ensures r != 0 && Within(Log(client), now - Window(), now) == maxRequests ==>
        && (forall t :: t >= now ==> (Admits(Log(client), t, maxRequests, Window()) <==> t >= free))
        && r as real - 1.0 <= MaxReal(free - reading, 0.0) < r as real + 1.0
    {
      free := 0.0;
      if client !in requests {
        assert Log(client) == [];
        return 0, free;
      }
      CleanWindow(client, now);
      var timestamps := Of(requests, client);
      if timestamps == [] { return 0, free; }
      var oldest := timestamps[0];
      free := oldest + Window();
      r := RetryAfter(oldest, reading, Window());
      RetryIsClose(oldest, reading, Window());
      if |timestamps| == maxRequests {
        forall t | t >= now ensures Admits(Log(client), t, maxRequests, Window()) <==> t >= free {
          FullList(gone, requests, now, Limit(), Window(), client, t);
        }
      }
    }

    /** What the invariant is for. */
    lemma EveryWindow(client: string)
      requires Valid() && maxRequests > 0
      ensures Bounded(Log(client), maxRequests, Window())
    {
      BoundedLists(gone, requests, clock, maxRequests, Window(), client);
    }
  }
}
