/** The queue of network effects that an edge node drains when it is online (adl_lite/sync_manager.py). */
module SideEffects {
  import opened Basics

  datatype Effect = Effect(name: string, concept: string, params: string, createdAt: string)

  /** How the executor answers one attempt, and what it enqueues meanwhile. */
  datatype Reply = Reply(ok: bool, enqueued: seq<Effect>)

  /** One attempt and its outcome. */
  datatype Attempt = Attempt(effect: Effect, ok: bool)

  /** The answer to the next attempt; an executor that is missing or says no more fails and enqueues nothing. */
  function NextReply(script: seq<Reply>): Reply { if script == [] then Reply(false, []) else script[0] }

  function LaterReplies(script: seq<Reply>): seq<Reply> { if script == [] then [] else script[1..] }

  /** The attempts of a drain: front to back, effects enqueued meanwhile included. */
  function Tried(waiting: seq<Effect>, script: seq<Reply>): seq<Attempt>
    decreases |script|, |waiting|
  {
    if waiting == [] then []
    else
      var reply := NextReply(script);
      [Attempt(waiting[0], reply.ok)] + Tried(waiting[1..] + reply.enqueued, LaterReplies(script))
  }

  /** What is enqueued while a drain runs. */
  function EnqueuedMeanwhile(waiting: seq<Effect>, script: seq<Reply>): seq<Effect>
    decreases |script|, |waiting|
  {
    if waiting == [] then []
    else
      var reply := NextReply(script);
      reply.enqueued + EnqueuedMeanwhile(waiting[1..] + reply.enqueued, LaterReplies(script))
  }

  function Effects(ts: seq<Attempt>): seq<Effect> { if ts == [] then [] else [ts[0].effect] + Effects(ts[1..]) }

  /** The effects whose outcome was as told, in their order. */
  function Outcomes(ts: seq<Attempt>, ok: bool): seq<Effect> {
    if ts == [] then [] else (if ts[0].ok == ok then [ts[0].effect] else []) + Outcomes(ts[1..], ok)
  }

  lemma EffectsOfCons(t: Attempt, ts: seq<Attempt>)
    ensures Effects([t] + ts) == [t.effect] + Effects(ts)
  {
    assert ([t] + ts)[1..] == ts;
  }

  lemma Regroup(waiting: seq<Effect>, more: seq<Effect>, later: seq<Effect>)
    requires waiting != []
    ensures [waiting[0]] + ((waiting[1..] + more) + later) == waiting + (more + later)
  {
  }

  /** Every effect that waits or is enqueued meanwhile is tried exactly once, in the order of arrival. */
  lemma {:induction false} EachTriedOnce(waiting: seq<Effect>, script: seq<Reply>)
    ensures Effects(Tried(waiting, script)) == waiting + EnqueuedMeanwhile(waiting, script)
    decreases |script|, |waiting|
  {
    if waiting != [] {
      var reply, rest := NextReply(script), LaterReplies(script);
      var next := waiting[1..] + reply.enqueued;
      EachTriedOnce(next, rest);
      EffectsOfCons(Attempt(waiting[0], reply.ok), Tried(next, rest));
      Regroup(waiting, reply.enqueued, EnqueuedMeanwhile(next, rest));
    }
  }

  /** The k-th attempt has the outcome of the k-th answer; without an answer it fails. */
  lemma {:induction false} AnswersInOrder(waiting: seq<Effect>, script: seq<Reply>, k: nat)
    requires k < |Tried(waiting, script)|
    ensures Tried(waiting, script)[k].ok <==> k < |script| && script[k].ok
    decreases k
  {
    if k > 0 {
      AnswersInOrder(waiting[1..] + NextReply(script).enqueued, LaterReplies(script), k - 1);
    }
  }

  /** What is enqueued meanwhile is what the answers that were asked for enqueue. */
  lemma {:induction false} EnqueuedIff(waiting: seq<Effect>, script: seq<Reply>, e: Effect)
    ensures e in EnqueuedMeanwhile(waiting, script) <==>
            exists k :: 0 <= k < |Tried(waiting, script)| && k < |script| && e in script[k].enqueued
    decreases |script|, |waiting|
  {
    if waiting != [] {
      var later, rest := waiting[1..] + NextReply(script).enqueued, LaterReplies(script);
      EnqueuedIff(later, rest, e);
      assert |Tried(waiting, script)| == 1 + |Tried(later, rest)|;
      if script != [] {
        assert forall k :: 0 <= k < |rest| ==> rest[k] == script[k + 1];
        if k :| 0 <= k < |Tried(later, rest)| && k < |rest| && e in rest[k].enqueued { assert e in script[k + 1].enqueued; }
        if k :| 0 <= k < |Tried(waiting, script)| && k < |script| && e in script[k].enqueued {
          if k > 0 { assert rest[k - 1] == script[k]; }
        }
      }
    }
  }

  lemma {:induction false} OutcomesIff(ts: seq<Attempt>, ok: bool, e: Effect)
    ensures e in Outcomes(ts, ok) <==> exists k :: 0 <= k < |ts| && ts[k] == Attempt(e, ok)
  {
    if ts != [] {
      OutcomesIff(ts[1..], ok, e);
      if k :| 0 <= k < |ts| && ts[k] == Attempt(e, ok) {
        if k > 0 { assert ts[1..][k - 1] == ts[k]; }
      }
    }
  }

  lemma OutcomesOfCons(t: Attempt, ts: seq<Attempt>, ok: bool)
    ensures Outcomes([t] + ts, ok) == if t.ok == ok then [t.effect] + Outcomes(ts, ok) else Outcomes(ts, ok)
  {
    assert ([t] + ts)[1..] == ts;
  }

  lemma {:induction false} OutcomesOfConcat(ts: seq<Attempt>, us: seq<Attempt>, ok: bool)
    ensures Outcomes(ts + us, ok) == Outcomes(ts, ok) + Outcomes(us, ok)
  {
    if ts == [] {
      assert ts + us == us;
    } else {
      var rest := ts[1..];
      OutcomesOfConcat(rest, us, ok);
      assert ts == [ts[0]] + rest;
      JoinIsAssociative([ts[0]], rest, us);
      OutcomesOfCons(ts[0], rest, ok);
      OutcomesOfCons(ts[0], rest + us, ok);
      JoinIsAssociative([ts[0].effect], Outcomes(rest, ok), Outcomes(us, ok));
    }
  }

  lemma OneMore(done: seq<Attempt>, t: Attempt, later: seq<Attempt>)
    ensures done + ([t] + later) == (done + [t]) + later
    ensures Outcomes(done + [t], t.ok) == Outcomes(done, t.ok) + [t.effect] && Outcomes(done + [t], !t.ok) == Outcomes(done, !t.ok)
  {
    OutcomesOfConcat(done, [t], true);
    OutcomesOfConcat(done, [t], false);
    assert [t][1..] == [];
  }

  lemma {:induction false} OutcomesSplit(ts: seq<Attempt>)
    ensures multiset(Effects(ts)) == multiset(Outcomes(ts, true)) + multiset(Outcomes(ts, false))
    ensures |Outcomes(ts, true)| + |Outcomes(ts, false)| == |ts| == |Effects(ts)|
  {
    if ts != [] { OutcomesSplit(ts[1..]); }
  }

  /** No effect is lost or doubled: each was either executed or is queued again, those enqueued meanwhile included. */
  lemma NothingLost(waiting: seq<Effect>, script: seq<Reply>)
    ensures var ts := Tried(waiting, script);
      multiset(waiting + EnqueuedMeanwhile(waiting, script)) == multiset(Outcomes(ts, true)) + multiset(Outcomes(ts, false))
  {
    EachTriedOnce(waiting, script);
    OutcomesSplit(Tried(waiting, script));
  }

  // ----- runs -----

  /** What happens to a queue: an effect arrives, or it is drained with these answers. */
  datatype Op = Put(e: Effect) | DrainOp(script: seq<Reply>)

  /** What waits, and what was executed so far, in this order. */
  datatype Ledger = Ledger(waiting: seq<Effect>, executed: seq<Effect>)

  function Step(l: Ledger, op: Op): Ledger {
    match op
    case Put(e) => l.(waiting := l.waiting + [e])
    case DrainOp(script) =>
      var ts := Tried(l.waiting, script);
      Ledger(Outcomes(ts, false), l.executed + Outcomes(ts, true))
  }

  function Run(ops: seq<Op>): Ledger {
    if ops == [] then Ledger([], []) else Step(Run(ops[..|ops| - 1]), ops[|ops| - 1])
  }

  /** Everything that ever arrived, in its order. */
  function Arrived(ops: seq<Op>): seq<Effect> {
    if ops == [] then []
    else
      Arrived(ops[..|ops| - 1]) +
        match ops[|ops| - 1]
        case Put(e) => [e]
        case DrainOp(script) => EnqueuedMeanwhile(Run(ops[..|ops| - 1]).waiting, script)
  }

  /** `xs` is `ys` with some elements left out. */
  predicate Subsequence(xs: seq<Effect>, ys: seq<Effect>) {
    xs == [] || (ys != [] && (Subsequence(xs, ys[..|ys| - 1])
                              || (xs[|xs| - 1] == ys[|ys| - 1] && Subsequence(xs[..|xs| - 1], ys[..|ys| - 1]))))
  }

  lemma {:induction false} SubsequenceOfItself(xs: seq<Effect>)
    ensures Subsequence(xs, xs)
  {
    if xs != [] { SubsequenceOfItself(xs[..|xs| - 1]); }
  }

  lemma {:induction false} SubsequenceOfConcat(xs: seq<Effect>, ys: seq<Effect>, us: seq<Effect>, vs: seq<Effect>)
    requires Subsequence(xs, ys) && Subsequence(us, vs)
    ensures Subsequence(xs + us, ys + vs)
    decreases |vs|
  {
    if vs == [] {
      assert xs + us == xs && ys + vs == ys;
    } else {
      var n := |vs| - 1;
      assert (ys + vs)[..|ys + vs| - 1] == ys + vs[..n];
      if us == [] || Subsequence(us, vs[..n]) {
        SubsequenceOfConcat(xs, ys, us, vs[..n]);
      } else {
        assert (xs + us)[..|xs + us| - 1] == xs + us[..|us| - 1];
        SubsequenceOfConcat(xs, ys, us[..|us| - 1], vs[..n]);
      }
    }
  }

  lemma {:induction false} OutcomesAreSubsequence(ts: seq<Attempt>, ok: bool)
    ensures Subsequence(Outcomes(ts, ok), Effects(ts))
  {
    if ts != [] {
      OutcomesAreSubsequence(ts[1..], ok);
      var first := if ts[0].ok == ok then [ts[0].effect] else [];
      SubsequenceOfItself([ts[0].effect]);
      SubsequenceOfConcat(first, [ts[0].effect], Outcomes(ts[1..], ok), Effects(ts[1..]));
    }
  }

  lemma {:induction false} SubsequenceTransitive(xs: seq<Effect>, ys: seq<Effect>, zs: seq<Effect>)
    requires Subsequence(xs, ys) && Subsequence(ys, zs)
    ensures Subsequence(xs, zs)
    decreases |zs|
  {
    if xs != [] {
      var z := zs[..|zs| - 1];
      if Subsequence(ys, z) {
        SubsequenceTransitive(xs, ys, z);
      } else if Subsequence(xs, ys[..|ys| - 1]) {
        SubsequenceTransitive(xs, ys[..|ys| - 1], z);
      } else {
        SubsequenceTransitive(xs[..|xs| - 1], ys[..|ys| - 1], z);
      }
    }
  }

  /** Everything in `arrived` was executed or waits, and what waits is in order. */
  ghost predicate Conserved(l: Ledger, arrived: seq<Effect>) {
    multiset(arrived) == multiset(l.waiting) + multiset(l.executed) && Subsequence(l.waiting, arrived)
  }

  lemma PutConserves(l: Ledger, arrived: seq<Effect>, e: Effect)
    requires Conserved(l, arrived)
    ensures Conserved(Step(l, Put(e)), arrived + [e])
  {
    SubsequenceOfItself([e]);
    SubsequenceOfConcat(l.waiting, arrived, [e], [e]);
  }

  lemma DrainConserves(l: Ledger, arrived: seq<Effect>, script: seq<Reply>)
    requires Conserved(l, arrived)
    ensures Conserved(Step(l, DrainOp(script)), arrived + EnqueuedMeanwhile(l.waiting, script))
  {
    var ts, more := Tried(l.waiting, script), EnqueuedMeanwhile(l.waiting, script);
    NothingLost(l.waiting, script);
    DrainedInOrder(l.waiting, arrived, script);
    var executed, again := Outcomes(ts, true), Outcomes(ts, false);
    assert multiset(l.executed + executed) == multiset(l.executed) + multiset(executed);
    assert multiset(arrived + more) == multiset(arrived) + multiset(more);
    assert multiset(l.waiting + more) == multiset(l.waiting) + multiset(more);
    Balance(multiset(arrived), multiset(l.waiting), multiset(l.executed), multiset(more), multiset(executed), multiset(again));
  }

  lemma Balance(a: multiset<Effect>, w: multiset<Effect>, e: multiset<Effect>, m: multiset<Effect>, s: multiset<Effect>, f: multiset<Effect>)
    requires a == w + e && w + m == s + f
    ensures a + m == f + (e + s)
  {
    forall x ensures (a + m)[x] == (f + (e + s))[x] { assert (w + m)[x] == (s + f)[x]; }
  }

  lemma DrainedInOrder(waiting: seq<Effect>, arrived: seq<Effect>, script: seq<Reply>)
    requires Subsequence(waiting, arrived)
    ensures Subsequence(Outcomes(Tried(waiting, script), false), arrived + EnqueuedMeanwhile(waiting, script))
  {
    var ts, more := Tried(waiting, script), EnqueuedMeanwhile(waiting, script);
    EachTriedOnce(waiting, script);
    OutcomesAreSubsequence(ts, false);
    SubsequenceOfItself(more);
    SubsequenceOfConcat(waiting, arrived, more, more);
    SubsequenceTransitive(Outcomes(ts, false), waiting + more, arrived + more);
  }

  /** Over any run of arrivals and drains nothing is lost, doubled or overtaken: every effect that arrived was executed or waits,
      as often as it arrived, and those that wait do so in the order of their arrival. */
  lemma {:induction false} QueueConserves(ops: seq<Op>)
    ensures multiset(Arrived(ops)) == multiset(Run(ops).waiting) + multiset(Run(ops).executed)
    ensures Subsequence(Run(ops).waiting, Arrived(ops))
  {
    if ops != [] {
      var front := ops[..|ops| - 1];
      QueueConserves(front);
      match ops[|ops| - 1]
      case Put(e) => PutConserves(Run(front), Arrived(front), e);
      case DrainOp(script) => DrainConserves(Run(front), Arrived(front), script);
    }
  }

  class SideEffectQueue {
    var queue: seq<Effect>

    constructor ()
      ensures queue == []
    {
      queue := [];
    }

    method Enqueue(e: Effect)
      modifies this
      ensures queue == old(queue) + [e]
    {
      queue := queue + [e];
    }

    /** Try every effect once, front to back, those included that the executor enqueues meanwhile. `script` is what the executor
        does on each attempt; without an executor all fail. Failed effects stay queued in their order. */
    method Drain(hasExecutor: bool, script: seq<Reply>) returns (success: nat, failed: nat)
      modifies this
      ensures var ts := Tried(old(queue), if hasExecutor then script else []);
        queue == Outcomes(ts, false) && failed == |queue| && success == |Outcomes(ts, true)|
      ensures success + failed == |old(queue)| + |EnqueuedMeanwhile(old(queue), if hasExecutor then script else [])|
    {
      ghost var arrived, replies := queue, if hasExecutor then script else [];
      success, failed := 0, 0;
      var retry := [];
      var rest := if hasExecutor then script else [];
      ghost var all, done: seq<Attempt> := Tried(queue, rest), [];
      while queue != []
        invariant done + Tried(queue, rest) == all
        invariant retry == Outcomes(done, false) && failed == |retry| && success == |Outcomes(done, true)|
        decreases |rest|, |queue|
      {
        var effect := queue[0];
        var reply := NextReply(rest);
        ghost var attempt := Attempt(effect, reply.ok);
        OneMore(done, attempt, Tried(queue[1..] + reply.enqueued, LaterReplies(rest)));
        queue := queue[1..] + reply.enqueued;
        if reply.ok {
          success := success + 1;
        } else {
          failed := failed + 1;
          retry := retry + [effect];
        }
        rest := LaterReplies(rest);
        done := done + [attempt];
      }
      assert done == all;
      queue := retry + queue;
      OutcomesSplit(all);
      EachTriedOnce(arrived, replies);
    }
  }
}
