/** The alert suppressor of `alert-worker/src/dedupe.rs`: a map of fire times that evicts as it goes. */
module AlertDedupe {
  import opened Clock

  datatype Call = Call(fingerprint: string, now: nat)

  function Evicted(seen: map<string, nat>, now: nat, ttl: nat): map<string, nat> {
    map f | f in seen && Elapsed(now, seen[f]) < ttl :: seen[f]
  }

  function Answered(seen: map<string, nat>, call: Call, ttl: nat): (map<string, nat>, bool) {
    var kept := Evicted(seen, call.now, ttl);
    if call.fingerprint in kept && Elapsed(call.now, kept[call.fingerprint]) < ttl then (kept, false)
    else (kept[call.fingerprint := call.now], true)
  }

  class DedupeCache {
    var seen: map<string, nat>

    constructor ()
      ensures seen == map[]
    {
      seen := map[];
    }

    /** `should_fire`: evict, then fire unless the fingerprint is still there. */
    method ShouldFire(call: Call, ttl: nat) returns (fire: bool)
      modifies this
      ensures (seen, fire) == Answered(old(seen), call, ttl)
    {
      Evict(call.now, ttl);
      if call.fingerprint in seen && Elapsed(call.now, seen[call.fingerprint]) < ttl {
        return false;
      }
      seen := seen[call.fingerprint := call.now];
      return true;
    }

    /** `retain`, one key at a time. */
    method Evict(now: nat, ttl: nat)
      modifies this
      ensures seen == Evicted(old(seen), now, ttl)
    {
      var todo := seen.Keys;
      while todo != {}
        invariant todo <= seen.Keys <= old(seen).Keys
        invariant forall f :: f in seen ==> seen[f] == old(seen)[f]
        invariant forall f :: f in old(seen) && f !in todo ==> (f in seen <==> Elapsed(now, old(seen)[f]) < ttl)
        decreases todo
      {
        var f :| f in todo;
        todo := todo - {f};
        if !(Elapsed(now, seen[f]) < ttl) {
          seen := seen - {f};
        }
      }
    }
  }

  /** The cache after a run of calls, and every answer it gave. */
  function RunCalls(calls: seq<Call>, ttl: nat): (r: (map<string, nat>, seq<bool>))
    ensures |r.1| == |calls|
  {
    if calls == [] then (map[], [])
    else
      var (seen, answers) := RunCalls(calls[..|calls| - 1], ttl);
      var (after, fire) := Answered(seen, calls[|calls| - 1], ttl);
      (after, answers + [fire])
  }

  /** What the answers ought to be, from the whole history: no earlier fire less than `ttl` ago. */
  predicate Fires(calls: seq<Call>, ttl: nat, i: nat)
    requires i < |calls|
    decreases i
  {
    forall j :: 0 <= j < i && calls[j].fingerprint == calls[i].fingerprint && Fires(calls, ttl, j) ==>
      Elapsed(calls[i].now, calls[j].now) >= ttl
  }

  predicate Ordered(calls: seq<Call>) {
    forall i, j :: 0 <= i < j < |calls| ==> calls[i].now <= calls[j].now
  }

  /** No earlier fire of the fingerprint less than `ttl` ago, given which earlier calls fired. */
  predicate Quiet(calls: seq<Call>, fired: seq<bool>, ttl: nat)
    requires |fired| < |calls|
  {
    forall j :: 0 <= j < |fired| && fired[j] && calls[j].fingerprint == calls[|fired|].fingerprint ==>
      Elapsed(calls[|fired|].now, calls[j].now) >= ttl
  }

  /** Every entry is a fire, and every fire that could still suppress is the entry of its fingerprint. */
  ghost predicate Inv(calls: seq<Call>, fired: seq<bool>, ttl: nat, seen: map<string, nat>)
    requires |fired| <= |calls|
  {
    && (forall f :: f in seen ==>
        exists j :: 0 <= j < |fired| && fired[j] && calls[j].fingerprint == f && calls[j].now == seen[f])
    && (forall j :: 0 <= j < |fired| && fired[j] && Elapsed(calls[|fired| - 1].now, calls[j].now) < ttl ==>
        calls[j].fingerprint in seen && seen[calls[j].fingerprint] == calls[j].now)
  }

  lemma AnswerIsQuiet(calls: seq<Call>, fired: seq<bool>, ttl: nat, seen: map<string, nat>)
    requires Ordered(calls) && |fired| < |calls| && Inv(calls, fired, ttl, seen)
    ensures Answered(seen, calls[|fired|], ttl).1 == Quiet(calls, fired, ttl)
  {
    var call := calls[|fired|];
    if call.fingerprint in Evicted(seen, call.now, ttl) {
      var j :| 0 <= j < |fired| && fired[j] && calls[j].fingerprint == call.fingerprint && calls[j].now == seen[call.fingerprint];
    } else {
      forall j | 0 <= j < |fired| && fired[j] && calls[j].fingerprint == call.fingerprint
        ensures Elapsed(call.now, calls[j].now) >= ttl
      {
        assert Elapsed(calls[|fired| - 1].now, calls[j].now) <= Elapsed(call.now, calls[j].now);
      }
    }
  }

  lemma ElapsedGrows(now: nat, later: nat, since: nat)
    requires now <= later
    ensures Elapsed(now, since) <= Elapsed(later, since)
  {
  }

  lemma AnswerKeepsInv(calls: seq<Call>, fired: seq<bool>, ttl: nat, seen: map<string, nat>)
    requires Ordered(calls) && |fired| < |calls| && Inv(calls, fired, ttl, seen)
    ensures var (after, fire) := Answered(seen, calls[|fired|], ttl); Inv(calls, fired + [fire], ttl, after)
  {
    hide Elapsed;
    var n, call := |fired|, calls[|fired|];
    var (after, fire) := Answered(seen, call, ttl);
    var more := fired + [fire];
    AnswerIsQuiet(calls, fired, ttl, seen);
    forall f | f in after
      ensures exists j :: 0 <= j < |more| && more[j] && calls[j].fingerprint == f && calls[j].now == after[f]
    {
      if fire && f == call.fingerprint {
        assert more[n];
      } else {
        var j :| 0 <= j < |fired| && fired[j] && calls[j].fingerprint == f && calls[j].now == seen[f];
        assert more[j];
      }
    }
    forall j | 0 <= j < |more| && more[j] && Elapsed(call.now, calls[j].now) < ttl
      ensures calls[j].fingerprint in after && after[calls[j].fingerprint] == calls[j].now
    {
      if j < n {
        assert fired[j];
        ElapsedGrows(calls[n - 1].now, call.now, calls[j].now);
      }
    }
  }

  lemma {:induction false} RunInv(calls: seq<Call>, n: nat, ttl: nat)
    requires Ordered(calls) && n <= |calls|
    ensures var (seen, fired) := RunCalls(calls[..n], ttl); Inv(calls, fired, ttl, seen)
    decreases n
  {
    if n > 0 {
      RunInv(calls, n - 1, ttl);
      assert calls[..n][..n - 1] == calls[..n - 1];
      var (seen, fired) := RunCalls(calls[..n - 1], ttl);
      AnswerKeepsInv(calls, fired, ttl, seen);
    }
  }

  lemma {:induction false} AnswersStay(calls: seq<Call>, ttl: nat, n: nat)
    requires n <= |calls|
    ensures RunCalls(calls, ttl).1[..n] == RunCalls(calls[..n], ttl).1
    decreases |calls|
  {
    if n < |calls| {
      var front := calls[..|calls| - 1];
      AnswersStay(front, ttl, n);
      assert front[..n] == calls[..n];
    } else {
      assert calls[..n] == calls;
    }
  }

  /** Each answer of a run looks back at the earlier answers alone. */
  lemma AnswerLooksBack(calls: seq<Call>, ttl: nat, i: nat)
    requires Ordered(calls) && i < |calls|
    ensures RunCalls(calls, ttl).1[i] == Quiet(calls, RunCalls(calls, ttl).1[..i], ttl)
  {
    hide Inv, Quiet, Ordered;
    RunInv(calls, i, ttl);
    var (seen, fired) := RunCalls(calls[..i], ttl);
    AnswersStay(calls, ttl, i);
    AnswersStay(calls, ttl, i + 1);
    assert calls[..i + 1][..i] == calls[..i];
    assert RunCalls(calls, ttl).1[i] == RunCalls(calls[..i + 1], ttl).1[i];
    AnswerIsQuiet(calls, fired, ttl, seen);
  }

  /**
    Over every run with a clock that does not go back, each answer is the one the full history gives,
    so eviction never changes an answer.
   */
  lemma {:induction false} EvictionIsInvisible(calls: seq<Call>, ttl: nat, i: nat)
    requires Ordered(calls) && i < |calls|
    ensures RunCalls(calls, ttl).1[i] == Fires(calls, ttl, i)
    decreases i
  {
    hide RunCalls, Elapsed;
    var answers := RunCalls(calls, ttl).1;
    forall j | 0 <= j < i
      ensures answers[..i][j] == Fires(calls, ttl, j)
    {
      EvictionIsInvisible(calls, ttl, j);
    }
    AnswerLooksBack(calls, ttl, i);
  }

  /** So two fires of one fingerprint are always at least `ttl` apart. */
  lemma FiresApart(calls: seq<Call>, ttl: nat, i: nat, j: nat)
    requires Ordered(calls) && i < j < |calls| && calls[i].fingerprint == calls[j].fingerprint
    requires RunCalls(calls, ttl).1[i] && RunCalls(calls, ttl).1[j]
    ensures calls[j].now - calls[i].now >= ttl
  {
    EvictionIsInvisible(calls, ttl, i);
    EvictionIsInvisible(calls, ttl, j);
  }
}
