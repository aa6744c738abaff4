// The gateway's token bucket: a channel of tokens filled at start, refilled one
// per tick when not full, drained one per request.
module RateLimiters {
  import opened Common

  datatype Event = Tick | Request

  // ---- the bucket over a run, from the start of the limiter

  function Tokens(rps: nat, run: seq<Event>): (t: nat)
    ensures t <= rps
    decreases |run|
  {
    if run == [] then rps
    else
      var t := Tokens(rps, Front(run));
      if run[|run| - 1] == Tick then (if t < rps then t + 1 else t) else (if t > 0 then t - 1 else t)
  }

  // Requests allowed so far.
  function Allowed(rps: nat, run: seq<Event>): nat
    decreases |run|
  {
    if run == [] then 0
    else Allowed(rps, Front(run)) + if run[|run| - 1] == Request && Tokens(rps, Front(run)) > 0 then 1 else 0
  }

  // Ticks that found the bucket not full.
  function Refilled(rps: nat, run: seq<Event>): nat
    decreases |run|
  {
    if run == [] then 0
    else Refilled(rps, Front(run)) + if run[|run| - 1] == Tick && Tokens(rps, Front(run)) < rps then 1 else 0
  }

  function Ticks(run: seq<Event>): nat
    decreases |run|
  {
    if run == [] then 0 else Ticks(Front(run)) + if run[|run| - 1] == Tick then 1 else 0
  }

  // What the window from position i to now could still carry.
  function Slack(rps: nat, run: seq<Event>, i: nat): int
    requires i <= |run|
  {
    rps + (Ticks(run) - Ticks(run[..i])) - (Allowed(rps, run) - Allowed(rps, run[..i]))
  }

  // Tokens are conserved.
  lemma {:induction false} TokensConserved(rps: nat, run: seq<Event>)
    ensures Tokens(rps, run) == rps + Refilled(rps, run) - Allowed(rps, run)
    decreases |run|
  {
    if run != [] {
      TokensConserved(rps, Front(run));
    }
  }

  lemma SlackStep(rps: nat, run: seq<Event>, i: nat)
    requires i < |run|
    ensures var d := if run[|run| - 1] == Tick then 1 else if Tokens(rps, Front(run)) > 0 then -1 else 0;
            Slack(rps, run, i) == Slack(rps, Front(run), i) + d
  {
    assert Front(run)[..i] == run[..i];
  }

  lemma SlackNow(rps: nat, run: seq<Event>)
    ensures Slack(rps, run, |run|) == rps
  {
    assert run[..|run|] == run;
  }

  // The bucket holds exactly the least slack of all windows ending now.
  lemma {:induction false} TokensAreLeastSlack(rps: nat, run: seq<Event>)
    ensures forall i :: 0 <= i <= |run| ==> Tokens(rps, run) <= Slack(rps, run, i)
    ensures exists i :: 0 <= i <= |run| && Tokens(rps, run) == Slack(rps, run, i)
    decreases |run|
  {
    SlackNow(rps, run);
    if run != [] {
      var before := Front(run);
      TokensAreLeastSlack(rps, before);
      forall i | 0 <= i < |run|
        ensures Tokens(rps, run) <= Slack(rps, run, i)
      {
        SlackStep(rps, run, i);
      }
      var k :| 0 <= k <= |before| && Tokens(rps, before) == Slack(rps, before, k);
      SlackStep(rps, run, k);
      if run[|run| - 1] == Tick && Tokens(rps, before) == rps {
        assert Tokens(rps, run) == Slack(rps, run, |run|);
      } else {
        assert Tokens(rps, run) == Slack(rps, run, k);
      }
    }
  }

  // No window ever allows more than a burst plus its ticks.
  lemma WindowBound(rps: nat, run: seq<Event>, i: nat, j: nat)
    requires i <= j <= |run|
    ensures Allowed(rps, run[..j]) - Allowed(rps, run[..i]) <= rps + Ticks(run[..j]) - Ticks(run[..i])
  {
    TokensAreLeastSlack(rps, run[..j]);
    assert run[..j][..i] == run[..i];
    assert Tokens(rps, run[..j]) <= Slack(rps, run[..j], i);
  }

  // A request is refused exactly when some window ending now is already full, so
  // the limiter allows as much as the bound permits.
  lemma RefusedIffWindowFull(rps: nat, run: seq<Event>)
    ensures Allowed(rps, run + [Request]) == Allowed(rps, run)
      <==> exists i :: 0 <= i <= |run|
             && Allowed(rps, run) - Allowed(rps, run[..i]) == rps + Ticks(run) - Ticks(run[..i])
  {
    TokensAreLeastSlack(rps, run);
    assert Front(run + [Request]) == run;
    if Tokens(rps, run) == 0 {
      var i :| 0 <= i <= |run| && Tokens(rps, run) == Slack(rps, run, i);
      assert Allowed(rps, run) - Allowed(rps, run[..i]) == rps + Ticks(run) - Ticks(run[..i]);
    } else {
      forall i | 0 <= i <= |run|
        ensures Allowed(rps, run) - Allowed(rps, run[..i]) < rps + Ticks(run) - Ticks(run[..i])
      {
        assert Tokens(rps, run) <= Slack(rps, run, i);
      }
    }
  }

  function Idle(n: nat): seq<Event> {
    seq(n, _ => Tick)
  }

  lemma OneMoreTick(run: seq<Event>, n: nat)
    requires n > 0
    ensures var all := run + Idle(n); Front(all) == run + Idle(n - 1) && all[|all| - 1] == Tick && all != []
  {
  }

  // A burst's worth of idle ticks fills the bucket from any state.
  lemma {:induction false} IdleRefills(rps: nat, run: seq<Event>, n: nat)
    ensures Tokens(rps, run + Idle(n)) == Min(rps, Tokens(rps, run) + n)
    decreases n
  {
    if n == 0 {
      assert run + Idle(0) == run;
    } else {
      IdleRefills(rps, run, n - 1);
      OneMoreTick(run, n);
      hide Idle;
    }
  }

  // ---- the object

  class RateLimiter {
    const capacity: nat
    var tokens: nat
    ghost var run: seq<Event>

    ghost predicate Valid()
      reads this
    {
      tokens == Tokens(capacity, run)
    }

    // rps must give a ticker with a positive period.
    constructor (rps: nat)
      requires 0 < rps <= 1_000_000_000
      ensures Valid() && capacity == rps && run == []
    {
      capacity := rps;
      tokens := 0;
      run := [];
      new;
      var i := 0;
      while i < rps
        invariant 0 <= i <= rps && tokens == i
        invariant capacity == rps && run == []
      {
        tokens := tokens + 1;
        i := i + 1;
      }
    }

    // One tick of the refill goroutine: a send that gives up when full.
    method Refill()
      requires Valid()
      modifies this
      ensures Valid() && run == old(run) + [Tick]
    {
      run := run + [Tick];
      assert Front(run) == old(run);
      if tokens < capacity {
        tokens := tokens + 1;
      }
    }

    method Allow() returns (ok: bool)
      requires Valid()
      modifies this
      ensures Valid() && run == old(run) + [Request]
      ensures ok <==> old(tokens) > 0
      ensures Allowed(capacity, run) == Allowed(capacity, old(run)) + if ok then 1 else 0
    {
      run := run + [Request];
      assert Front(run) == old(run);
      ok := tokens > 0;
      if ok {
        tokens := tokens - 1;
      }
    }
  }
}
