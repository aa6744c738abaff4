// Client selection in the gateway: an atomic round-robin counter, a sticky index
// that overrides it, and a close that empties the pool.
module ProcessorPools {
  import opened Common

  const COUNTER_MODULUS: nat := 0x1_0000_0000_0000_0000

  // ---- any interleaving of calls
  //
  // Get holds the read lock from its load of sticky to its counter increment;
  // SetSticky releases it between reading the length and storing the index.

  datatype State = State(
    count: nat,               // clients while open
    closed: bool,
    current: nat,
    sticky: int,
    counting: nat,            // Gets past the sticky test, increment to come
    storing: seq<int>,        // indices SetSticky calls are about to store
    pinned: seq<nat>,         // picks made by sticky
    rotated: seq<nat>)        // picks made by the counter, in counter order

  datatype Event =
    | GetPinned | GetMiss | GetCount
    | SetCheck(idx: int) | SetStore(k: nat)
    | CloseAll

  function Start(count: nat): State {
    State(count, false, 0, -1, 0, [], [], [])
  }

  function Length(s: State): nat {
    if s.closed then 0 else s.count
  }

  predicate Enabled(s: State, e: Event) {
    match e
    case GetPinned => Length(s) > 0 && 0 <= s.sticky < Length(s)
    case GetMiss => Length(s) > 0 && !(0 <= s.sticky < Length(s))
    case GetCount => s.counting > 0
    case SetCheck(idx) => idx < Length(s)
    case SetStore(k) => k < |s.storing|
    case CloseAll => s.counting == 0
  }

  function Step(s: State, e: Event): State
    requires Enabled(s, e)
  {
    match e
    case GetPinned => s.(pinned := s.pinned + [s.sticky])
    case GetMiss => s.(counting := s.counting + 1)
    case GetCount =>
      var c := (s.current + 1) % COUNTER_MODULUS;
      s.(counting := s.counting - 1, current := c,
         rotated := s.rotated + [if Length(s) > 0 then c % Length(s) else 0])
    case SetCheck(idx) => s.(storing := s.storing + [if idx < 0 then -1 else idx])
    case SetStore(k) => s.(sticky := s.storing[k], storing := s.storing[..k] + s.storing[k + 1..])
    case CloseAll => s.(closed := true)
  }

  predicate Legal(s: State, events: seq<Event>)
    decreases |events|
  {
    events == [] || (Enabled(s, events[0]) && Legal(Step(s, events[0]), events[1..]))
  }

  function Run(s: State, events: seq<Event>): State
    requires Legal(s, events)
    decreases |events|
  {
    if events == [] then s else Run(Step(s, events[0]), events[1..])
  }

  predicate GoodIndex(count: nat, idx: int) {
    -1 <= idx < count
  }

  ghost predicate IndicesGood(s: State) {
    && GoodIndex(s.count, s.sticky)
    && forall k :: 0 <= k < |s.storing| ==> GoodIndex(s.count, s.storing[k])
  }

  // The client picked by the c-th increment of the counter, which wraps.
  function CounterPick(count: nat, c: nat): nat {
    if count == 0 then 0 else (c % COUNTER_MODULUS) % count
  }

  ghost predicate Rotates(count: nat, current: nat, rotated: seq<nat>) {
    && (rotated != [] ==> count > 0)
    && current == |rotated| % COUNTER_MODULUS
    && forall i :: 0 <= i < |rotated| ==> rotated[i] == CounterPick(count, i + 1)
  }

  ghost predicate Inv(s: State) {
    && (s.closed ==> s.counting == 0)
    && (s.counting > 0 ==> s.count > 0)
    && IndicesGood(s)
    && Rotates(s.count, s.current, s.rotated)
  }

  lemma RotateOnce(count: nat, current: nat, rotated: seq<nat>)
    requires count > 0 && Rotates(count, current, rotated)
    ensures var c := (current + 1) % COUNTER_MODULUS; Rotates(count, c, rotated + [c % count])
  {
    NextCount(|rotated|);
  }

  lemma StepKeepsIndices(s: State, e: Event)
    requires IndicesGood(s) && Enabled(s, e)
    ensures IndicesGood(Step(s, e))
  {
  }

  lemma StepKeepsInv(s: State, e: Event)
    requires Inv(s) && Enabled(s, e)
    ensures Inv(Step(s, e)) && Step(s, e).count == s.count
  {
    hide IndicesGood;
    hide Rotates;
    StepKeepsIndices(s, e);
    if e == GetCount {
      RotateOnce(s.count, s.current, s.rotated);
    }
  }

  lemma NextCount(n: nat)
    ensures (n % COUNTER_MODULUS + 1) % COUNTER_MODULUS == (n + 1) % COUNTER_MODULUS
  {
  }

  lemma {:induction false} RunKeepsInv(s: State, events: seq<Event>)
    requires Inv(s) && Legal(s, events)
    ensures Inv(Run(s, events)) && Run(s, events).count == s.count
    decreases |events|
  {
    if events != [] {
      StepKeepsInv(s, events[0]);
      RunKeepsInv(Step(s, events[0]), events[1..]);
    }
  }

  // The sticky index is always -1 or one of the clients the pool opened with, in
  // every interleaving of Get, SetSticky and Close; the counter's picks are the
  // residues of consecutive counter values, also past its wrap.
  lemma SelectionInvariant(count: nat, events: seq<Event>)
    requires Legal(Start(count), events)
    ensures var s := Run(Start(count), events);
      && -1 <= s.sticky < count
      && forall i :: 0 <= i < |s.rotated| ==> count > 0 && s.rotated[i] == ((i + 1) % COUNTER_MODULUS) % count
  {
    RunKeepsInv(Start(count), events);
  }

  // The indices asked for by the SetSticky calls of a run.
  function Asked(events: seq<Event>): set<int> {
    if events == [] then {} else AskedBy(events[0]) + Asked(events[1..])
  }

  function AskedBy(e: Event): set<int> {
    if e.SetCheck? then {e.idx} else {}
  }

  // Whatever is pinned, about to be or has been picked was asked for.
  ghost predicate OnlyAsked(s: State, asked: set<int>) {
    && (s.sticky >= 0 ==> s.sticky in asked)
    && (forall k :: 0 <= k < |s.storing| && s.storing[k] >= 0 ==> s.storing[k] in asked)
    && (forall k :: 0 <= k < |s.pinned| ==> s.pinned[k] in asked && s.pinned[k] < s.count)
  }

  lemma StepKeepsAsked(s: State, e: Event, asked: set<int>)
    requires OnlyAsked(s, asked) && Enabled(s, e)
    ensures OnlyAsked(Step(s, e), asked + AskedBy(e))
  {
  }

  lemma {:induction false} RunKeepsAsked(s: State, events: seq<Event>, asked: set<int>)
    requires OnlyAsked(s, asked) && Legal(s, events)
    ensures OnlyAsked(Run(s, events), asked + Asked(events))
    decreases |events|
  {
    hide OnlyAsked;
    hide Step;
    hide Enabled;
    if events == [] {
      assert asked + Asked(events) == asked;
    } else {
      StepKeepsAsked(s, events[0], asked);
      RunKeepsAsked(Step(s, events[0]), events[1..], asked + AskedBy(events[0]));
      assert asked + AskedBy(events[0]) + Asked(events[1..]) == asked + Asked(events);
    }
  }

  // Each call made while a client is pinned goes to that client, which some call
  // asked for and the pool has.
  lemma PinnedPicks(count: nat, events: seq<Event>, k: nat)
    requires Legal(Start(count), events) && k < |Run(Start(count), events).pinned|
    ensures Run(Start(count), events).pinned[k] in Asked(events)
    ensures Run(Start(count), events).pinned[k] < count
  {
    RunKeepsAsked(Start(count), events, {});
    RunKeepsInv(Start(count), events);
  }

  // n picks of one client.
  function Repeat(k: nat, n: nat): seq<nat> {
    seq(n, _ => k)
  }

  // As long as nobody changes the pin or closes the pool, every new call goes to
  // the pinned client: the counter moves only for calls already past the test.
  lemma {:induction false} StickyReceivesEveryCall(s: State, events: seq<Event>, k: nat)
    requires Inv(s) && Legal(s, events) && s.sticky == k && !s.closed && s.storing == []
    requires forall i :: 0 <= i < |events| ==> !events[i].SetCheck? && events[i] != CloseAll
    ensures var t := Run(s, events);
      && t.sticky == k && |t.rotated| + t.counting == |s.rotated| + s.counting
      && |s.pinned| <= |t.pinned| && t.pinned == s.pinned + Repeat(k, |t.pinned| - |s.pinned|)
    decreases |events|
  {
    if events == [] {
      assert s.pinned + Repeat(k, 0) == s.pinned;
    } else {
      var u := Step(s, events[0]);
      StepKeepsInv(s, events[0]);
      StickyReceivesEveryCall(u, events[1..], k);
      if events[0] == GetPinned {
        var n := |Run(s, events).pinned| - |u.pinned|;
        assert [k] + Repeat(k, n) == Repeat(k, n + 1);
        assert u.pinned + Repeat(k, n) == s.pinned + Repeat(k, n + 1);
      }
    }
  }

  // ---- fairness

  function Occurrences(picks: seq<nat>, j: nat): nat {
    if picks == [] then 0
    else Occurrences(picks[..|picks| - 1], j) + if picks[|picks| - 1] == j then 1 else 0
  }

  lemma FloorStep(x: int, n: nat)
    requires n > 0
    ensures (x + 1) / n - x / n == if (x + 1) % n == 0 then 1 else 0
  {
    var q, r := x / n, x % n;
    assert x == q * n + r;
    if r + 1 < n {
      DivModUnique(x + 1, n, q, r + 1);
    } else {
      assert x + 1 == (q + 1) * n;
      DivModUnique(x + 1, n, q + 1, 0);
    }
  }

  lemma ResidueHit(c: int, n: nat, j: nat)
    requires j < n
    ensures c % n == j <==> (c - j) % n == 0
  {
    var q, r := c / n, c % n;
    assert c == q * n + r;
    if r >= j {
      DivModUnique(c - j, n, q, r - j);
    } else {
      assert c - j == (q - 1) * n + (n + r - j);
      DivModUnique(c - j, n, q - 1, n + r - j);
    }
  }

  // Picks of client j among counter values a + 1 .. a + |picks|, in closed form.
  lemma {:induction false} OccurrencesClosedForm(picks: seq<nat>, a: nat, n: nat, j: nat)
    requires j < n && forall i :: 0 <= i < |picks| ==> picks[i] == (a + i + 1) % n
    ensures Occurrences(picks, j) == (a + |picks| - j) / n - (a - j) / n
    decreases |picks|
  {
    if picks != [] {
      var m := |picks| - 1;
      OccurrencesClosedForm(picks[..m], a, n, j);
      FloorStep(a + m - j, n);
      ResidueHit(a + m + 1, n, j);
    }
  }

  lemma FloorDifference(x: int, m: nat, n: nat)
    requires n > 0
    ensures m / n <= (x + m) / n - x / n <= (m + n - 1) / n
    ensures m % n == 0 ==> (x + m) / n - x / n == m / n
  {
    var q, r, u, v := x / n, x % n, m / n, m % n;
    assert x == q * n + r && m == u * n + v;
    assert x + m == (q + u) * n + (r + v);
    if r + v < n {
      DivModUnique(x + m, n, q + u, r + v);
    } else {
      assert x + m == (q + u + 1) * n + (r + v - n);
      DivModUnique(x + m, n, q + u + 1, r + v - n);
    }
    if v == 0 {
      DivModUnique(m + n - 1, n, u, n - 1);
    } else {
      assert m + n - 1 == (u + 1) * n + (v - 1);
      DivModUnique(m + n - 1, n, u + 1, v - 1);
    }
  }

  lemma PickBeforeWrap(count: nat, c: nat)
    requires count > 0 && c < COUNTER_MODULUS
    ensures CounterPick(count, c) == c % count
  {
  }

  lemma WindowOfResidues(picks: seq<nat>, count: nat, from: nat, to: nat, j: nat)
    requires j < count && from <= to <= |picks|
    requires forall i :: from <= i < to ==> picks[i] == (i + 1) % count
    ensures var k := Occurrences(picks[from..to], j);
      && (to - from) / count <= k <= (to - from + count - 1) / count
      && ((to - from) % count == 0 ==> k == (to - from) / count)
  {
    OccurrencesClosedForm(picks[from..to], from, count, j);
    FloorDifference(from - j, to - from, count);
  }

  // In every run without counter wrap, any window of m consecutive picks gives
  // each of n clients m / n of them, rounded down or up; exactly k when m == k n.
  lemma RoundRobinIsFair(count: nat, events: seq<Event>, from: nat, to: nat, j: nat)
    requires Legal(Start(count), events) && j < count
    requires from <= to <= |Run(Start(count), events).rotated| < COUNTER_MODULUS
    ensures var k := Occurrences(Run(Start(count), events).rotated[from..to], j);
      && (to - from) / count <= k <= (to - from + count - 1) / count
      && ((to - from) % count == 0 ==> k == (to - from) / count)
  {
    RunKeepsInv(Start(count), events);
    var rotated := Run(Start(count), events).rotated;
    forall i | 0 <= i < |rotated|
      ensures rotated[i] == (i + 1) % count
    {
      PickBeforeWrap(count, i + 1);
    }
    WindowOfResidues(rotated, count, from, to, j);
  }

  // ---- past the wrap of the counter

  ghost predicate FairWindow(picks: seq<nat>, count: nat)
    requires count > 0
  {
    forall j :: 0 <= j < count ==> |picks| / count <= Occurrences(picks, j) <= (|picks| + count - 1) / count
  }

  // Every window of every run, of any length, is fair.
  ghost predicate FairForever(count: nat)
    requires count > 0
  {
    forall events, from, to ::
      Legal(Start(count), events) && 0 <= from <= to <= |Run(Start(count), events).rotated| ==>
        FairWindow(Run(Start(count), events).rotated[from..to], count)
  }

  // Dropping a multiple of the modulus keeps the residue.
  lemma ResidueOfWrapped(c: nat, m: nat, n: nat)
    requires m > 0 && n > 0 && m % n == 0
    ensures (c % m) % n == c % n
  {
    var q, k := c / m, m / n;
    var r := c % m;
    assert c == q * m + r && m == k * n;
    assert q * m == (q * k) * n by {
      assert q * (k * n) == (q * k) * n;
    }
    assert r == (r / n) * n + r % n;
    assert (q * k) * n + (r / n) * n == (q * k + r / n) * n;
    DivModUnique(c, n, q * k + r / n, r % n);
  }

  lemma {:induction false} CountedOnce(picks: seq<nat>, j: nat, i: nat)
    requires i < |picks| && picks[i] == j
    ensures Occurrences(picks, j) >= 1
    decreases |picks|
  {
    if i < |picks| - 1 {
      CountedOnce(picks[..|picks| - 1], j, i);
    }
  }

  // A residue that comes up at two places is counted twice.
  lemma {:induction false} CountedTwice(picks: seq<nat>, j: nat, i: nat, i': nat)
    requires i < i' < |picks| && picks[i] == j && picks[i'] == j
    ensures Occurrences(picks, j) >= 2
    decreases |picks|
  {
    var rest := picks[..|picks| - 1];
    if i' < |picks| - 1 {
      CountedTwice(rest, j, i, i');
    } else {
      CountedOnce(rest, j, i);
    }
  }

  // n calls of Get, one after the other.
  function Calls(n: nat): seq<Event> {
    if n == 0 then [] else [GetMiss, GetCount] + Calls(n - 1)
  }

  lemma {:induction false} CallsRotate(s: State, n: nat)
    requires Length(s) > 0 && s.sticky == -1
    ensures Legal(s, Calls(n))
    ensures |Run(s, Calls(n)).rotated| == |s.rotated| + n
    decreases n
  {
    if n > 0 {
      var t := Step(Step(s, GetMiss), GetCount);
      CallsRotate(t, n - 1);
      assert Calls(n)[1..][1..] == Calls(n - 1);
      assert Calls(n)[1..][0] == GetCount;
      assert Legal(Step(s, GetMiss), Calls(n)[1..]);
    }
  }

  lemma PicksAtWrap(count: nat)
    requires count > 0 && count < COUNTER_MODULUS
    ensures var m := COUNTER_MODULUS % count;
            CounterPick(count, COUNTER_MODULUS) == 0 && (m > 0 ==> CounterPick(count, COUNTER_MODULUS - m) == 0)
  {
    var q, m := COUNTER_MODULUS / count, COUNTER_MODULUS % count;
    assert COUNTER_MODULUS == q * count + m;
    DivModUnique(COUNTER_MODULUS - m, count, q, 0);
    DivModUnique(0, count, 0, 0);
    if m > 0 {
      PickBeforeWrap(count, COUNTER_MODULUS - m);
    }
  }

  // With m = 2^64 mod n nonzero, client 0 is picked m calls before the wrap and
  // again at it: twice in n calls.
  lemma UnfairAtWrap(count: nat, picks: seq<nat>)
    requires count > 0 && COUNTER_MODULUS % count != 0 && count < COUNTER_MODULUS
    requires |picks| >= COUNTER_MODULUS + count
    requires forall i :: 0 <= i < |picks| ==> picks[i] == CounterPick(count, i + 1)
    ensures var from := COUNTER_MODULUS - COUNTER_MODULUS % count - 1;
            from >= 0 && !FairWindow(picks[from..from + count], count)
  {
    var m := COUNTER_MODULUS % count;
    var from := COUNTER_MODULUS - m - 1;
    PicksAtWrap(count);
    hide CounterPick;
    var window := picks[from..from + count];
    assert window[0] == picks[from] == 0;
    assert window[m] == picks[from + m] == 0;
    CountedTwice(window, 0, 0, m);
    DivModUnique(count + count - 1, count, 1, count - 1);
  }

  lemma FairWhenDividing(count: nat, events: seq<Event>, from: nat, to: nat)
    requires count > 0 && COUNTER_MODULUS % count == 0
    requires Legal(Start(count), events) && from <= to <= |Run(Start(count), events).rotated|
    ensures FairWindow(Run(Start(count), events).rotated[from..to], count)
  {
    RunKeepsInv(Start(count), events);
    var rotated := Run(Start(count), events).rotated;
    forall i | from <= i < to
      ensures rotated[i] == (i + 1) % count
    {
      ResidueOfWrapped(i + 1, COUNTER_MODULUS, count);
    }
    forall j: nat | j < count
      ensures var k := Occurrences(rotated[from..to], j);
              (to - from) / count <= k <= (to - from + count - 1) / count
    {
      WindowOfResidues(rotated, count, from, to, j);
    }
  }

  // The rotation is fair in every window of every run, the wrap of the 64-bit
  // counter included, exactly when the number of clients divides 2^64.
  lemma WrapKeepsRotationIff(count: nat)
    requires 0 < count < COUNTER_MODULUS
    ensures FairForever(count) <==> 0x1_0000_0000_0000_0000 % count == 0
  {
    if COUNTER_MODULUS % count == 0 {
      forall events, from: int, to: int |
          Legal(Start(count), events) && 0 <= from <= to <= |Run(Start(count), events).rotated|
        ensures FairWindow(Run(Start(count), events).rotated[from..to], count)
      {
        FairWhenDividing(count, events, from, to);
      }
    } else {
      var events := Calls(COUNTER_MODULUS + count);
      CallsRotate(Start(count), COUNTER_MODULUS + count);
      RunKeepsInv(Start(count), events);
      UnfairAtWrap(count, Run(Start(count), events).rotated);
    }
  }

  // ---- the object: whole calls, recorded as the steps they consist of

  class ProcessorPool {
    var clients: seq<string>    // by address
    var current: nat
    var sticky: int
    ghost var log: State

    ghost predicate Valid()
      reads this
    {
      && Inv(log) && log.counting == 0 && log.storing == []
      && log.current == current && log.sticky == sticky
      && Length(log) == |clients|
    }

    constructor (addrs: seq<string>)
      ensures Valid() && clients == addrs && log == Start(|addrs|)
    {
      clients, current, sticky := addrs, 0, -1;
      log := Start(|addrs|);
    }

    // A set sticky index receives the call; otherwise the counter moves on.
    method Get() returns (client: Option<string>)
      requires Valid()
      modifies this`current, this`log
      ensures Valid()
      ensures client.None? <==> clients == []
      ensures client.None? ==> log == old(log)
      ensures client.Some? && sticky >= 0 ==>
                client.value == clients[sticky] && log == Step(old(log), GetPinned)
      ensures client.Some? && sticky < 0 ==>
                && client.value == clients[current % |clients|]
                && Enabled(old(log), GetMiss) && log == Step(Step(old(log), GetMiss), GetCount)
    {
      if |clients| == 0 {
        return None;
      }
      var s := sticky;
      if s >= 0 && s < |clients| {
        StepKeepsInv(log, GetPinned);
        log := Step(log, GetPinned);
        return Some(clients[s]);
      }
      StepKeepsInv(log, GetMiss);
      StepKeepsInv(Step(log, GetMiss), GetCount);
      current := (current + 1) % COUNTER_MODULUS;
      log := Step(Step(log, GetMiss), GetCount);
      return Some(clients[current % |clients|]);
    }

    // Any negative index clears the pin; one past the end is refused.
    method SetSticky(idx: int) returns (ok: bool)
      requires Valid() && |clients| < 0x8000_0000
      modifies this`sticky, this`log
      ensures Valid()
      ensures ok <==> idx < |clients|
      ensures sticky == if !ok then old(sticky) else if idx < 0 then -1 else idx
      ensures log == old(log).(sticky := sticky)
    {
      if idx >= |clients| {
        return false;
      }
      StepKeepsInv(log, SetCheck(idx));
      var checked := Step(log, SetCheck(idx));
      StepKeepsInv(checked, SetStore(0));
      log := Step(checked, SetStore(0));
      if idx < 0 {
        sticky := -1;
        return true;
      }
      sticky := idx;
      return true;
    }

    method Close()
      requires Valid()
      modifies this`clients, this`log
      ensures Valid() && clients == [] && log == Step(old(log), CloseAll)
    {
      StepKeepsInv(log, CloseAll);
      log := Step(log, CloseAll);
      clients := [];
    }
  }
}
