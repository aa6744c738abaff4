// The server's atomic counters under any interleaving of stream sessions. Each
// event is one atomic operation of one session; `published` records every peak
// value a session has started to publish, `logs` each session's own operations.
module SharedStats {
  import opened Common
  import Streams = Session

  // Where a session is between its atomic operations.
  datatype Pc =
    | Idle
    | BetweenCounters                              // total counted, mode not yet
    | Publishing(expected: nat, current: nat)      // inside the compare-exchange loop

  // `slot` is the place of the session's log.
  datatype Session = Session(useArena: bool, pc: Pc, slot: nat)

  datatype Log = Log(useArena: bool, events: seq<Event>)

  datatype Stats = Stats(active: int, total: nat, arenaFrames: nat, heapFrames: nat, resets: nat, peak: nat)

  datatype State = State(stats: Stats, sessions: map<nat, Session>, published: set<nat>, logs: seq<Log>)

  datatype Event =
    | Open(id: nat, useArena: bool)
    | CountTotal(id: nat)
    | CountMode(id: nat)
    | CountReset(id: nat)
    | LoadPeak(id: nat, current: nat)
    | TryExchange(id: nat, spurious: bool)
    | Close(id: nat)

  const START := State(Stats(0, 0, 0, 0, 0, 0), map[], {}, [])

  predicate At(s: State, id: nat, pc: Pc) {
    id in s.sessions && s.sessions[id].pc == pc
  }

  predicate Enabled(s: State, e: Event) {
    match e
    case Open(id, _) => id !in s.sessions
    case CountTotal(id) => At(s, id, Idle)
    case CountMode(id) => At(s, id, BetweenCounters)
    case CountReset(id) => At(s, id, Idle) && s.sessions[id].useArena
    case LoadPeak(id, _) => At(s, id, Idle) && s.sessions[id].useArena
    case TryExchange(id, _) => id in s.sessions && s.sessions[id].pc.Publishing?
    case Close(id) => At(s, id, Idle)
  }

  function Move(s: State, id: nat, pc: Pc): map<nat, Session>
    requires id in s.sessions
  {
    s.sessions[id := s.sessions[id].(pc := pc)]
  }

  // Put an operation on the session's log.
  function Noted(s: State, id: nat, e: Event): seq<Log>
    requires id in s.sessions
  {
    var k := s.sessions[id].slot;
    if k < |s.logs| then s.logs[k := s.logs[k].(events := s.logs[k].events + [e])] else s.logs
  }

  function Step(s: State, e: Event): State
    requires Enabled(s, e)
  {
    var n := s.stats;
    match e
    case Open(id, useArena) =>
      s.(stats := n.(active := n.active + if useArena then 1 else 0),
         sessions := s.sessions[id := Session(useArena, Idle, |s.logs|)],
         logs := s.logs + [Log(useArena, [])])
    case CountTotal(id) =>
      s.(stats := n.(total := n.total + 1), sessions := Move(s, id, BetweenCounters))
    case CountMode(id) =>
      s.(stats := if s.sessions[id].useArena then n.(arenaFrames := n.arenaFrames + 1)
                  else n.(heapFrames := n.heapFrames + 1),
         sessions := Move(s, id, Idle),
         logs := Noted(s, id, e))
    case CountReset(id) =>
      s.(stats := n.(resets := n.resets + 1), logs := Noted(s, id, e))
    case LoadPeak(id, current) =>
      s.(sessions := Move(s, id, Publishing(n.peak, current)), published := s.published + {current},
         logs := Noted(s, id, e))
    case TryExchange(id, spurious) =>
      var Publishing(expected, current) := s.sessions[id].pc;
      if current <= expected then s.(sessions := Move(s, id, Idle))
      else if n.peak == expected && !spurious then
        s.(stats := n.(peak := current), sessions := Move(s, id, Idle))
      else s.(sessions := Move(s, id, Publishing(n.peak, current)))
    case Close(id) =>
      s.(stats := n.(active := n.active - if s.sessions[id].useArena then 1 else 0),
         sessions := s.sessions - {id})
  }

  predicate Legal(s: State, events: seq<Event>)
    decreases |events|
  {
    events == [] || (Enabled(s, events[0]) && Legal(Step(s, events[0]), events[1..]))
  }

  function Run(s: State, events: seq<Event>): State
    requires Legal(s, events)
    decreases |events|
  {
    if events == [] then s else Run(Step(s, events[0]), events[1..])
  }

  // ---- the invariant

  function OpenArenas(s: State): set<nat> {
    set id | id in s.sessions && s.sessions[id].useArena
  }

  function MidCount(s: State): set<nat> {
    set id | id in s.sessions && s.sessions[id].pc == BetweenCounters
  }

  // Some session is still in its loop with v.
  ghost predicate InFlight(s: State, v: nat) {
    exists id :: id in s.sessions && s.sessions[id].pc.Publishing? && s.sessions[id].pc.current == v
  }

  ghost predicate Inv(s: State) {
    && s.stats.active == |OpenArenas(s)|
    && s.stats.total == s.stats.arenaFrames + s.stats.heapFrames + |MidCount(s)|
    && (forall v :: v in s.published ==> v <= s.stats.peak || InFlight(s, v))
    && (s.stats.peak == 0 || s.stats.peak in s.published)
    && (forall id :: id in s.sessions && s.sessions[id].pc.Publishing? ==>
          s.sessions[id].pc.expected <= s.stats.peak && s.sessions[id].pc.current in s.published)
  }

  // How the two counted sets change when one session moves or leaves.
  lemma CountsAfterUpdate(s: State, t: State, id: nat, x: Session)
    requires t.sessions == s.sessions[id := x]
    ensures OpenArenas(t) == if x.useArena then OpenArenas(s) + {id} else OpenArenas(s) - {id}
    ensures MidCount(t) == if x.pc == BetweenCounters then MidCount(s) + {id} else MidCount(s) - {id}
  {
  }

  // Opening and closing change who is open; nothing else does.
  lemma OpenArenasAfter(s: State, e: Event)
    requires Enabled(s, e)
    ensures var t := Step(s, e);
      OpenArenas(t) == match e
        case Open(id, useArena) => if useArena then OpenArenas(s) + {id} else OpenArenas(s)
        case Close(id) => OpenArenas(s) - {id}
        case _ => OpenArenas(s)
  {
    var t := Step(s, e);
    if !e.Close? {
      CountsAfterUpdate(s, t, e.id, t.sessions[e.id]);
    }
  }

  lemma StepKeepsOpen(s: State, e: Event)
    requires Enabled(s, e) && s.stats.active == |OpenArenas(s)|
    ensures Step(s, e).stats.active == |OpenArenas(Step(s, e))|
  {
    OpenArenasAfter(s, e);
    if e.Open? {
      assert e.id !in OpenArenas(s);
    } else if e.Close? {
      assert e.id in OpenArenas(s) <==> s.sessions[e.id].useArena;
    } else {
      assert Step(s, e).stats.active == s.stats.active;
    }
  }

  lemma MidCountAfter(s: State, e: Event)
    requires Enabled(s, e)
    ensures var t := Step(s, e);
      MidCount(t) == match e
        case CountTotal(id) => MidCount(s) + {id}
        case CountMode(id) => MidCount(s) - {id}
        case _ => MidCount(s)
  {
    hide Noted;
    var t := Step(s, e);
    if !e.Close? && !e.CountReset? {
      CountsAfterUpdate(s, t, e.id, t.sessions[e.id]);
    }
  }

  lemma StepKeepsTotal(s: State, e: Event)
    requires Enabled(s, e) && s.stats.total == s.stats.arenaFrames + s.stats.heapFrames + |MidCount(s)|
    ensures var n := Step(s, e).stats; n.total == n.arenaFrames + n.heapFrames + |MidCount(Step(s, e))|
  {
    MidCountAfter(s, e);
    if e.CountTotal? {
      assert e.id !in MidCount(s);
    } else if e.CountMode? {
      assert e.id in MidCount(s);
    }
    hide MidCount;
    hide Noted;
  }

  lemma StepKeepsPeak(s: State, e: Event, v: nat)
    requires Inv(s) && Enabled(s, e) && v in Step(s, e).published
    ensures v <= Step(s, e).stats.peak || InFlight(Step(s, e), v)
  {
    var t := Step(s, e);
    if v > t.stats.peak {
      if v in s.published {
        var id :| id in s.sessions && s.sessions[id].pc.Publishing? && s.sessions[id].pc.current == v;
        assert id in t.sessions && t.sessions[id].pc.Publishing? && t.sessions[id].pc.current == v;
      } else {
        assert t.sessions[e.id].pc.current == v;
      }
    }
  }

  lemma StepKeepsInv(s: State, e: Event)
    requires Inv(s) && Enabled(s, e)
    ensures Inv(Step(s, e))
    ensures s.stats.peak <= Step(s, e).stats.peak
  {
    StepKeepsOpen(s, e);
    StepKeepsTotal(s, e);
    forall v | v in Step(s, e).published
      ensures v <= Step(s, e).stats.peak || InFlight(Step(s, e), v)
    {
      StepKeepsPeak(s, e, v);
    }
  }

  // ---- over every interleaving

  lemma {:induction false} RunKeepsInv(s: State, events: seq<Event>)
    requires Inv(s) && Legal(s, events)
    ensures Inv(Run(s, events))
    ensures s.stats.peak <= Run(s, events).stats.peak
    decreases |events|
  {
    if events != [] {
      StepKeepsInv(s, events[0]);
      RunKeepsInv(Step(s, events[0]), events[1..]);
    }
  }

  // The server's counters after any interleaving from start-up.
  lemma CountersAreExact(events: seq<Event>)
    requires Legal(START, events)
    ensures var t := Run(START, events);
      && t.stats.active == |OpenArenas(t)|
      && t.stats.total == t.stats.arenaFrames + t.stats.heapFrames + |MidCount(t)|
      && (forall v :: v in t.published && !InFlight(t, v) ==> v <= t.stats.peak)
      && (t.stats.peak == 0 || t.stats.peak in t.published)
  {
    assert OpenArenas(START) == {} && MidCount(START) == {};
    RunKeepsInv(START, events);
  }

  // With no exchange loop in progress the peak is the maximum ever published.
  lemma QuietPeakIsMaximum(events: seq<Event>)
    requires Legal(START, events)
    requires forall id :: id in Run(START, events).sessions ==> !Run(START, events).sessions[id].pc.Publishing?
    ensures var t := Run(START, events);
      && (forall v :: v in t.published ==> v <= t.stats.peak)
      && (t.stats.peak == 0 || t.stats.peak in t.published)
  {
    CountersAreExact(events);
    var t := Run(START, events);
    forall v | v in t.published
      ensures v <= t.stats.peak
    {
      assert !InFlight(t, v);
    }
  }

  // Once every session has closed, no arena is counted and every frame has a mode.
  lemma AllClosed(events: seq<Event>)
    requires Legal(START, events) && Run(START, events).sessions == map[]
    ensures var n := Run(START, events).stats; n.active == 0 && n.total == n.arenaFrames + n.heapFrames
  {
    CountersAreExact(events);
    var t := Run(START, events);
    assert OpenArenas(t) == {} && MidCount(t) == {};
  }

  // A session left alone is out of its loop after two tries that do not fail
  // spuriously, and after one try, whatever it is, if its value is not above the
  // peak it has seen.
  lemma LoopEndsAlone(s: State, id: nat, spurious: bool)
    requires Inv(s) && id in s.sessions && s.sessions[id].pc.Publishing?
    ensures var Publishing(expected, current) := s.sessions[id].pc;
      var t := Step(s, TryExchange(id, spurious));
      if current <= expected then At(t, id, Idle) && t.stats == s.stats
      else if s.stats.peak == expected && !spurious then At(t, id, Idle) && t.stats == s.stats.(peak := current)
      else
        && t.stats == s.stats && Enabled(t, TryExchange(id, false))
        && var u := Step(t, TryExchange(id, false));
        && At(u, id, Idle)
        && u.stats == s.stats.(peak := if s.stats.peak < current then current else s.stats.peak)
  {
  }

  // ---- streams add up

  // What a stream's own operations contribute.
  function Frames(events: seq<Event>): nat {
    if events == [] then 0 else Frames(Front(events)) + if Last(events).CountMode? then 1 else 0
  }

  function Resets(events: seq<Event>): nat {
    if events == [] then 0 else Resets(Front(events)) + if Last(events).CountReset? then 1 else 0
  }

  function Peak(events: seq<Event>): nat {
    if events == [] then 0 else Max(Peak(Front(events)), if Last(events).LoadPeak? then Last(events).current else 0)
  }

  function Counters(n: Stats): Streams.Tally {
    Streams.Tally(n.total, n.arenaFrames, n.heapFrames, n.resets, n.active, n.peak)
  }

  // One stream after the other, each adding what the contract of a single stream
  // says.
  function InSequence(logs: seq<Log>): Streams.Tally {
    if logs == [] then Streams.Tally(0, 0, 0, 0, 0, 0)
    else
      var Log(useArena, events) := Last(logs);
      Streams.After(InSequence(Front(logs)), useArena, Frames(events), Resets(events), 0, Peak(events))
  }

  // One more operation of a stream of the given mode.
  function Plus(t: Streams.Tally, useArena: bool, e: Event): Streams.Tally {
    match e
    case CountMode(_) => Streams.After(t, useArena, 1, 0, 0, 0)
    case CountReset(_) => Streams.After(t, useArena, 0, 1, 0, 0)
    case LoadPeak(_, current) => Streams.After(t, useArena, 0, 0, 0, current)
    case _ => t
  }

  // The contributions commute.
  lemma PlusCommutes(t: Streams.Tally, useArena: bool, e: Event, useArena': bool, frames: nat, resets: nat, peak: nat)
    requires e.CountMode? || e.CountReset? || e.LoadPeak?
    ensures Streams.After(Plus(t, useArena, e), useArena', frames, resets, 0, peak)
         == Plus(Streams.After(t, useArena', frames, resets, 0, peak), useArena, e)
  {
  }

  lemma LastAdds(t: Streams.Tally, useArena: bool, events: seq<Event>, e: Event)
    requires e.CountMode? || e.CountReset? || e.LoadPeak?
    ensures var more := events + [e];
            Streams.After(t, useArena, Frames(more), Resets(more), 0, Peak(more))
            == Plus(Streams.After(t, useArena, Frames(events), Resets(events), 0, Peak(events)), useArena, e)
  {
    assert Front(events + [e]) == events && Last(events + [e]) == e;
  }

  lemma {:induction false} OperationAdds(logs: seq<Log>, k: nat, e: Event)
    requires k < |logs| && (e.CountMode? || e.CountReset? || e.LoadPeak?)
    ensures InSequence(logs[k := logs[k].(events := logs[k].events + [e])])
         == Plus(InSequence(logs), logs[k].useArena, e)
    decreases |logs|
  {
    hide Frames;
    hide Resets;
    hide Peak;
    hide Plus;
    var log := logs[k];
    var logs' := logs[k := log.(events := log.events + [e])];
    if k == |logs| - 1 {
      assert Front(logs') == Front(logs);
      LastAdds(InSequence(Front(logs)), log.useArena, log.events, e);
    } else {
      assert Front(logs') == Front(logs)[k := log.(events := log.events + [e])];
      OperationAdds(Front(logs), k, e);
      var Log(useArena, events) := Last(logs);
      PlusCommutes(InSequence(Front(logs)), log.useArena, e, useArena, Frames(events), Resets(events), Peak(events));
    }
  }

  lemma OpeningAddsNothing(logs: seq<Log>, useArena: bool)
    ensures InSequence(logs + [Log(useArena, [])]) == InSequence(logs)
  {
    assert Front(logs + [Log(useArena, [])]) == logs;
  }

  // The counters and the logs tell the same story.
  ghost predicate Logged(s: State) {
    var t := InSequence(s.logs);
    && (forall id :: id in s.sessions ==>
          && s.sessions[id].slot < |s.logs|
          && s.logs[s.sessions[id].slot].useArena == s.sessions[id].useArena)
    && t.arenaFrames == s.stats.arenaFrames && t.heapFrames == s.stats.heapFrames
    && t.total == s.stats.arenaFrames + s.stats.heapFrames
    && t.resets == s.stats.resets && t.active == 0
    && (forall v :: v in s.published ==> v <= t.peak)
    && (t.peak == 0 || t.peak in s.published)
  }

  lemma NotedAdds(s: State, id: nat, e: Event)
    requires Logged(s) && id in s.sessions && (e.CountMode? || e.CountReset? || e.LoadPeak?)
    ensures InSequence(Noted(s, id, e)) == Plus(InSequence(s.logs), s.sessions[id].useArena, e)
    ensures |Noted(s, id, e)| == |s.logs|
    ensures forall k :: 0 <= k < |s.logs| ==> Noted(s, id, e)[k].useArena == s.logs[k].useArena
  {
    hide InSequence;
    OperationAdds(s.logs, s.sessions[id].slot, e);
  }

  lemma StepKeepsLogged(s: State, e: Event)
    requires Logged(s) && Enabled(s, e)
    ensures Logged(Step(s, e))
  {
    hide InSequence;
    hide Noted;
    if e.Open? {
      OpeningAddsNothing(s.logs, e.useArena);
    } else if e.CountMode? || e.CountReset? || e.LoadPeak? {
      NotedAdds(s, e.id, e);
    }
  }

  lemma {:induction false} RunKeepsLogged(s: State, events: seq<Event>)
    requires Logged(s) && Legal(s, events)
    ensures Logged(Run(s, events))
    decreases |events|
  {
    hide Logged;
    hide Step;
    hide Enabled;
    if events != [] {
      StepKeepsLogged(s, events[0]);
      RunKeepsLogged(Step(s, events[0]), events[1..]);
    }
  }

  lemma AtStart()
    ensures Logged(START)
  {
  }

  lemma LoggedMeans(s: State)
    requires Logged(s) && s.stats.active == 0 && s.stats.total == s.stats.arenaFrames + s.stats.heapFrames
    requires (forall v :: v in s.published ==> v <= s.stats.peak) && (s.stats.peak == 0 || s.stats.peak in s.published)
    ensures Counters(s.stats) == InSequence(s.logs)
  {
    hide InSequence;
  }

  // However the streams interleave, once all have closed the counters are what
  // the same streams leave when they run one after the other.
  lemma StreamsAddUp(events: seq<Event>)
    requires Legal(START, events) && Run(START, events).sessions == map[]
    ensures Counters(Run(START, events).stats) == InSequence(Run(START, events).logs)
  {
    AtStart();
    hide Logged;
    hide Legal;
    hide Run;
    hide InSequence;
    AllClosed(events);
    QuietPeakIsMaximum(events);
    RunKeepsLogged(START, events);
    LoggedMeans(Run(START, events));
  }
}
