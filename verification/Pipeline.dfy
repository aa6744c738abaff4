// The gateway's streaming pipeline: splitter, chunk channel, sender, gRPC stream,
// receiver, result channel and HTTP writer, each advancing by its own atomic
// steps in any order. Frames are named by their number in the request body.
module Pipeline {
  import opened Common

  const CHUNK_SLOTS: nat := 10
  const RESULT_SLOTS: nat := 100

  datatype Reader = Reading | HoldingFrame(frame: nat) | ReaderDone
  datatype Sender = NotStarted | Taking | Sending(frame: nat) | SenderDone(failed: bool)
  datatype Receiver = Opening | Receiving | HoldingResult(frame: nat) | AwaitingSender
                    | ClosingErrs | ClosingResults | ReceiverDone
  datatype Writer = Writing | DoneByResults | DoneByErrs

  // The splitter and the chunk channel; the channel is closed when the splitter
  // is done. `lost` is what a stage dropped.
  datatype Intake = Intake(read: nat, reader: Reader, chunks: seq<nat>, lost: seq<nat>)

  // The sender and the frames on the gRPC stream whose answers are still to come.
  datatype Outgoing = Outgoing(sender: Sender, sent: nat, wire: seq<nat>, lost: seq<nat>)

  // The receiver, the result channel and the error channel.
  datatype Incoming = Incoming(receiver: Receiver, sawEof: bool, results: seq<nat>, errs: nat, lost: seq<nat>)

  // The HTTP response and the request context.
  datatype Response = Response(written: seq<nat>, writer: Writer, cancelled: bool)

  // What the outside brings: the whole frames of the request body, and how many
  // of them the server answers before its side of the stream ends.
  datatype Load = Load(frames: nat, answers: nat)

  datatype State = State(up: Intake, out: Outgoing, down: Incoming, http: Response)

  datatype Event =
    | ReadFrame | EndOfBody | PushChunk | ReadCancelled
    | OpenStream | OpenFailed
    | TakeChunk | TakeClosed | SendOk | SendFailed
    | Receive | ReceiveEof | ReceiveError | PushResult | ResultCancelled
    | SenderReported | CloseErrs | CloseResults
    | WriteResult | SeeResultsClosed | SeeErrs
    | ClientGone

  const START := State(Intake(0, Reading, [], []), Outgoing(NotStarted, 0, [], []),
                       Incoming(Opening, false, [], 0, []), Response([], Writing, false))

  // defer closes errs first, then results
  predicate ErrsClosed(r: Receiver) {
    r == ClosingResults || r == ReceiverDone
  }

  predicate ResultsClosed(r: Receiver) {
    r == ReceiverDone
  }

  predicate Closing(r: Receiver) {
    r == ClosingErrs || ErrsClosed(r)
  }

  // Frames whose answers have come.
  function Answered(out: Outgoing): int {
    out.sent - |out.wire|
  }

  predicate Enabled(s: State, e: Event, load: Load) {
    match e
    case ReadFrame => s.up.reader == Reading && s.up.read < load.frames
    case EndOfBody => s.up.reader == Reading
    case PushChunk => s.up.reader.HoldingFrame? && |s.up.chunks| < CHUNK_SLOTS
    case ReadCancelled => s.up.reader.HoldingFrame? && s.http.cancelled
    case OpenStream => s.down.receiver == Opening && s.out.sender == NotStarted
    case OpenFailed => s.down.receiver == Opening
    case TakeChunk => s.out.sender == Taking && s.up.chunks != []
    case TakeClosed => s.out.sender == Taking && s.up.chunks == [] && s.up.reader == ReaderDone
    case SendOk => s.out.sender.Sending?
    case SendFailed => s.out.sender.Sending?
    case Receive => s.down.receiver == Receiving && s.out.wire != [] && Answered(s.out) < load.answers
    // the server ends the stream cleanly only after CloseSend and the last answer
    case ReceiveEof => s.down.receiver == Receiving && s.out.sender == SenderDone(false) && s.out.wire == []
    case ReceiveError => s.down.receiver == Receiving
    case PushResult => s.down.receiver.HoldingResult? && |s.down.results| < RESULT_SLOTS
    case ResultCancelled => s.down.receiver.HoldingResult? && s.http.cancelled
    case SenderReported => s.down.receiver == AwaitingSender && s.out.sender.SenderDone?
    case CloseErrs => s.down.receiver == ClosingErrs
    case CloseResults => s.down.receiver == ClosingResults
    case WriteResult => s.http.writer == Writing && s.down.results != []
    case SeeResultsClosed => s.http.writer == Writing && s.down.results == [] && ResultsClosed(s.down.receiver)
    case SeeErrs => s.http.writer == Writing && (s.down.errs > 0 || ErrsClosed(s.down.receiver))
    case ClientGone => true
  }

  function Step(s: State, e: Event, load: Load): State
    requires Enabled(s, e, load)
  {
    var State(up, out, down, http) := s;
    match e
    case ReadFrame => s.(up := up.(reader := HoldingFrame(up.read), read := up.read + 1))
    case EndOfBody => s.(up := up.(reader := ReaderDone))
    case PushChunk => s.(up := up.(reader := Reading, chunks := up.chunks + [up.reader.frame]))
    case ReadCancelled => s.(up := up.(reader := ReaderDone, lost := [up.reader.frame]))
    case OpenStream => s.(down := down.(receiver := Receiving), out := out.(sender := Taking))
    case OpenFailed => s.(down := down.(receiver := ClosingErrs, errs := down.errs + 1))
    case TakeChunk => s.(out := out.(sender := Sending(up.chunks[0])), up := up.(chunks := up.chunks[1..]))
    case TakeClosed => s.(out := out.(sender := SenderDone(false)))
    case SendOk => s.(out := out.(sender := Taking, wire := out.wire + [out.sender.frame], sent := out.sent + 1))
    case SendFailed => s.(out := out.(sender := SenderDone(true), lost := [out.sender.frame]))
    case Receive => s.(down := down.(receiver := HoldingResult(out.wire[0])), out := out.(wire := out.wire[1..]))
    case ReceiveEof => s.(down := down.(receiver := AwaitingSender, sawEof := true))
    case ReceiveError => s.(down := down.(receiver := ClosingErrs, errs := down.errs + 1))
    case PushResult => s.(down := down.(receiver := Receiving, results := down.results + [down.receiver.frame]))
    case ResultCancelled =>
      s.(down := down.(receiver := ClosingErrs, errs := down.errs + 1, lost := [down.receiver.frame]))
    case SenderReported =>
      s.(down := down.(receiver := ClosingErrs, errs := down.errs + if out.sender.failed then 1 else 0))
    case CloseErrs => s.(down := down.(receiver := ClosingResults))
    case CloseResults => s.(down := down.(receiver := ReceiverDone))
    case WriteResult =>
      s.(http := http.(written := http.written + [down.results[0]]), down := down.(results := down.results[1..]))
    // returning runs the deferred cancel
    case SeeResultsClosed => s.(http := http.(writer := DoneByResults, cancelled := true))
    case SeeErrs =>
      s.(http := http.(writer := DoneByErrs, cancelled := true),
         down := down.(errs := if down.errs > 0 then down.errs - 1 else 0))
    case ClientGone => s.(http := http.(cancelled := true))
  }

  predicate Legal(s: State, events: seq<Event>, load: Load)
    decreases |events|
  {
    events == [] || (Enabled(s, events[0], load) && Legal(Step(s, events[0], load), events[1..], load))
  }

  function Run(s: State, events: seq<Event>, load: Load): State
    requires Legal(s, events, load)
    decreases |events|
  {
    if events == [] then s else Run(Step(s, events[0], load), events[1..], load)
  }

  // ---- the invariant

  // Frame numbers a, a + 1, .., b - 1.
  function Numbers(a: nat, b: nat): (r: seq<nat>) {
    if a <= b then seq(b - a, i requires 0 <= i => a + i) else []
  }

  function HeldByReader(r: Reader): seq<nat> {
    if r.HoldingFrame? then [r.frame] else []
  }

  function HeldBySender(r: Sender): seq<nat> {
    if r.Sending? then [r.frame] else []
  }

  function HeldByReceiver(r: Receiver): seq<nat> {
    if r.HoldingResult? then [r.frame] else []
  }

  // What the sender is stuck with, oldest of the frames read but not sent.
  function AtSender(out: Outgoing): seq<nat> {
    HeldBySender(out.sender) + out.lost
  }

  // What waits behind the sender.
  function BehindSender(up: Intake): seq<nat> {
    up.chunks + HeldByReader(up.reader) + up.lost
  }

  // Answers received.
  function Received(down: Incoming, http: Response): seq<nat> {
    http.written + down.results + HeldByReceiver(down.receiver) + down.lost
  }

  // How the stages' control states fit together. A stage that dropped an element
  // has stopped for good.
  ghost predicate Control(s: State) {
    && (s.up.lost != [] ==> s.up.reader == ReaderDone)
    && (s.out.lost != [] ==> s.out.sender == SenderDone(true))
    && (s.down.lost != [] ==> Closing(s.down.receiver))
    && (s.out.sender == SenderDone(false) ==> s.up.chunks == [] && s.up.reader == ReaderDone)
    && (s.down.receiver == AwaitingSender ==> s.down.sawEof)
    && (s.down.sawEof ==> s.out.sender == SenderDone(false) && s.out.wire == [] && s.down.lost == []
                          && (s.down.receiver == AwaitingSender || Closing(s.down.receiver)))
    && (s.http.writer == DoneByResults ==> ResultsClosed(s.down.receiver) && s.down.results == [])
    && |s.up.chunks| <= CHUNK_SLOTS && |s.down.results| <= RESULT_SLOTS
    && s.down.errs <= 1 && (s.down.errs > 0 ==> Closing(s.down.receiver))
  }

  ghost predicate Flow(s: State) {
    && s.out.sent <= s.up.read
    && Received(s.down, s.http) + s.out.wire == Numbers(0, s.out.sent)
    && AtSender(s.out) + BehindSender(s.up) == Numbers(s.out.sent, s.up.read)
  }

  ghost predicate Inv(s: State, load: Load) {
    Control(s) && Flow(s) && s.up.read <= load.frames && Answered(s.out) <= load.answers
  }

  lemma NumbersExtend(a: nat, b: nat)
    requires a <= b
    ensures Numbers(a, b + 1) == Numbers(a, b) + [b]
  {
  }

  lemma NumbersFirst(a: nat, b: nat, x: nat, rest: seq<nat>)
    requires a <= b && Numbers(a, b) == [x] + rest
    ensures a < b && x == a && rest == Numbers(a + 1, b)
  {
    assert |Numbers(a, b)| == b - a;
    assert Numbers(a, b)[0] == a;
    assert rest == Numbers(a, b)[1..];
  }

  lemma StepKeepsControl(s: State, e: Event, load: Load)
    requires Control(s) && Enabled(s, e, load)
    ensures Control(Step(s, e, load))
  {
  }

  lemma ReaderFlow(s: State, e: Event, load: Load)
    requires Control(s) && Flow(s) && Enabled(s, e, load)
    requires e == ReadFrame || e == PushChunk || e == ReadCancelled
    ensures Flow(Step(s, e, load))
  {
    hide Numbers;
    var t := Step(s, e, load);
    if e == ReadFrame {
      NumbersExtend(s.out.sent, s.up.read);
      assert BehindSender(t.up) == BehindSender(s.up) + [s.up.read];
      assert AtSender(s.out) + (BehindSender(s.up) + [s.up.read]) == AtSender(s.out) + BehindSender(s.up) + [s.up.read];
    } else {
      assert BehindSender(t.up) == BehindSender(s.up);
    }
  }

  lemma TakeFlow(s: State, load: Load)
    requires Control(s) && Flow(s) && Enabled(s, TakeChunk, load)
    ensures Flow(Step(s, TakeChunk, load))
  {
    hide Numbers;
    var t := Step(s, TakeChunk, load);
    var f := s.up.chunks[0];
    assert s.up.chunks == [f] + s.up.chunks[1..];
    assert AtSender(s.out) == [] && AtSender(t.out) == [f];
    assert BehindSender(s.up) == [f] + BehindSender(t.up);
  }

  lemma SendFlow(s: State, e: Event, load: Load)
    requires Control(s) && Flow(s) && Enabled(s, e, load) && (e == SendOk || e == SendFailed)
    ensures Flow(Step(s, e, load))
  {
    hide Numbers;
    hide BehindSender;
    hide Received;
    var t, f := Step(s, e, load), s.out.sender.frame;
    assert AtSender(s.out) == [f];
    if e == SendOk {
      NumbersFirst(s.out.sent, s.up.read, f, BehindSender(s.up));
      NumbersExtend(0, s.out.sent);
      assert AtSender(t.out) + BehindSender(t.up) == BehindSender(s.up);
      assert Received(s.down, s.http) + (s.out.wire + [f]) == Received(s.down, s.http) + s.out.wire + [f];
    } else {
      assert AtSender(t.out) == [f];
    }
  }

  lemma ReceiveFlow(s: State, load: Load)
    requires Control(s) && Flow(s) && Enabled(s, Receive, load)
    ensures Flow(Step(s, Receive, load))
  {
    hide Numbers;
    hide BehindSender;
    var t, f := Step(s, Receive, load), s.out.wire[0];
    assert AtSender(t.out) == AtSender(s.out);
    assert s.out.wire == [f] + s.out.wire[1..];
    assert Received(t.down, t.http) == Received(s.down, s.http) + [f];
    assert Received(s.down, s.http) + [f] + s.out.wire[1..] == Received(s.down, s.http) + s.out.wire;
  }

  lemma ResultFlow(s: State, e: Event, load: Load)
    requires Control(s) && Flow(s) && Enabled(s, e, load) && (e == PushResult || e == ResultCancelled)
    ensures Flow(Step(s, e, load))
  {
    hide Numbers;
    hide BehindSender;
    hide AtSender;
    assert Received(Step(s, e, load).down, s.http) == Received(s.down, s.http);
  }

  lemma WriteFlow(s: State, load: Load)
    requires Control(s) && Flow(s) && Enabled(s, WriteResult, load)
    ensures Flow(Step(s, WriteResult, load))
  {
    hide Numbers;
    hide BehindSender;
    hide AtSender;
    var t := Step(s, WriteResult, load);
    assert s.down.results == [s.down.results[0]] + s.down.results[1..];
    assert t.http.written + t.down.results == s.http.written + s.down.results;
    assert Received(t.down, t.http) == Received(s.down, s.http);
  }

  // Every other step moves no frame.
  lemma OtherFlow(s: State, e: Event, load: Load)
    requires Control(s) && Flow(s) && Enabled(s, e, load)
    requires e !in {ReadFrame, PushChunk, ReadCancelled, TakeChunk, SendOk, SendFailed,
                    Receive, PushResult, ResultCancelled, WriteResult}
    ensures Flow(Step(s, e, load))
  {
    hide Numbers;
    var t := Step(s, e, load);
    assert AtSender(t.out) == AtSender(s.out);
    assert BehindSender(t.up) == BehindSender(s.up);
    assert Received(t.down, t.http) == Received(s.down, s.http);
    assert t.out.sent == s.out.sent && t.out.wire == s.out.wire && t.up.read == s.up.read;
  }

  lemma StepKeepsInv(s: State, e: Event, load: Load)
    requires Inv(s, load) && Enabled(s, e, load)
    ensures Inv(Step(s, e, load), load)
  {
    hide Flow;
    StepKeepsControl(s, e, load);
    if e == ReadFrame || e == PushChunk || e == ReadCancelled {
      ReaderFlow(s, e, load);
    } else if e == TakeChunk {
      TakeFlow(s, load);
    } else if e == SendOk || e == SendFailed {
      SendFlow(s, e, load);
    } else if e == Receive {
      ReceiveFlow(s, load);
    } else if e == PushResult || e == ResultCancelled {
      ResultFlow(s, e, load);
    } else if e == WriteResult {
      WriteFlow(s, load);
    } else {
      OtherFlow(s, e, load);
    }
  }

  // ---- over every interleaving

  lemma {:induction false} RunKeepsInv(s: State, events: seq<Event>, load: Load)
    requires Inv(s, load) && Legal(s, events, load)
    ensures Inv(Run(s, events, load), load)
    decreases |events|
  {
    hide Inv;
    hide Step;
    hide Enabled;
    if events != [] {
      StepKeepsInv(s, events[0], load);
      RunKeepsInv(Step(s, events[0], load), events[1..], load);
    }
  }

  lemma FromStart(events: seq<Event>, load: Load)
    requires Legal(START, events, load)
    ensures Inv(Run(START, events, load), load)
  {
    hide Legal;
    hide Run;
    assert Numbers(0, 0) == [];
    assert Flow(START);
    RunKeepsInv(START, events, load);
  }

  // Everything in the pipeline, oldest first.
  function Contents(s: State): seq<nat> {
    Received(s.down, s.http) + s.out.wire + (AtSender(s.out) + BehindSender(s.up))
  }

  lemma InvContents(s: State, load: Load)
    requires Inv(s, load)
    ensures Contents(s) == Numbers(0, s.up.read)
    ensures |s.http.written| <= Min(load.frames, load.answers) && s.http.written == Numbers(0, |s.http.written|)
  {
    var k := |s.http.written|;
    var rest := s.down.results + HeldByReceiver(s.down.receiver) + s.down.lost + s.out.wire;
    assert Numbers(0, s.out.sent) + Numbers(s.out.sent, s.up.read) == Numbers(0, s.up.read);
    assert s.http.written + rest == Received(s.down, s.http) + s.out.wire;
    assert |Numbers(0, s.out.sent)| == s.out.sent;
    assert |Received(s.down, s.http)| == Answered(s.out);
    assert s.http.written == Numbers(0, s.out.sent)[..k];
  }

  // Conservation: everything read is somewhere in the pipeline, in order, with
  // the channel bounds respected; the HTTP response is the answers to the first
  // k frames, k being at most the number the server answered.
  lemma PipelineIsFifo(events: seq<Event>, load: Load)
    requires Legal(START, events, load)
    ensures var s := Run(START, events, load);
      && Contents(s) == Numbers(0, s.up.read)
      && s.up.read <= load.frames && |s.up.chunks| <= 10 && |s.down.results| <= 100
      && |s.http.written| <= Min(load.frames, load.answers) && s.http.written == Numbers(0, |s.http.written|)
  {
    FromStart(events, load);
    var s := Run(START, events, load);
    InvContents(s, load);
  }

  lemma StoppedStep(s: State, e: Event, load: Load)
    requires Enabled(s, e, load) && Closing(s.down.receiver)
    ensures var t := Step(s, e, load);
      && Closing(t.down.receiver)
      && t.http.written + t.down.results == s.http.written + s.down.results
      && t.down.lost == s.down.lost
  {
    if e == WriteResult {
      assert s.down.results == [s.down.results[0]] + s.down.results[1..];
    }
  }

  lemma {:induction false} StoppedStays(s: State, more: seq<Event>, load: Load)
    requires Legal(s, more, load) && Closing(s.down.receiver)
    ensures var t := Run(s, more, load);
            t.http.written + t.down.results == s.http.written + s.down.results && t.down.lost == s.down.lost
    decreases |more|
  {
    hide Step;
    hide Enabled;
    if more != [] {
      StoppedStep(s, more[0], load);
      StoppedStays(Step(s, more[0], load), more[1..], load);
    }
  }

  // Failures the receiver reports.
  function Failures(events: seq<Event>): nat {
    if events == [] then 0 else FailuresIn(events[0]) + Failures(events[1..])
  }

  function FailuresIn(e: Event): nat {
    if e == OpenFailed || e == ReceiveError || e == ResultCancelled then 1 else 0
  }

  // The client went away or the handler returned.
  predicate Cancels(e: Event) {
    e == ClientGone || e == SeeResultsClosed || e == SeeErrs
  }

  predicate AnyCancels(events: seq<Event>) {
    events != [] && (Cancels(events[0]) || AnyCancels(events[1..]))
  }

  lemma StepReports(s: State, e: Event, load: Load)
    requires Inv(s, load) && Enabled(s, e, load)
    ensures e != SeeErrs ==> Step(s, e, load).down.errs == s.down.errs + FailuresIn(e)
    ensures Step(s, e, load).http.cancelled <==> s.http.cancelled || Cancels(e)
  {
    hide Flow;
  }

  lemma {:induction false} RunReports(s: State, events: seq<Event>, load: Load)
    requires Inv(s, load) && Legal(s, events, load)
    ensures SeeErrs !in events ==> Run(s, events, load).down.errs == s.down.errs + Failures(events)
    ensures Run(s, events, load).http.cancelled <==> s.http.cancelled || AnyCancels(events)
    decreases |events|
  {
    hide Inv;
    hide Step;
    hide Enabled;
    hide FailuresIn;
    hide Cancels;
    if events != [] {
      StepReports(s, events[0], load);
      StepKeepsInv(s, events[0], load);
      RunReports(Step(s, events[0], load), events[1..], load);
    }
  }

  // Until the handler looks, the error channel holds the one failure there has
  // been, if any; the context is cancelled exactly when the client has gone away or
  // the handler has returned.
  lemma FailureIsReportedOnce(events: seq<Event>, load: Load)
    requires Legal(START, events, load)
    ensures SeeErrs !in events ==> Run(START, events, load).down.errs == Failures(events) <= 1
    ensures Run(START, events, load).http.cancelled <==> AnyCancels(events)
  {
    FromStart(events, load);
    FromStart([], load);
    RunReports(START, events, load);
  }

  // A dropped answer is never followed by a delivered one.
  lemma NothingAfterALoss(events: seq<Event>, more: seq<Event>, load: Load)
    requires Legal(START, events, load)
    requires Legal(Run(START, events, load), more, load)
    requires Run(START, events, load).down.lost != []
    ensures var s, t := Run(START, events, load), Run(Run(START, events, load), more, load);
            t.http.written + t.down.results == s.http.written + s.down.results && t.down.lost == s.down.lost
  {
    FromStart(events, load);
    StoppedStays(Run(START, events, load), more, load);
  }

  lemma CleanState(s: State, load: Load)
    requires Inv(s, load) && s.down.sawEof
    ensures s.up.read == s.out.sent + |s.up.lost|
    ensures s.http.written + s.down.results == Numbers(0, s.out.sent)
    ensures |s.http.written| + |s.down.results| == s.out.sent
    ensures s.http.written == Numbers(0, s.out.sent) <==> s.down.results == []
  {
    assert AtSender(s.out) + BehindSender(s.up) == s.up.lost;
    assert |Numbers(s.out.sent, s.up.read)| == s.up.read - s.out.sent;
    assert Received(s.down, s.http) + s.out.wire == s.http.written + s.down.results;
    assert |s.http.written + s.down.results| == |s.http.written| + |s.down.results|;
  }

  // After a clean end of stream every frame read has been answered, but for one
  // the splitter may have dropped on cancellation. What is missing from the
  // response is what is left in the result channel: never more than its slots,
  // and nothing when the writer stopped on the closing of that channel.
  lemma CleanStreamDelivery(events: seq<Event>, load: Load)
    requires Legal(START, events, load) && Run(START, events, load).down.sawEof
    ensures var s := Run(START, events, load);
      && s.up.read == s.out.sent + |s.up.lost|
      && s.http.written + s.down.results == Numbers(0, s.out.sent)
      && s.out.sent <= load.answers
      && s.out.sent - RESULT_SLOTS <= |s.http.written| <= s.out.sent
      && (s.http.written == Numbers(0, s.out.sent) <==> s.down.results == [])
      && (s.http.writer == DoneByResults ==> s.http.written == Numbers(0, s.out.sent))
  {
    FromStart(events, load);
    CleanState(Run(START, events, load), load);
  }

  // ---- how much a clean stream can lose

  // A stretch of a run.
  ghost predicate Leads(s: State, events: seq<Event>, t: State, load: Load) {
    Legal(s, events, load) && Run(s, events, load) == t
  }

  lemma LeadsOne(s: State, e: Event, load: Load)
    requires Enabled(s, e, load)
    ensures Leads(s, [e], Step(s, e, load), load)
  {
    assert [e][1..] == [];
  }

  lemma {:induction false} LeadsOn(s: State, events: seq<Event>, t: State, more: seq<Event>, u: State, load: Load)
    requires Leads(s, events, t, load) && Leads(t, more, u, load)
    ensures Leads(s, events + more, u, load)
    decreases |events|
  {
    hide Step;
    hide Enabled;
    if events == [] {
      assert events + more == more;
    } else {
      LeadsOn(Step(s, events[0], load), events[1..], t, more, u, load);
      assert (events + more)[1..] == events[1..] + more;
    }
  }

  lemma LeadsThen(s: State, events: seq<Event>, t: State, e: Event, load: Load)
    requires Leads(s, events, t, load) && Enabled(t, e, load)
    ensures Leads(s, events + [e], Step(t, e, load), load)
  {
    hide Leads;
    LeadsOne(t, e, load);
    LeadsOn(s, events, t, [e], Step(t, e, load), load);
  }

  // n frames read and queued, nothing sent.
  function Queued(n: nat): State {
    START.(up := Intake(n, Reading, Numbers(0, n), []))
  }

  lemma {:induction false} QueueUp(n: nat, load: Load) returns (events: seq<Event>)
    requires n <= load.frames && n <= CHUNK_SLOTS
    ensures Leads(START, events, Queued(n), load) && |Queued(n).up.chunks| == n
  {
    if n == 0 {
      events := [];
    } else {
      events := QueueUp(n - 1, load);
      NumbersExtend(0, n - 1);
      var s, t := Queued(n - 1), Queued(n - 1).(up := Intake(n, HoldingFrame(n - 1), Numbers(0, n - 1), []));
      hide Leads;
      LeadsThen(START, events, s, ReadFrame, load);
      LeadsThen(START, events + [ReadFrame], t, PushChunk, load);
      events := events + [ReadFrame] + [PushChunk];
    }
  }

  // The chunk channel can fill to its ten slots.
  lemma ChunkChannelFills(load: Load) returns (events: seq<Event>)
    requires load.frames >= 10
    ensures Legal(START, events, load) && |Run(START, events, load).up.chunks| == 10
  {
    hide Legal;
    hide Run;
    events := QueueUp(10, load);
  }

  // n frames answered, w of them written, every stage idle.
  function Idle(n: nat, w: nat): State {
    State(Intake(n, Reading, [], []), Outgoing(Taking, n, [], []),
          Incoming(Receiving, false, Numbers(w, n), 0, []), Response(Numbers(0, w), Writing, false))
  }

  lemma ThreeSteps(s: State, e: Event, s1: State, e1: Event, s2: State, e2: Event, s3: State, load: Load)
    requires Enabled(s, e, load) && s1 == Step(s, e, load)
    requires Enabled(s1, e1, load) && s2 == Step(s1, e1, load)
    requires Enabled(s2, e2, load) && s3 == Step(s2, e2, load)
    ensures Leads(s, [e, e1, e2], s3, load)
  {
    hide Leads;
    hide Step;
    hide Enabled;
    LeadsOne(s, e, load);
    LeadsThen(s, [e], s1, e1, load);
    LeadsThen(s, [e] + [e1], s2, e2, load);
    assert [e] + [e1] + [e2] == [e, e1, e2];
  }

  lemma AnswerOne(n: nat, w: nat, load: Load)
    requires w <= n < load.frames && n < load.answers && n - w < RESULT_SLOTS
    ensures Leads(Idle(n, w), [ReadFrame, PushChunk, TakeChunk] + [SendOk, Receive, PushResult], Idle(n + 1, w), load)
  {
    NumbersExtend(w, n);
    hide Numbers;
    var s := Idle(n, w);
    var s1 := s.(up := Intake(n + 1, HoldingFrame(n), [], []));
    var s2 := s.(up := Intake(n + 1, Reading, [n], []));
    var s3 := s.(up := Intake(n + 1, Reading, [], []), out := Outgoing(Sending(n), n, [], []));
    var s4 := s3.(out := Outgoing(Taking, n + 1, [n], []));
    var s5 := s3.(out := Outgoing(Taking, n + 1, [], []), down := s.down.(receiver := HoldingResult(n)));
    ThreeSteps(s, ReadFrame, s1, PushChunk, s2, TakeChunk, s3, load);
    ThreeSteps(s3, SendOk, s4, Receive, s5, PushResult, Idle(n + 1, w), load);
    hide Leads;
    LeadsOn(s, [ReadFrame, PushChunk, TakeChunk], s3, [SendOk, Receive, PushResult], Idle(n + 1, w), load);
  }

  lemma WriteOne(n: nat, w: nat, load: Load)
    requires w < n
    ensures Leads(Idle(n, w), [WriteResult], Idle(n, w + 1), load)
  {
    NumbersExtend(0, w);
    assert Numbers(w, n)[0] == w && Numbers(w, n)[1..] == Numbers(w + 1, n);
    LeadsOne(Idle(n, w), WriteResult, load);
  }

  // Answer frames up to n; the first w are written as they come.
  lemma {:induction false} AnswerAll(n: nat, w: nat, load: Load) returns (events: seq<Event>)
    requires w <= n <= load.frames && n <= load.answers && n - w <= RESULT_SLOTS
    ensures Leads(START, events, Idle(n, w), load)
  {
    if n == 0 {
      events := [OpenStream];
      LeadsOne(START, OpenStream, load);
    } else {
      var cycle := [ReadFrame, PushChunk, TakeChunk] + [SendOk, Receive, PushResult];
      var w' := if w < n then w else n - 1;
      var before := AnswerAll(n - 1, w', load);
      AnswerOne(n - 1, w', load);
      LeadsOn(START, before, Idle(n - 1, w'), cycle, Idle(n, w'), load);
      events := before + cycle;
      if w == n {
        WriteOne(n, w', load);
        LeadsOn(START, events, Idle(n, w'), [WriteResult], Idle(n, w), load);
        events := events + [WriteResult];
      }
    }
  }

  function Finished(n: nat, w: nat): State {
    State(Intake(n, ReaderDone, [], []), Outgoing(SenderDone(false), n, [], []),
          Incoming(ClosingResults, true, Numbers(w, n), 0, []), Response(Numbers(0, w), DoneByErrs, true))
  }

  // The end of the stream has been received.
  function AtEof(n: nat, w: nat): State {
    State(Intake(n, ReaderDone, [], []), Outgoing(SenderDone(false), n, [], []),
          Incoming(AwaitingSender, true, Numbers(w, n), 0, []), Response(Numbers(0, w), Writing, false))
  }

  lemma ReachEof(n: nat, w: nat, load: Load)
    ensures Leads(Idle(n, w), [EndOfBody, TakeClosed, ReceiveEof], AtEof(n, w), load)
  {
    hide Numbers;
    var s := Idle(n, w);
    var s1 := s.(up := Intake(n, ReaderDone, [], []));
    var s2 := s1.(out := Outgoing(SenderDone(false), n, [], []));
    ThreeSteps(s, EndOfBody, s1, TakeClosed, s2, ReceiveEof, AtEof(n, w), load);
  }

  // From there a clean end, seen by the writer through `errs`.
  lemma EndThroughErrs(n: nat, w: nat, load: Load)
    ensures Leads(Idle(n, w), [EndOfBody, TakeClosed, ReceiveEof] + [SenderReported, CloseErrs, SeeErrs],
                  Finished(n, w), load)
  {
    hide Numbers;
    var s := AtEof(n, w);
    var s1 := s.(down := s.down.(receiver := ClosingErrs));
    var s2 := s.(down := s.down.(receiver := ClosingResults));
    ThreeSteps(s, SenderReported, s1, CloseErrs, s2, SeeErrs, Finished(n, w), load);
    ReachEof(n, w, load);
    hide Leads;
    LeadsOn(Idle(n, w), [EndOfBody, TakeClosed, ReceiveEof], s, [SenderReported, CloseErrs, SeeErrs],
            Finished(n, w), load);
  }

  // ---- the other ends

  function Drained(n: nat): State {
    State(Intake(n, ReaderDone, [], []), Outgoing(SenderDone(false), n, [], []),
          Incoming(ReceiverDone, true, [], 0, []), Response(Numbers(0, n), DoneByResults, true))
  }

  // Both channels closed, the writer still at work.
  function Closed(n: nat): State {
    AtEof(n, n).(down := Incoming(ReceiverDone, true, Numbers(n, n), 0, []))
  }

  lemma CloseBoth(n: nat, load: Load)
    ensures Leads(AtEof(n, n), [SenderReported, CloseErrs, CloseResults], Closed(n), load)
  {
    hide Numbers;
    var s := AtEof(n, n);
    var s1 := s.(down := s.down.(receiver := ClosingErrs));
    var s2 := s.(down := s.down.(receiver := ClosingResults));
    ThreeSteps(s, SenderReported, s1, CloseErrs, s2, CloseResults, Closed(n), load);
  }

  // From there a clean end, seen by the writer through `results`.
  lemma EndThroughResults(n: nat, load: Load)
    ensures Leads(Idle(n, n), [EndOfBody, TakeClosed, ReceiveEof] + [SenderReported, CloseErrs, CloseResults]
                              + [SeeResultsClosed], Drained(n), load)
  {
    assert Numbers(n, n) == [];
    hide Numbers;
    LeadsOne(Closed(n), SeeResultsClosed, load);
    hide Leads;
    hide Step;
    hide Enabled;
    ReachEof(n, n, load);
    CloseBoth(n, load);
    var three := [EndOfBody, TakeClosed, ReceiveEof];
    LeadsOn(Idle(n, n), three, AtEof(n, n), [SenderReported, CloseErrs, CloseResults], Closed(n), load);
    LeadsOn(Idle(n, n), three + [SenderReported, CloseErrs, CloseResults], Closed(n),
            [SeeResultsClosed], Drained(n), load);
  }

  // Every stream whose frames are all answered can be delivered whole.
  lemma CleanStreamCanDeliverAll(load: Load) returns (events: seq<Event>)
    requires load.frames <= load.answers
    ensures Legal(START, events, load)
    ensures var s := Run(START, events, load);
      s.http.writer == DoneByResults && s.down.sawEof && |s.http.written| == load.frames && s.down.errs == 0
  {
    hide Legal;
    hide Run;
    var n := load.frames;
    assert |Numbers(0, n)| == n;
    var answered := AnswerAll(n, n, load);
    EndThroughResults(n, load);
    var ending := [EndOfBody, TakeClosed, ReceiveEof] + [SenderReported, CloseErrs, CloseResults] + [SeeResultsClosed];
    LeadsOn(START, answered, Idle(n, n), ending, Drained(n), load);
    events := answered + ending;
  }

  // The first frame in the sender's hand.
  function Taken(): State {
    START.(up := Intake(1, Reading, [], []), out := Outgoing(Sending(0), 0, [], []),
           down := START.down.(receiver := Receiving))
  }

  lemma ReachTaken(load: Load)
    requires load.frames > 0
    ensures Leads(START, [OpenStream] + [ReadFrame, PushChunk, TakeChunk], Taken(), load)
  {
    var s := START.(down := START.down.(receiver := Receiving), out := Outgoing(Taking, 0, [], []));
    var s1 := s.(up := Intake(1, HoldingFrame(0), [], []));
    var s2 := s.(up := Intake(1, Reading, [0], []));
    LeadsOne(START, OpenStream, load);
    ThreeSteps(s, ReadFrame, s1, PushChunk, s2, TakeChunk, Taken(), load);
    hide Leads;
    LeadsOn(START, [OpenStream], s, [ReadFrame, PushChunk, TakeChunk], Taken(), load);
  }

  // Its answer in the receiver's hand, the client gone.
  function AnsweredInVain(): State {
    Taken().(out := Outgoing(Taking, 1, [], []), down := START.down.(receiver := HoldingResult(0)),
             http := Response([], Writing, true))
  }

  lemma ReachAnswered(load: Load)
    requires load.answers > 0
    ensures Leads(Taken(), [SendOk, Receive, ClientGone], AnsweredInVain(), load)
  {
    var s1 := Taken().(out := Outgoing(Taking, 1, [0], []));
    var s2 := AnsweredInVain().(http := START.http);
    ThreeSteps(Taken(), SendOk, s1, Receive, s2, ClientGone, AnsweredInVain(), load);
  }

  // The first frame can be lost in each of three places: at the splitter once the
  // client has gone, at the sender with a failed send, and at the receiver once
  // the client has gone.
  lemma SplitterCanLose(load: Load) returns (events: seq<Event>)
    requires load.frames > 0
    ensures Legal(START, events, load) && Run(START, events, load).up.lost == [0]
  {
    var s1 := START.(up := Intake(1, HoldingFrame(0), [], []));
    var s2 := s1.(http := Response([], Writing, true));
    events := [ReadFrame, ClientGone, ReadCancelled];
    ThreeSteps(START, ReadFrame, s1, ClientGone, s2, ReadCancelled, Step(s2, ReadCancelled, load), load);
  }

  lemma SenderCanLose(load: Load) returns (events: seq<Event>)
    requires load.frames > 0
    ensures Legal(START, events, load) && Run(START, events, load).out.lost == [0]
  {
    var t := Taken().(out := Outgoing(SenderDone(true), 0, [], [0]));
    LeadsOne(Taken(), SendFailed, load);
    hide Legal;
    hide Run;
    ReachTaken(load);
    events := [OpenStream] + [ReadFrame, PushChunk, TakeChunk] + [SendFailed];
    LeadsOn(START, [OpenStream] + [ReadFrame, PushChunk, TakeChunk], Taken(), [SendFailed], t, load);
  }

  lemma ReceiverCanLose(load: Load) returns (events: seq<Event>)
    requires load.frames > 0 && load.answers > 0
    ensures Legal(START, events, load) && Run(START, events, load).down.lost == [0]
  {
    var t := AnsweredInVain().(down := Incoming(ClosingErrs, false, [], 1, [0]));
    LeadsOne(AnsweredInVain(), ResultCancelled, load);
    hide Legal;
    hide Run;
    ReachTaken(load);
    ReachAnswered(load);
    var upTo := [OpenStream] + [ReadFrame, PushChunk, TakeChunk];
    LeadsOn(START, upTo, Taken(), [SendOk, Receive, ClientGone], AnsweredInVain(), load);
    LeadsOn(START, upTo + [SendOk, Receive, ClientGone], AnsweredInVain(), [ResultCancelled], t, load);
    events := upTo + [SendOk, Receive, ClientGone] + [ResultCancelled];
  }

  // A stream that cannot be opened, or breaks, is seen by the writer at once, with
  // both channels still open.
  lemma FailedOpenReachesWriter(load: Load)
    ensures Legal(START, [OpenFailed] + [SeeErrs], load)
    ensures var s := Run(START, [OpenFailed] + [SeeErrs], load);
            s.http.writer == DoneByErrs && s.down.receiver == ClosingErrs && s.down.errs == 0
  {
    var s1 := START.(down := START.down.(receiver := ClosingErrs, errs := 1));
    LeadsOne(START, OpenFailed, load);
    LeadsThen(START, [OpenFailed], s1, SeeErrs, load);
  }

  lemma BrokenStreamReachesWriter(load: Load)
    ensures Legal(START, [OpenStream, ReceiveError, SeeErrs], load)
    ensures var s := Run(START, [OpenStream, ReceiveError, SeeErrs], load);
            s.http.writer == DoneByErrs && s.down.receiver == ClosingErrs && s.down.errs == 0
  {
    var s1 := START.(down := START.down.(receiver := Receiving), out := Outgoing(Taking, 0, [], []));
    var s2 := s1.(down := START.down.(receiver := ClosingErrs, errs := 1));
    var s3 := s1.(down := START.down.(receiver := ClosingErrs), http := Response([], DoneByErrs, true));
    ThreeSteps(START, OpenStream, s1, ReceiveError, s2, SeeErrs, s3, load);
  }

  // The writer has returned after a clean end in which every frame of the body
  // was read, sent and answered.
  ghost predicate CleanEnd(s: State, load: Load) {
    s.down.sawEof && s.http.writer != Writing && s.out.sent == load.frames
  }

  // A clean stream can lose its last k answers: the receiver closes `errs` before
  // `results`, and the writer may look at `errs` first.
  lemma CleanStreamMayDropAnswers(load: Load, k: nat) returns (events: seq<Event>)
    requires k <= load.frames <= load.answers && k <= RESULT_SLOTS
    ensures Legal(START, events, load)
    ensures var s := Run(START, events, load);
      && CleanEnd(s, load) && s.up.lost == [] && s.out.lost == [] && s.down.lost == []
      && s.http.written == Numbers(0, load.frames - k)
  {
    hide Legal;
    hide Run;
    var answered := AnswerAll(load.frames, load.frames - k, load);
    EndThroughErrs(load.frames, load.frames - k, load);
    var ending := [EndOfBody, TakeClosed, ReceiveEof] + [SenderReported, CloseErrs, SeeErrs];
    LeadsOn(START, answered, Idle(load.frames, load.frames - k), ending, Finished(load.frames, load.frames - k), load);
    events := answered + ending;
  }

  // A stream of n frames, all answered, can end cleanly and lose exactly k answers
  // if and only if k is at most n and the capacity of the result channel.
  lemma CleanStreamMayLoseIff(load: Load, k: nat)
    ensures (exists events :: Legal(START, events, load) && CleanEnd(Run(START, events, load), load)
               && |Run(START, events, load).http.written| == load.frames - k)
      <==> load.frames <= load.answers && k <= load.frames && k <= 100
  {
    if k <= load.frames <= load.answers && k <= RESULT_SLOTS {
      var events := CleanStreamMayDropAnswers(load, k);
      assert |Numbers(0, load.frames - k)| == load.frames - k;
    }
    forall events | Legal(START, events, load) && CleanEnd(Run(START, events, load), load)
                      && |Run(START, events, load).http.written| == load.frames - k
      ensures load.frames <= load.answers && k <= load.frames && k <= RESULT_SLOTS
    {
      CleanStreamDelivery(events, load);
    }
  }

  // So, when the server answers every frame, a clean stream is sure to deliver
  // everything only if there is nothing to deliver.
  lemma CleanStreamDeliversAllIff(load: Load)
    requires load.frames <= load.answers
    ensures (forall events :: Legal(START, events, load) && CleanEnd(Run(START, events, load), load) ==>
               Run(START, events, load).http.written == Numbers(0, load.frames))
      <==> load.frames == 0
  {
    if load.frames == 0 {
      forall events | Legal(START, events, load) && CleanEnd(Run(START, events, load), load)
        ensures Run(START, events, load).http.written == Numbers(0, 0)
      {
        CleanStreamDelivery(events, load);
      }
    } else {
      var events := CleanStreamMayDropAnswers(load, 1);
      assert |Numbers(0, load.frames - 1)| == load.frames - 1 && |Numbers(0, load.frames)| == load.frames;
    }
  }
}
