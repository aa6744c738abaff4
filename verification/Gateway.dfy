// The HTTP stream end to end: body, splitter, pipeline, response bytes.
module Gateway {
  import opened Common
  import opened Raster
  import opened GaussianKernel
  import opened BlurRivals
  import opened StencilSpec
  import opened StencilLoops
  import opened Frames
  import opened StreamArenas
  import Session
  import Splitter
  import Pipeline

  // The bytes written when the frames in `written` have been answered.
  function ResponseBytes(written: seq<nat>, answers: seq<seq<byte>>): seq<byte>
    requires forall i :: 0 <= i < |written| ==> written[i] < |answers|
  {
    Splitter.Flatten(seq(|written|, i requires 0 <= i < |written| => answers[written[i]]))
  }

  lemma {:induction false} FlattenPrefix(parts: seq<seq<byte>>, k: nat)
    requires k <= |parts|
    ensures Splitter.Flatten(parts[..k]) <= Splitter.Flatten(parts)
    decreases k
  {
    if k > 0 {
      assert parts[..k][1..] == parts[1..][..k - 1];
      FlattenPrefix(parts[1..], k - 1);
    }
  }

  lemma {:induction false} FlattenAppend(parts: seq<seq<byte>>, last: seq<byte>)
    ensures Splitter.Flatten(parts + [last]) == Splitter.Flatten(parts) + last
    decreases |parts|
  {
    if parts == [] {
      assert Splitter.Flatten([last]) == last;
    } else {
      assert (parts + [last])[1..] == parts[1..] + [last];
      FlattenAppend(parts[1..], last);
    }
  }

  lemma BytesOfPrefix(written: seq<nat>, answers: seq<seq<byte>>)
    requires |written| <= |answers| && written == Pipeline.Numbers(0, |written|)
    ensures forall i :: 0 <= i < |written| ==> written[i] == i
    ensures ResponseBytes(written, answers) == Splitter.Flatten(answers[..|written|])
  {
    var k := |written|;
    assert forall i :: 0 <= i < k ==> written[i] == Pipeline.Numbers(0, k)[i] == i;
    assert seq(k, i requires 0 <= i < k => answers[written[i]]) == answers[..k];
  }

  // Any list of answers: whatever the interleaving, the response is the answers
  // to a prefix of the frames of the body, whole and in order.
  lemma ResponseIsPrefixOfAnswers(body: seq<byte>, width: nat, height: nat, answers: seq<seq<byte>>,
                                  events: seq<Pipeline.Event>)
    requires 0 < width * height * 3
    requires |answers| == |Splitter.Chop(body, width * height * 3)|
    requires Pipeline.Legal(Pipeline.START, events, Pipeline.Load(|answers|, |answers|))
    ensures var written := Pipeline.Run(Pipeline.START, events, Pipeline.Load(|answers|, |answers|)).http.written;
      && |written| <= |answers|
      && (forall i :: 0 <= i < |written| ==> written[i] < |answers|)
      && ResponseBytes(written, answers) == Splitter.Flatten(answers[..|written|])
      && ResponseBytes(written, answers) <= Splitter.Flatten(answers)
  {
    var load := Pipeline.Load(|answers|, |answers|);
    Pipeline.PipelineIsFifo(events, load);
    var written := Pipeline.Run(Pipeline.START, events, load).http.written;
    BytesOfPrefix(written, answers);
    FlattenPrefix(answers, |written|);
  }

  // ---- what the response shows

  // The message sent for a frame: video, with parameters whose intensity is unset.
  function Message(m: Splitter.MediaChunk, width: nat, height: nat, filter: Filter, radius: real): Chunk {
    Chunk(m.data, Video, width, height, m.sequenceId, Some(Params(filter, radius, 0.0)))
  }

  // The i-th message of a request.
  function Sent(body: seq<byte>, width: nat, height: nat, filter: Filter, radius: real, i: nat): Chunk
    requires 0 < width * height * 3 && i < |Splitter.Chop(body, width * height * 3)|
  {
    Message(Splitter.MediaChunk(Splitter.Chop(body, width * height * 3)[i], i + 1), width, height, filter, radius)
  }

  // A failure reply carries no data.
  function Data(reply: Reply): seq<byte> {
    if reply.outcome.Processed? then reply.outcome.data else []
  }

  function AllData(replies: seq<Reply>): (r: seq<seq<byte>>)
    ensures |r| == |replies|
  {
    seq(|replies|, i requires 0 <= i < |replies| => Data(replies[i]))
  }

  lemma NextMultiple(i: nat, size: nat)
    ensures (i + 1) * size == i * size + size
  {
  }

  lemma {:induction false} BlocksLength(parts: seq<seq<byte>>, size: nat)
    requires forall k :: 0 <= k < |parts| ==> |parts[k]| == size
    ensures |Splitter.Flatten(parts)| == |parts| * size
    decreases |parts|
  {
    if parts != [] {
      BlocksLength(parts[1..], size);
      NextMultiple(|parts| - 1, size);
    }
  }

  // The part of the text from position p on.
  lemma SkipBlock(flat: seq<byte>, first: seq<byte>, rest: seq<byte>, p: nat, n: nat)
    requires flat == first + rest && p + n <= |rest|
    ensures flat[|first| + p..|first| + p + n] == rest[p..p + n]
  {
  }

  // Blocks of one size stand at its multiples.
  lemma {:induction false} BlocksAligned(parts: seq<seq<byte>>, size: nat, i: nat)
    requires i < |parts| && forall k :: 0 <= k < |parts| ==> |parts[k]| == size
    ensures 0 <= i * size <= i * size + size <= |Splitter.Flatten(parts)|
    ensures Splitter.Flatten(parts)[i * size..i * size + size] == parts[i]
    decreases |parts|
  {
    var rest := parts[1..];
    if i > 0 {
      BlocksAligned(rest, size, i - 1);
      NextMultiple(i - 1, size);
      SkipBlock(Splitter.Flatten(parts), parts[0], Splitter.Flatten(rest), (i - 1) * size, size);
    }
  }

  // A whole frame is accepted, so a correct answer to it is a whole image.
  lemma WholeAnswer(chunk: Chunk, reply: Reply, image: (int, int, int) -> byte)
    requires chunk.mediaType == Video && |chunk.data| == chunk.width * chunk.height * 3
    requires IsReply(reply, chunk, image)
    ensures |Data(reply)| == chunk.width * chunk.height * 3
    ensures Renders(Data(reply), chunk.width, chunk.height, image)
  {
  }

  // The response consists of the images of the first k frames.
  ghost predicate Shows(response: seq<byte>, width: nat, height: nat, images: seq<(int, int, int) -> byte>, k: nat)
    requires k <= |images|
  {
    var size := width * height * 3;
    && |response| == k * size
    && forall i :: 0 <= i < k ==>
         && 0 <= i * size <= i * size + size <= |response|
         && Renders(response[i * size..i * size + size], width, height, images[i])
  }

  lemma BlocksShow(answers: seq<seq<byte>>, width: nat, height: nat, images: seq<(int, int, int) -> byte>)
    requires |answers| <= |images|
    requires forall i :: 0 <= i < |answers| ==>
               |answers[i]| == width * height * 3 && Renders(answers[i], width, height, images[i])
    ensures Shows(Splitter.Flatten(answers), width, height, images, |answers|)
  {
    hide Renders;
    var size := width * height * 3;
    BlocksLength(answers, size);
    forall i | 0 <= i < |answers|
      ensures 0 <= i * size <= i * size + size <= |Splitter.Flatten(answers)|
      ensures Renders(Splitter.Flatten(answers)[i * size..i * size + size], width, height, images[i])
    {
      BlocksAligned(answers, size, i);
    }
  }

  // The request and a processor that answers so many of its frames.
  function Exchange(body: seq<byte>, width: nat, height: nat, answers: nat): Pipeline.Load
    requires 0 < width * height * 3
  {
    Pipeline.Load(|Splitter.Chop(body, width * height * 3)|, answers)
  }

  // The frames whose answers an interleaving has written to the response.
  function Written(body: seq<byte>, width: nat, height: nat, answers: nat, events: seq<Pipeline.Event>): seq<nat>
    requires 0 < width * height * 3
    requires Pipeline.Legal(Pipeline.START, events, Exchange(body, width, height, answers))
  {
    Pipeline.Run(Pipeline.START, events, Exchange(body, width, height, answers)).http.written
  }

  // Body to response: correct answers to the first frames cut from the body come
  // back whole, in order, each at its multiple of the frame size. `replies` are
  // the answers the processor gave before its stream ended; only those that reach
  // the response need be correct.
  lemma ResponseShowsFrames(body: seq<byte>, width: nat, height: nat, filter: Filter, radius: real,
                            replies: seq<Reply>, images: seq<(int, int, int) -> byte>, events: seq<Pipeline.Event>)
    requires 0 < width * height * 3 && |replies| == |images| <= |Splitter.Chop(body, width * height * 3)|
    requires Pipeline.Legal(Pipeline.START, events, Exchange(body, width, height, |replies|))
    requires forall i :: 0 <= i < |replies| && i < |Written(body, width, height, |replies|, events)| ==>
               IsReply(replies[i], Sent(body, width, height, filter, radius, i), images[i])
    ensures var written := Written(body, width, height, |replies|, events);
      && |written| <= |replies|
      && (forall i :: 0 <= i < |written| ==> written[i] < |replies|)
      && Shows(ResponseBytes(written, AllData(replies)), width, height, images, |written|)
  {
    var load := Exchange(body, width, height, |replies|);
    var answers := AllData(replies);
    Pipeline.PipelineIsFifo(events, load);
    var written := Written(body, width, height, |replies|, events);
    BytesOfPrefix(written, answers);
    Splitter.ChopExact(body, width * height * 3);
    forall i | 0 <= i < |written|
      ensures |answers[i]| == width * height * 3 && Renders(answers[i], width, height, images[i])
    {
      WholeAnswer(Sent(body, width, height, filter, radius, i), replies[i], images[i]);
    }
    BlocksShow(answers[..|written|], width, height, images);
  }

  ghost function Promised(exp: Exponential, turn: Turn, useArena: bool): (int, int, int) -> byte
    requires Positive(exp)
  {
    if useArena then ArenaImage(exp, turn.chunk, Session.StaleBytes(turn)) else HeapImage(exp, turn.chunk)
  }

  // A request served by one stream of the C++ server, in either memory mode: if
  // none of the answers that reach the response reports lack of memory, its i-th
  // block is the image the server promises for the i-th frame of the body.
  lemma RequestIsServed(exp: Exponential, body: seq<byte>, width: nat, height: nat, filter: Filter, radius: real,
                        turns: seq<Turn>, replies: seq<Reply>, useArena: bool, events: seq<Pipeline.Event>)
    requires Positive(exp) && 0 < width * height * 3 && |turns| == |Splitter.Chop(body, width * height * 3)|
    requires forall i :: 0 <= i < |turns| ==> turns[i].chunk == Sent(body, width, height, filter, radius, i)
    requires Session.AnsweredInOrder(exp, turns, replies, useArena)
    requires Pipeline.Legal(Pipeline.START, events, Exchange(body, width, height, |replies|))
    requires forall i :: 0 <= i < |replies| && i < |Written(body, width, height, |replies|, events)| ==>
               Session.Counts(turns[i], useArena)
    ensures var written := Written(body, width, height, |replies|, events);
      && |written| <= |replies|
      && (forall i :: 0 <= i < |written| ==> written[i] < |replies|)
      && Shows(ResponseBytes(written, AllData(replies)), width, height,
               seq(|replies|, i requires 0 <= i < |replies| => Promised(exp, turns[i], useArena)), |written|)
  {
    var images := seq(|replies|, i requires 0 <= i < |replies| => Promised(exp, turns[i], useArena));
    var written := Written(body, width, height, |replies|, events);
    forall i | 0 <= i < |replies| && i < |written|
      ensures IsReply(replies[i], Sent(body, width, height, filter, radius, i), images[i])
    {
      assert Session.Answers(exp, replies[i], turns[i], useArena);
      assert Session.Counts(turns[i], useArena);
    }
    ResponseShowsFrames(body, width, height, filter, radius, replies, images, events);
  }

  lemma RendersLength(s: seq<byte>, w: nat, h: nat, f: (int, int, int) -> byte)
    requires Renders(s, w, h, f)
    ensures |s| == 3 * (w * h)
  {
  }

  lemma AnswerBytes(exp: Exponential, size: nat, turn: Turn, reply: Reply, useArena: bool)
    requires Positive(exp) && Session.Answers(exp, reply, turn, useArena)
    requires turn.chunk.mediaType == Video && 3 * (turn.chunk.width * turn.chunk.height) == size
    ensures |Data(reply)| == if Session.Counts(turn, useArena) then size else 0
  {
    hide ArenaImage;
    hide HeapImage;
    if reply.outcome.Processed? {
      var image := Promised(exp, turn, useArena);
      hide Promised;
      RendersLength(Data(reply), turn.chunk.width, turn.chunk.height, image);
    }
  }

  lemma {:induction false} BytesCounted(exp: Exponential, size: nat, turns: seq<Turn>, replies: seq<Reply>,
                                        useArena: bool, k: nat)
    requires Positive(exp) && Session.AnsweredInOrder(exp, turns, replies, useArena) && k <= |replies|
    requires forall i :: 0 <= i < |turns| ==>
               turns[i].chunk.mediaType == Video && 3 * (turns[i].chunk.width * turns[i].chunk.height) == size
    ensures |Splitter.Flatten(AllData(replies)[..k])| == Session.CountedFrames(turns, useArena, k) * size
  {
    hide Session.Answers;
    hide Session.Counts;
    hide Data;
    if k > 0 {
      BytesCounted(exp, size, turns, replies, useArena, k - 1);
      var all := AllData(replies);
      assert all[..k] == all[..k - 1] + [all[k - 1]];
      FlattenAppend(all[..k - 1], all[k - 1]);
      AnswerBytes(exp, size, turns[k - 1], replies[k - 1], useArena);
      NextMultiple(Session.CountedFrames(turns, useArena, k - 1), size);
    }
  }

  // Whatever fails leaves no bytes: the response has one frame's worth for each
  // frame, among those it answers, that the server counts as processed.
  lemma ResponseIsCounted(exp: Exponential, body: seq<byte>, width: nat, height: nat, filter: Filter, radius: real,
                          turns: seq<Turn>, replies: seq<Reply>, useArena: bool, events: seq<Pipeline.Event>)
    requires Positive(exp) && 0 < width * height * 3 && |turns| == |Splitter.Chop(body, width * height * 3)|
    requires forall i :: 0 <= i < |turns| ==> turns[i].chunk == Sent(body, width, height, filter, radius, i)
    requires Session.AnsweredInOrder(exp, turns, replies, useArena)
    requires Pipeline.Legal(Pipeline.START, events, Exchange(body, width, height, |replies|))
    ensures var written := Written(body, width, height, |replies|, events);
      && |written| <= |replies|
      && (forall i :: 0 <= i < |written| ==> written[i] < |replies|)
      && |ResponseBytes(written, AllData(replies))|
           == Session.CountedFrames(turns, useArena, |written|) * (width * height * 3)
  {
    Pipeline.PipelineIsFifo(events, Exchange(body, width, height, |replies|));
    var written := Written(body, width, height, |replies|, events);
    BytesOfPrefix(written, AllData(replies));
    BytesCounted(exp, width * height * 3, turns, replies, useArena, |written|);
  }

  // What block i of the response shows, by the filter the client asked for: the
  // luminance, the blur of the radius asked for or of radius 5, edges inside, or,
  // since no intensity is sent, the frame itself inside.
  ghost predicate ShowsFiltered(exp: Exponential, block: seq<byte>, frame: seq<byte>, width: nat, height: nat,
                                filter: Filter, radius: real)
    requires Positive(exp)
  {
    |block| == |frame| == 3 * (width * height) &&
    match filter
    case Grayscale => IsGrayscale(frame, block, width, height) && Renders(block, width, height, GrayImage(frame, width))
    case EdgeDetect => InsideShows(block, width, height, EdgeImage(frame, width))
    case Sharpen => InsideShows(block, width, height, Shown(frame, width))
    case GaussianBlur =>
      Renders(block, width, height, ExpectedBlur(exp, frame, width, height, if radius > 0.0 then radius else 5.0))
    case FilterUnspecified =>
      Renders(block, width, height, ExpectedBlur(exp, frame, width, height, if radius > 0.0 then radius else 5.0))
  }

  ghost predicate InsideShows(block: seq<byte>, width: nat, height: nat, image: (int, int, int) -> byte) {
    forall y, x, c :: Inside(width, height, y, x, c) && Interior(width, height, y, x) ==>
      Shown(block, width)(y, x, c) == image(y, x, c)
  }

  lemma BlockShowsFiltered(exp: Exponential, block: seq<byte>, turn: Turn, useArena: bool, filter: Filter, radius: real)
    requires Positive(exp) && |turn.chunk.data| == 3 * (turn.chunk.width * turn.chunk.height)
    requires turn.chunk.params == Some(Params(filter, radius, 0.0))
    requires Renders(block, turn.chunk.width, turn.chunk.height, Promised(exp, turn, useArena))
    ensures ShowsFiltered(exp, block, turn.chunk.data, turn.chunk.width, turn.chunk.height, filter, radius)
  {
    hide ExpectedBlur;
    hide EdgeImage;
    hide GrayImage;
    hide SharpenImage;
    hide IsGrayscale;
    hide Renders;
    var w, h, data, image := turn.chunk.width, turn.chunk.height, turn.chunk.data, Promised(exp, turn, useArena);
    forall y, x, c | Inside(w, h, y, x, c) && Interior(w, h, y, x)
      ensures Shown(block, w)(y, x, c) == image(y, x, c)
      ensures SharpenImage(data, w, 0.0)(y, x, c) == Shown(data, w)(y, x, c)
    {
      RenderedAt(block, w, h, image, y, x, c);
      SharpenFixedPoints(data, w, 0.0, y, x, c);
    }
    RendersLength(block, w, h, image);
    if filter == Grayscale {
      assert image == GrayImage(data, w);
      GrayscaleShows(data, block, w, h);
    }
  }

  lemma LengthOfShown(response: seq<byte>, width: nat, height: nat, images: seq<(int, int, int) -> byte>, k: nat)
    requires k <= |images| && Shows(response, width, height, images, k)
    ensures |response| == k * (width * height * 3)
  {
  }

  lemma BlockOfShown(response: seq<byte>, width: nat, height: nat, images: seq<(int, int, int) -> byte>, k: nat, i: nat)
    requires i < k <= |images| && Shows(response, width, height, images, k)
    ensures var size := width * height * 3;
      && 0 <= i * size <= i * size + size <= |response|
      && Renders(response[i * size..i * size + size], width, height, images[i])
  {
  }

  // A request and the one stream of the C++ server that answers it; what reaches
  // the response was not short of memory.
  ghost predicate Exchanged(exp: Exponential, body: seq<byte>, width: nat, height: nat, filter: Filter, radius: real,
                            turns: seq<Turn>, replies: seq<Reply>, useArena: bool, events: seq<Pipeline.Event>)
  {
    && Positive(exp) && 0 < width * height * 3 && |turns| == |Splitter.Chop(body, width * height * 3)|
    && (forall i :: 0 <= i < |turns| ==> turns[i].chunk == Sent(body, width, height, filter, radius, i))
    && Session.AnsweredInOrder(exp, turns, replies, useArena)
    && Pipeline.Legal(Pipeline.START, events, Exchange(body, width, height, |replies|))
    && (forall i :: 0 <= i < |replies| && i < |Written(body, width, height, |replies|, events)| ==>
          Session.Counts(turns[i], useArena))
  }

  lemma OneFilteredBlock(exp: Exponential, body: seq<byte>, width: nat, height: nat, filter: Filter, radius: real,
                         turns: seq<Turn>, replies: seq<Reply>, useArena: bool, block: seq<byte>, i: nat)
    requires Positive(exp) && 0 < width * height * 3 && i < |Splitter.Chop(body, width * height * 3)| == |turns|
    requires turns[i].chunk == Sent(body, width, height, filter, radius, i)
    requires Session.AnsweredInOrder(exp, turns, replies, useArena) && i < |replies|
    requires Renders(block, width, height, Promised(exp, turns[i], useArena))
    ensures ShowsFiltered(exp, block, Splitter.Chop(body, width * height * 3)[i], width, height, filter, radius)
    ensures replies[i].sequenceId == i + 1
  {
    hide ShowsFiltered;
    hide Renders;
    hide Promised;
    Splitter.ChopExact(body, width * height * 3);
    BlockShowsFiltered(exp, block, turns[i], useArena, filter, radius);
    Session.RepliesEchoSequenceIds(exp, turns, replies, useArena, i);
  }

  lemma ExchangeServed(exp: Exponential, body: seq<byte>, width: nat, height: nat, filter: Filter, radius: real,
                       turns: seq<Turn>, replies: seq<Reply>, useArena: bool, events: seq<Pipeline.Event>)
    returns (images: seq<(int, int, int) -> byte>)
    requires Exchanged(exp, body, width, height, filter, radius, turns, replies, useArena, events)
    ensures Positive(exp) && 0 < width * height * 3 && |images| == |replies| <= |turns|
    ensures |turns| == |Splitter.Chop(body, width * height * 3)|
    ensures Session.AnsweredInOrder(exp, turns, replies, useArena)
    ensures Pipeline.Legal(Pipeline.START, events, Exchange(body, width, height, |replies|))
    ensures forall i :: 0 <= i < |images| ==>
              && turns[i].chunk == Sent(body, width, height, filter, radius, i)
              && images[i] == Promised(exp, turns[i], useArena)
    ensures var written := Written(body, width, height, |replies|, events);
      && |written| <= |replies|
      && (forall i :: 0 <= i < |written| ==> written[i] < |replies|)
      && Shows(ResponseBytes(written, AllData(replies)), width, height, images, |written|)
  {
    hide Shows;
    hide Promised;
    RequestIsServed(exp, body, width, height, filter, radius, turns, replies, useArena, events);
    images := seq(|replies|, i requires 0 <= i < |replies| => Promised(exp, turns[i], useArena));
  }

  // The request as a whole: frame i of the body comes back as the filter asked for
  // makes it.
  lemma RequestIsFiltered(exp: Exponential, body: seq<byte>, width: nat, height: nat, filter: Filter, radius: real,
                          turns: seq<Turn>, replies: seq<Reply>, useArena: bool, events: seq<Pipeline.Event>)
    requires Exchanged(exp, body, width, height, filter, radius, turns, replies, useArena, events)
    ensures var size, frames := width * height * 3, Splitter.Chop(body, width * height * 3);
      var written := Written(body, width, height, |replies|, events);
      && |written| <= |replies| <= |frames|
      && (forall i :: 0 <= i < |written| ==> written[i] < |replies| && replies[i].sequenceId == i + 1)
      && var response := ResponseBytes(written, AllData(replies));
      && |response| == |written| * size
      && forall i :: 0 <= i < |written| ==>
           && 0 <= i * size <= i * size + size <= |response|
           && ShowsFiltered(exp, response[i * size..i * size + size], frames[i], width, height, filter, radius)
  {
    hide *;
    var images := ExchangeServed(exp, body, width, height, filter, radius, turns, replies, useArena, events);
    var size, frames := width * height * 3, Splitter.Chop(body, width * height * 3);
    var written := Written(body, width, height, |replies|, events);
    var response := ResponseBytes(written, AllData(replies));
    LengthOfShown(response, width, height, images, |written|);
    forall i | 0 <= i < |written|
      ensures 0 <= i * size <= i * size + size <= |response|
      ensures ShowsFiltered(exp, response[i * size..i * size + size], frames[i], width, height, filter, radius)
      ensures replies[i].sequenceId == i + 1
    {
      BlockOfShown(response, width, height, images, |written|, i);
      var block := response[i * size..i * size + size];
      OneFilteredBlock(exp, body, width, height, filter, radius, turns, replies, useArena, block, i);
    }
  }
}
