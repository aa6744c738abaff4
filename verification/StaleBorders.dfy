// Where the borders of sharpened and edge frames come from. The arena filters
// leave the border of their output buffer alone; resets hand the same buffers
// out again; so earlier pictures, or the bytes the block held at the start, show
// through.
module StaleBorders {
  import opened Common
  import opened Bits
  import opened Raster
  import opened GaussianKernel
  import opened StencilSpec
  import opened Frames
  import opened ArenaModel
  import opened StreamArenas
  import opened StreamFits
  import opened Session

  // ---- memory along a stream

  // The byte at an address before each turn.
  type Memory = (nat, nat) -> byte

  // Addresses the arena hands out between two of its states.
  ghost predicate HandedOut(s: Arena, t: Arena, a: nat) {
    exists i :: 0 <= i < |t.blocks| && CutFrom(t.blocks[i], if i < |s.blocks| then s.blocks[i].used else 0, a)
  }

  predicate CutFrom(b: Block, from: nat, a: nat) {
    b.base + from <= a < b.base + b.used
  }

  // The address of the output buffer of turn n.
  ghost function OutputAt(news: OperatorNew, turns: seq<Turn>, n: nat): Option<nat>
    requires Honest(news) && AllFit(turns) && n < |turns|
  {
    RequestsModest(turns[n].chunk);
    Grant(news, ArenaAt(news, turns, n), Output(turns[n].chunk)).1
  }

  // A turn writes only what it was handed; its output buffer shows what memory
  // held before and memory holds its answer afterwards.
  ghost predicate WritesAt(news: OperatorNew, turns: seq<Turn>, replies: seq<Reply>, memory: Memory, n: nat)
    requires Honest(news) && AllFit(turns) && n < |turns| == |replies|
  {
    && (forall a: nat :: !HandedOut(ArenaAt(news, turns, n), AfterTurn(news, turns, n), a) ==>
          memory(n + 1, a) == memory(n, a))
    && (OutputAt(news, turns, n).Some? && replies[n].outcome.Processed? ==>
          forall i: nat :: i < |turns[n].chunk.data| == |replies[n].outcome.data| ==>
            && turns[n].stale(i) == memory(n, OutputAt(news, turns, n).value + i)
            && replies[n].outcome.data[i] == memory(n + 1, OutputAt(news, turns, n).value + i))
  }

  ghost predicate Trace(news: OperatorNew, turns: seq<Turn>, replies: seq<Reply>, memory: Memory)
    requires Honest(news) && AllFit(turns) && |turns| == |replies|
  {
    forall n :: 0 <= n < |turns| ==> WritesAt(news, turns, replies, memory, n)
  }

  ghost predicate RepeatsRequests(turns: seq<Turn>, n: nat)
    requires n + RESET_INTERVAL < |turns|
  {
    Requests(turns[n + RESET_INTERVAL].chunk) == Requests(turns[n].chunk)
  }

  // A stream whose batches fit its first block b and repeat their requests.
  ghost predicate Repeats(news: OperatorNew, turns: seq<Turn>, b: Block) {
    && Honest(news) && AllFit(turns) && Opened(news, b) && BatchesFit(b, turns)
    && forall n :: 0 <= n && n + RESET_INTERVAL < |turns| ==> RepeatsRequests(turns, n)
  }

  // ---- positions repeat

  // The first block before turn n, and after it.
  ghost function Before(b: Block, turns: seq<Turn>, n: nat): Option<Block>
    requires n <= |turns|
  {
    Lay(b, turns, BatchStart(n), n)
  }

  ghost function Behind(b: Block, turns: seq<Turn>, n: nat): Option<Block>
    requires n < |turns|
  {
    Lay(b, turns, BatchStart(n), n + 1)
  }

  // Bytes of it in use.
  ghost function Start(b: Block, turns: seq<Turn>, n: nat): nat
    requires n <= |turns|
  {
    match Before(b, turns, n) case None => 0 case Some(c) => c.used
  }

  ghost function End(b: Block, turns: seq<Turn>, n: nat): nat
    requires n < |turns|
  {
    match Behind(b, turns, n) case None => 0 case Some(c) => c.used
  }

  // What every turn of such a stream finds and leaves.
  lemma TurnOfFitting(news: OperatorNew, turns: seq<Turn>, b: Block, n: nat)
    requires Repeats(news, turns, b) && n < |turns|
    ensures Before(b, turns, n).Some? && Behind(b, turns, n).Some?
    ensures var s, t := ArenaAt(news, turns, n), AfterTurn(news, turns, n);
      && AtFront(s) && AtFront(t)
      && s.blocks == [Before(b, turns, n).value] && t.blocks == [Behind(b, turns, n).value]
    ensures Before(b, turns, n).value.base == Behind(b, turns, n).value.base == b.base
    ensures Start(b, turns, n) <= End(b, turns, n)
  {
    hide ArenaAt;
    hide AfterTurn;
    hide LayAll;
    BatchOf(n);
    assert Lay(b, turns, BatchStart(n), n + 1).Some?;
    TurnInBlock(news, turns, b, BatchStart(n), n);
    FittingStreamKeepsOneBlock(news, turns, b, n);
  }

  // Turn n + 10 lays out what turn n did, from where turn n did.
  lemma {:induction false} LayRepeats(news: OperatorNew, turns: seq<Turn>, b: Block, lo: nat, hi: nat)
    requires Repeats(news, turns, b) && lo <= hi && hi + RESET_INTERVAL <= |turns|
    ensures Lay(b, turns, lo + RESET_INTERVAL, hi + RESET_INTERVAL) == Lay(b, turns, lo, hi)
    decreases hi
  {
    hide LayAll;
    hide Requests;
    if lo < hi {
      LayRepeats(news, turns, b, lo, hi - 1);
      assert RepeatsRequests(turns, hi - 1);
      hide Repeats;
    }
  }

  lemma BatchStartRepeats(n: nat)
    ensures BatchStart(n + RESET_INTERVAL) == BatchStart(n) + RESET_INTERVAL
  {
  }

  lemma PositionsRepeat(news: OperatorNew, turns: seq<Turn>, b: Block, n: nat)
    requires Repeats(news, turns, b) && n + RESET_INTERVAL <= |turns|
    ensures Before(b, turns, n + RESET_INTERVAL) == Before(b, turns, n)
    ensures Start(b, turns, n + RESET_INTERVAL) == Start(b, turns, n)
  {
    hide Repeats;
    hide Lay;
    BatchStartRepeats(n);
    hide BatchStart;
    LayRepeats(news, turns, b, BatchStart(n), n);
  }

  predicate SameBatch(m: nat, n: nat) {
    BatchStart(m) == BatchStart(n)
  }

  // Later turns of a batch start beyond earlier ones.
  lemma {:induction false} LayInOrder(b: Block, turns: seq<Turn>, lo: nat, m: nat, n: nat)
    requires lo <= m <= n <= |turns| && Lay(b, turns, lo, n).Some?
    ensures Lay(b, turns, lo, m).Some? && Lay(b, turns, lo, m).value.used <= Lay(b, turns, lo, n).value.used
    decreases n
  {
    hide LayAll;
    if m < n {
      LayInOrder(b, turns, lo, m, n - 1);
    }
  }

  lemma RoomBefore(news: OperatorNew, turns: seq<Turn>, b: Block, n: nat)
    requires Repeats(news, turns, b) && n < |turns|
    ensures Before(b, turns, n).Some?
  {
    TurnOfFitting(news, turns, b, n);
  }

  lemma BatchInOrder(news: OperatorNew, turns: seq<Turn>, b: Block, m: nat, n: nat)
    requires Repeats(news, turns, b) && m < n < |turns| && SameBatch(m, n)
    ensures End(b, turns, m) <= Start(b, turns, n)
  {
    hide Repeats;
    hide Lay;
    hide BatchStart;
    RoomBefore(news, turns, b, n);
    LayInOrder(b, turns, BatchStart(n), m + 1, n);
  }

  lemma OutputRequest(chunk: Chunk)
    requires FitsInt(chunk) && Accepts(chunk)
    ensures Requests(chunk) == [Output(chunk)] + Scratch(chunk)
    ensures AllModest(Requests(chunk)) && Modest(Output(chunk)) && AllModest(Scratch(chunk))
    ensures Output(chunk).size == |chunk.data| && Output(chunk).alignment == 1
  {
    RequestsModest(chunk);
    assert Requests(chunk)[0] == Output(chunk);
  }

  lemma {:induction false} RoundUpToOne(v: nat)
    ensures RoundUp(v, 1) == v
  {
    assert v <= RoundUp(v, 1) < v + 1;
  }

  // What is laid out first stands at the cursor.
  lemma LaidFirst(news: OperatorNew, s: Arena, r: Request, rest: seq<Request>)
    requires Honest(news) && AtFront(s) && Modest(r) && AllModest(rest) && r.alignment == 1 && r.size > 0
    requires LayAll(s.blocks[0], [r] + rest).Some?
    ensures Grant(news, s, r).1 == Some(s.blocks[0].base + s.blocks[0].used)
    ensures s.blocks[0].used + r.size <= LayAll(s.blocks[0], [r] + rest).value.used
  {
    SmallAlignments();
    var rs := [r] + rest;
    assert rs[0] == r && rs[1..] == rest;
    RoundUpToOne(s.blocks[0].base + s.blocks[0].used);
    hide Grant;
    GrantAtFront(news, s, r);
  }

  // The output buffer is the first thing cut in a turn.
  lemma OutputFirst(news: OperatorNew, turns: seq<Turn>, b: Block, n: nat)
    requires Repeats(news, turns, b) && n < |turns|
    requires Accepts(turns[n].chunk) && turns[n].chunk.data != []
    ensures OutputAt(news, turns, n) == Some(b.base + Start(b, turns, n))
    ensures Start(b, turns, n) + |turns[n].chunk.data| <= End(b, turns, n)
  {
    hide LayAll;
    hide Grant;
    hide GrantAll;
    hide ArenaAt;
    hide Requests;
    hide Scratch;
    hide Output;
    hide Accepts;
    hide Modest;
    TurnOfFitting(news, turns, b, n);
    OutputRequest(turns[n].chunk);
    assert Behind(b, turns, n) == LayAll(Before(b, turns, n).value, Requests(turns[n].chunk));
    LaidFirst(news, ArenaAt(news, turns, n), Output(turns[n].chunk), Scratch(turns[n].chunk));
  }

  lemma HandedOutInBlock(news: OperatorNew, turns: seq<Turn>, b: Block, n: nat, a: nat)
    requires Repeats(news, turns, b) && n < |turns|
    ensures HandedOut(ArenaAt(news, turns, n), AfterTurn(news, turns, n), a)
      ==> b.base + Start(b, turns, n) <= a < b.base + End(b, turns, n)
  {
    hide ArenaAt;
    hide AfterTurn;
    hide Lay;
    TurnOfFitting(news, turns, b, n);
  }

  lemma NextOrSameBatch(n: nat, m: nat)
    requires n < m < n + RESET_INTERVAL
    ensures SameBatch(n, m) || SameBatch(m, n + RESET_INTERVAL)
  {
  }

  lemma FirstBatch(m: nat, n: nat)
    requires m < n < RESET_INTERVAL
    ensures SameBatch(m, n)
  {
  }

  lemma RepeatsParts(news: OperatorNew, turns: seq<Turn>, b: Block)
    requires Repeats(news, turns, b)
    ensures Honest(news) && AllFit(turns) && Opened(news, b)
  {
  }

  // Between a turn and the one ten later nothing else is cut from its place.
  lemma NobodyElse(news: OperatorNew, turns: seq<Turn>, b: Block, n: nat, m: nat, a: nat)
    requires Repeats(news, turns, b) && m < |turns|
    requires (n < m < n + RESET_INTERVAL < |turns|) || (m < n < RESET_INTERVAL && n < |turns|)
    requires b.base + Start(b, turns, n) <= a < b.base + End(b, turns, n)
    ensures !HandedOut(ArenaAt(news, turns, m), AfterTurn(news, turns, m), a)
  {
    hide *;
    RepeatsParts(news, turns, b);
    HandedOutInBlock(news, turns, b, m, a);
    if m < n {
      FirstBatch(m, n);
      BatchInOrder(news, turns, b, m, n);
    } else {
      NextOrSameBatch(n, m);
      if SameBatch(n, m) {
        BatchInOrder(news, turns, b, n, m);
      } else {
        PositionsRepeat(news, turns, b, n);
        BatchInOrder(news, turns, b, m, n + RESET_INTERVAL);
      }
    }
  }

  // Memory at address a, from turn lo up to turn hi, when every turn in between
  // leaves it alone.
  lemma {:induction false} Untouched(news: OperatorNew, turns: seq<Turn>, replies: seq<Reply>, memory: Memory,
                                     lo: nat, hi: nat, a: nat)
    requires Honest(news) && AllFit(turns) && |turns| == |replies| && Trace(news, turns, replies, memory)
    requires lo <= hi <= |turns|
    requires forall m :: lo <= m < hi ==> !HandedOut(ArenaAt(news, turns, m), AfterTurn(news, turns, m), a)
    ensures memory(hi, a) == memory(lo, a)
    decreases hi
  {
    hide HandedOut;
    if lo < hi {
      Untouched(news, turns, replies, memory, lo, hi - 1, a);
      assert WritesAt(news, turns, replies, memory, hi - 1);
    }
  }

  lemma UntouchedByOthers(news: OperatorNew, turns: seq<Turn>, replies: seq<Reply>, memory: Memory, b: Block,
                          n: nat, lo: nat, hi: nat, a: nat)
    requires Repeats(news, turns, b) && |turns| == |replies| && Trace(news, turns, replies, memory)
    requires n < |turns|
    requires (lo == n + 1 && hi == n + RESET_INTERVAL < |turns|) || (lo == 0 && hi == n < RESET_INTERVAL)
    requires b.base + Start(b, turns, n) <= a < b.base + End(b, turns, n)
    ensures memory(hi, a) == memory(lo, a)
  {
    hide HandedOut;
    hide Start;
    hide End;
    hide ArenaAt;
    hide AfterTurn;
    forall m | lo <= m < hi
      ensures !HandedOut(ArenaAt(news, turns, m), AfterTurn(news, turns, m), a)
    {
      NobodyElse(news, turns, b, n, m, a);
    }
    Untouched(news, turns, replies, memory, lo, hi, a);
  }

  // ---- borders

  // An accepted frame of the given size.
  predicate Sized(chunk: Chunk, w: nat, h: nat) {
    Accepts(chunk) && chunk.width == w && chunk.height == h
  }

  predicate IsStencil(chunk: Chunk) {
    ChosenFilter(chunk) == Sharpen || ChosenFilter(chunk) == EdgeDetect
  }

  // A repeating stream in arena mode, all of it answered, with its memory.
  ghost predicate Streamed(exp: Exponential, news: OperatorNew, turns: seq<Turn>, replies: seq<Reply>, memory: Memory,
                           b: Block)
  {
    && Positive(exp) && Repeats(news, turns, b)
    && |replies| == |turns| && AnsweredInOrder(exp, turns, replies, true)
    && Trace(news, turns, replies, memory)
  }

  lemma StreamedParts(exp: Exponential, news: OperatorNew, turns: seq<Turn>, replies: seq<Reply>, memory: Memory,
                      b: Block)
    requires Streamed(exp, news, turns, replies, memory, b)
    ensures Honest(news) && AllFit(turns) && Repeats(news, turns, b)
    ensures |turns| == |replies| && Trace(news, turns, replies, memory)
    ensures Positive(exp) && AnsweredInOrder(exp, turns, replies, true)
  {
  }

  // One answer: the whole frame, and for a stencil the border its buffer had.
  lemma AnswerOfSize(exp: Exponential, turns: seq<Turn>, replies: seq<Reply>, w: nat, h: nat,
                     n: nat, y: int, x: int, c: int)
    requires Positive(exp) && AnsweredInOrder(exp, turns, replies, true) && n < |replies|
    requires Sized(turns[n].chunk, w, h) && Inside(w, h, y, x, c)
    ensures Accepts(turns[n].chunk)
    ensures replies[n].outcome.Processed? && |replies[n].outcome.data| == |turns[n].chunk.data| == 3 * (w * h)
    ensures 0 <= Offset(w, y, x, c) < 3 * (w * h)
    ensures Shown(replies[n].outcome.data, w)(y, x, c) == replies[n].outcome.data[Offset(w, y, x, c)]
    ensures IsStencil(turns[n].chunk) && !Interior(w, h, y, x) ==>
              Shown(replies[n].outcome.data, w)(y, x, c) == turns[n].stale(Offset(w, y, x, c))
  {
    OffsetInside(w, h, y, x);
    assert Answers(exp, replies[n], turns[n], true);
    RenderedAt(replies[n].outcome.data, w, h, ArenaImage(exp, turns[n].chunk, StaleBytes(turns[n])), y, x, c);
  }

  // The buffer of an answer in memory, before and after its turn.
  lemma BufferInMemory(news: OperatorNew, turns: seq<Turn>, replies: seq<Reply>, memory: Memory, b: Block,
                       n: nat, i: nat)
    requires Repeats(news, turns, b) && |turns| == |replies| && Trace(news, turns, replies, memory)
    requires n < |turns| && Accepts(turns[n].chunk) && replies[n].outcome.Processed?
    requires i < |turns[n].chunk.data| == |replies[n].outcome.data|
    ensures var a := b.base + Start(b, turns, n) + i;
      && a < b.base + End(b, turns, n)
      && turns[n].stale(i) == memory(n, a)
      && replies[n].outcome.data[i] == memory(n + 1, a)
  {
    hide Repeats;
    hide HandedOut;
    hide OutputAt;
    hide Start;
    hide End;
    hide Accepts;
    hide ArenaAt;
    hide AfterTurn;
    hide Honest;
    RepeatsParts(news, turns, b);
    OutputFirst(news, turns, b, n);
    assert WritesAt(news, turns, replies, memory, n);
    hide Trace;
    assert turns[n].stale(i) == memory(n, OutputAt(news, turns, n).value + i);
  }

  // Where sample (y, x, c) of turn n lives.
  ghost function Place(b: Block, turns: seq<Turn>, w: nat, n: nat, y: int, x: int, c: int): int
    requires n < |turns|
  {
    b.base + Start(b, turns, n) + Offset(w, y, x, c)
  }

  lemma PlaceOf(b: Block, turns: seq<Turn>, w: nat, n: nat, y: int, x: int, c: int)
    requires n < |turns|
    ensures Place(b, turns, w, n, y, x, c) == b.base + Start(b, turns, n) + Offset(w, y, x, c)
  {
  }

  lemma AnswerInMemory(exp: Exponential, news: OperatorNew, turns: seq<Turn>, replies: seq<Reply>, memory: Memory,
                       b: Block, w: nat, h: nat, n: nat, y: int, x: int, c: int)
    requires Streamed(exp, news, turns, replies, memory, b)
    requires n < |turns| && Sized(turns[n].chunk, w, h) && Inside(w, h, y, x, c)
    ensures replies[n].outcome.Processed?
    ensures var a := Place(b, turns, w, n, y, x, c);
      && b.base + Start(b, turns, n) <= a < b.base + End(b, turns, n)
      && Shown(replies[n].outcome.data, w)(y, x, c) == memory(n + 1, a)
      && (IsStencil(turns[n].chunk) && !Interior(w, h, y, x) ==>
            Shown(replies[n].outcome.data, w)(y, x, c) == memory(n, a))
  {
    hide *;
    StreamedParts(exp, news, turns, replies, memory, b);
    AnswerOfSize(exp, turns, replies, w, h, n, y, x, c);
    PlaceOf(b, turns, w, n, y, x, c);
    BufferInMemory(news, turns, replies, memory, b, n, Offset(w, y, x, c));
  }

  // A sharpened or edge-detected frame shows on its border what the answer ten
  // frames earlier showed there, whatever filter that was.
  lemma BorderReturns(exp: Exponential, news: OperatorNew, turns: seq<Turn>, replies: seq<Reply>, memory: Memory,
                      b: Block, w: nat, h: nat, n: nat, y: int, x: int, c: int)
    requires Streamed(exp, news, turns, replies, memory, b) && n + RESET_INTERVAL < |turns|
    requires Sized(turns[n].chunk, w, h) && Sized(turns[n + RESET_INTERVAL].chunk, w, h)
    requires IsStencil(turns[n + RESET_INTERVAL].chunk) && Inside(w, h, y, x, c) && !Interior(w, h, y, x)
    ensures replies[n].outcome.Processed? && replies[n + RESET_INTERVAL].outcome.Processed?
    ensures Shown(replies[n + RESET_INTERVAL].outcome.data, w)(y, x, c) == Shown(replies[n].outcome.data, w)(y, x, c)
  {
    hide *;
    var m := n + RESET_INTERVAL;
    StreamedParts(exp, news, turns, replies, memory, b);
    AnswerInMemory(exp, news, turns, replies, memory, b, w, h, n, y, x, c);
    AnswerInMemory(exp, news, turns, replies, memory, b, w, h, m, y, x, c);
    PositionsRepeat(news, turns, b, n);
    PlaceOf(b, turns, w, n, y, x, c);
    PlaceOf(b, turns, w, m, y, x, c);
    UntouchedByOthers(news, turns, replies, memory, b, n, n + 1, m, Place(b, turns, w, n, y, x, c));
  }

  // So a sharpened frame can be framed by an earlier picture: ten frames after a
  // grayscale one of its size, its border is the gray of that frame.
  lemma GrayShowsThrough(exp: Exponential, news: OperatorNew, turns: seq<Turn>, replies: seq<Reply>, memory: Memory,
                         b: Block, w: nat, h: nat, n: nat, y: int, x: int, c: int)
    requires Streamed(exp, news, turns, replies, memory, b) && n + RESET_INTERVAL < |turns|
    requires Sized(turns[n].chunk, w, h) && Sized(turns[n + RESET_INTERVAL].chunk, w, h)
    requires ChosenFilter(turns[n].chunk) == Grayscale && ChosenFilter(turns[n + RESET_INTERVAL].chunk) == Sharpen
    requires Inside(w, h, y, x, c) && !Interior(w, h, y, x)
    ensures replies[n + RESET_INTERVAL].outcome.Processed?
    ensures Shown(replies[n + RESET_INTERVAL].outcome.data, w)(y, x, c) == GrayImage(turns[n].chunk.data, w)(y, x, c)
  {
    BorderReturns(exp, news, turns, replies, memory, b, w, h, n, y, x, c);
    StreamedParts(exp, news, turns, replies, memory, b);
    hide Streamed;
    hide Repeats;
    hide Trace;
    assert Answers(exp, replies[n], turns[n], true);
    RenderedAt(replies[n].outcome.data, w, h, ArenaImage(exp, turns[n].chunk, StaleBytes(turns[n])), y, x, c);
  }

  // Turns n, n - 10, n - 20, .. are stencils of one size.
  ghost predicate StencilColumn(turns: seq<Turn>, w: nat, h: nat, n: nat)
    requires n < |turns|
  {
    && Sized(turns[n].chunk, w, h) && IsStencil(turns[n].chunk)
    && (n >= RESET_INTERVAL ==> StencilColumn(turns, w, h, n - RESET_INTERVAL))
  }

  lemma ColumnParts(turns: seq<Turn>, w: nat, h: nat, n: nat)
    requires n < |turns| && StencilColumn(turns, w, h, n)
    ensures Sized(turns[n].chunk, w, h) && IsStencil(turns[n].chunk)
    ensures n >= RESET_INTERVAL ==> var m := n - RESET_INTERVAL;
              0 <= m < n && Sized(turns[m].chunk, w, h) && StencilColumn(turns, w, h, m)
  {
  }

  // If all the frames that had this buffer were stencils, its border shows the
  // bytes the arena's block held when the stream began, however long ago.
  lemma {:induction false} BordersShowOldMemory(exp: Exponential, news: OperatorNew, turns: seq<Turn>,
                                                replies: seq<Reply>, memory: Memory, b: Block,
                                                w: nat, h: nat, n: nat, y: int, x: int, c: int)
    requires Streamed(exp, news, turns, replies, memory, b) && n < |turns| && StencilColumn(turns, w, h, n)
    requires Inside(w, h, y, x, c) && !Interior(w, h, y, x)
    ensures replies[n].outcome.Processed? && Place(b, turns, w, n, y, x, c) >= 0
    ensures Shown(replies[n].outcome.data, w)(y, x, c) == memory(0, Place(b, turns, w, n, y, x, c))
    decreases n
  {
    hide *;
    StreamedParts(exp, news, turns, replies, memory, b);
    ColumnParts(turns, w, h, n);
    AnswerInMemory(exp, news, turns, replies, memory, b, w, h, n, y, x, c);
    if n < RESET_INTERVAL {
      UntouchedByOthers(news, turns, replies, memory, b, n, 0, n, Place(b, turns, w, n, y, x, c));
    } else {
      var m := n - RESET_INTERVAL;
      BorderReturns(exp, news, turns, replies, memory, b, w, h, m, y, x, c);
      BordersShowOldMemory(exp, news, turns, replies, memory, b, w, h, m, y, x, c);
      PositionsRepeat(news, turns, b, m);
      PlaceOf(b, turns, w, m, y, x, c);
      PlaceOf(b, turns, w, n, y, x, c);
    }
  }
}
