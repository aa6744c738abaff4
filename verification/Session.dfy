// One bidirectional stream of the C++ server: the loop over frames, its arena
// with the reset every ten frames, and its contribution to the statistics.
module Session {
  import opened Common
  import opened Raster
  import opened GaussianKernel
  import opened Frames
  import opened MemoryArenas
  import opened StreamArenas
  import Model = ArenaModel

  // A write through a null pointer ends the process.
  datatype Status = OK | Cancelled | WriteFailed | Crashed

  // The counters a stream's contract speaks about.
  datatype Tally = Tally(total: nat, arenaFrames: nat, heapFrames: nat, resets: nat, active: int, peak: nat)

  // A tally after a stream of the given mode has counted some frames and resets,
  // still has `open` arenas, and has published `peak`.
  function After(before: Tally, useArena: bool, frames: nat, resets: nat, open: int, peak: nat): Tally {
    if useArena then
      Tally(before.total + frames, before.arenaFrames + frames, before.heapFrames, before.resets + resets,
            before.active + open, Max(before.peak, peak))
    else
      before.(total := before.total + frames, heapFrames := before.heapFrames + frames)
  }

  lemma AfterAfter(before: Tally, useArena: bool, frames: nat, resets: nat, open: int, peak: nat,
                   frames': nat, resets': nat, open': int, peak': nat)
    ensures After(After(before, useArena, frames, resets, open, peak), useArena, frames', resets', open', peak')
         == After(before, useArena, frames + frames', resets + resets', open + open', Max(peak, peak'))
  {
  }

  // Resets and arenas are counted in arena mode only.
  lemma HeapIgnoresResets(before: Tally, useArena: bool, frames: nat, resets: nat, resets': nat, open: int, peak: nat)
    requires useArena ==> resets == resets'
    ensures After(before, useArena, frames, resets, open, peak) == After(before, useArena, frames, resets', open, peak)
  {
  }

  class ServerStats {
    var totalFrames: nat
    var currentArenaSize: nat
    var peakArenaSize: nat
    var arenaAllocations: nat
    var arenaResets: nat
    var bytesAllocated: nat
    var activeArenas: int
    var heapAllocations: nat
    var heapBytes: nat
    var arenaFrames: nat
    var heapFrames: nat

    ghost function View(): Tally
      reads this
    {
      Tally(totalFrames, arenaFrames, heapFrames, arenaResets, activeArenas, peakArenaSize)
    }

    constructor ()
      ensures View() == Tally(0, 0, 0, 0, 0, 0)
    {
      totalFrames, currentArenaSize, peakArenaSize, arenaAllocations := 0, 0, 0, 0;
      arenaResets, bytesAllocated, activeArenas, heapAllocations := 0, 0, 0, 0;
      heapBytes, arenaFrames, heapFrames := 0, 0, 0;
    }
  }

  // memory_mode metadata: everything but "heap" and "no_arena" means arena.
  function UseArena(mode: Option<string>): bool {
    mode.None? || (mode.value != "heap" && mode.value != "no_arena")
  }

  // A stream counts frames and resets under its own mode only, "heap" and
  // "no_arena" being the heap's.
  lemma ModeDecides(before: Tally, mode: Option<string>, frames: nat, resets: nat, open: int, peak: nat)
    ensures var t := After(before, UseArena(mode), frames, resets, open, peak);
      && t.total == before.total + frames
      && if mode == Some("heap") || mode == Some("no_arena") then
           t == before.(total := t.total, heapFrames := before.heapFrames + frames)
         else
           && t.arenaFrames == before.arenaFrames + frames && t.heapFrames == before.heapFrames
           && t.resets == before.resets + resets && t.active == before.active + open
           && t.peak == if before.peak < peak then peak else before.peak
  {
  }

  function StaleBytes(turn: Turn): seq<byte> {
    seq(|turn.chunk.data|, i requires 0 <= i < |turn.chunk.data| => turn.stale(i))
  }

  // ---- what the stream owes its client and the statistics

  ghost predicate Answers(exp: Exponential, reply: Reply, turn: Turn, useArena: bool)
    requires Positive(exp)
  {
    if useArena then IsReply(reply, turn.chunk, ArenaImage(exp, turn.chunk, StaleBytes(turn)))
    else IsHeapReply(exp, reply, turn.chunk, turn.memory)
  }

  // A frame that is processed and counted.
  predicate Counts(turn: Turn, useArena: bool) {
    Accepts(turn.chunk) && (useArena || AllGranted(turn.chunk, turn.memory))
  }

  function CountedFrames(turns: seq<Turn>, useArena: bool, n: nat): nat
    requires n <= |turns|
  {
    if n == 0 then 0 else CountedFrames(turns, useArena, n - 1) + if Counts(turns[n - 1], useArena) then 1 else 0
  }

  predicate Served(turn: Turn) {
    !turn.cancelled && turn.writeOk
  }

  ghost predicate AnsweredInOrder(exp: Exponential, turns: seq<Turn>, replies: seq<Reply>, useArena: bool)
    requires Positive(exp)
  {
    && |replies| <= |turns|
    && forall i :: 0 <= i < |replies| ==> Served(turns[i]) && Answers(exp, replies[i], turns[i], useArena)
  }

  lemma AnsweredNone(exp: Exponential, turns: seq<Turn>, useArena: bool)
    requires Positive(exp)
    ensures AnsweredInOrder(exp, turns, [], useArena)
  {
  }

  lemma AnsweredExtend(exp: Exponential, turns: seq<Turn>, replies: seq<Reply>, reply: Reply, useArena: bool)
    requires Positive(exp) && AnsweredInOrder(exp, turns, replies, useArena)
    requires |replies| < |turns| && Served(turns[|replies|])
    requires Answers(exp, reply, turns[|replies|], useArena)
    ensures AnsweredInOrder(exp, turns, replies + [reply], useArena)
  {
    hide Answers;
  }

  // Sequence ids come back in the order sent, and exactly the counted frames
  // come back processed: an accepted frame fails only when a heap vector could
  // not be had, and then as a failure reply.
  lemma RepliesEchoSequenceIds(exp: Exponential, turns: seq<Turn>, replies: seq<Reply>, useArena: bool, i: nat)
    requires Positive(exp) && AnsweredInOrder(exp, turns, replies, useArena) && i < |replies|
    ensures replies[i].sequenceId == turns[i].chunk.sequenceId
    ensures replies[i].outcome.Processed? <==> Counts(turns[i], useArena)
    ensures replies[i].outcome.OutOfMemory? <==> Accepts(turns[i].chunk) && !Counts(turns[i], useArena)
  {
    assert Answers(exp, replies[i], turns[i], useArena);
  }

  // Resets counted for n frames written before the stream ended.
  function Resets(n: nat, status: Status): nat {
    match status
    case OK => (n + RESET_INTERVAL - 1) / RESET_INTERVAL
    case Cancelled => n / RESET_INTERVAL + 1
    case WriteFailed => n / RESET_INTERVAL + 1
    case Crashed => n / RESET_INTERVAL
  }

  // Where the reset count stands after n frames, f of them in an open batch.
  lemma ResetsAt(n: nat, batches: nat, f: nat)
    requires f < 10 && n == 10 * batches + f
    ensures n / RESET_INTERVAL == batches && n % RESET_INTERVAL == f
    ensures Resets(n, Crashed) == batches
    ensures Resets(n, Cancelled) == Resets(n, WriteFailed) == batches + 1
    ensures Resets(n, OK) == batches + if f > 0 then 1 else 0
  {
  }

  // ---- one frame

  // allocate_array: element size times count, natural alignment.
  method AllocateArray(news: OperatorNew, arena: MemoryArena, size: nat, alignment: nat) returns (p: Option<nat>)
    requires Honest(news) && arena.Valid() && arena.blockSize <= STREAM_BLOCK
    requires Modest(Model.Request(size, alignment))
    modifies arena
    ensures arena.Valid() && arena.blockSize == old(arena.blockSize)
    ensures (arena.View(), p) == Grant(news, old(arena.View()), Model.Request(size, alignment))
  {
    hide Model.Allocate;
    hide Model.HonestMemory;
    SmallAlignments();
    var s := arena.View();
    var mem := news(s, Max(size + alignment, s.blockSize));
    Model.AllocateCost(s, size, alignment, mem);
    p := arena.Allocate(size, alignment, mem);
  }

  // The buffers the chosen filter takes from the arena besides the output.
  method AllocateScratch(news: OperatorNew, chunk: Chunk, arena: MemoryArena) returns (lost: bool)
    requires Honest(news) && arena.Valid() && FitsInt(chunk) && arena.blockSize <= STREAM_BLOCK
    modifies arena
    ensures arena.Valid() && AllModest(Scratch(chunk))
    ensures arena.View() == GrantAll(news, old(arena.View()), Scratch(chunk))
    ensures lost == Refused(news, old(arena.View()), Scratch(chunk))
  {
    hide Grant;
    RequestsModest(chunk);
    var pixels := chunk.width * chunk.height;
    ghost var s := arena.View();
    GrantNone(news, s);
    hide GrantAll;
    hide Refused;
    hide Model.Valid;
    lost := false;
    match ChosenFilter(chunk) {
      case Sharpen =>
      case Grayscale =>
      case EdgeDetect =>
        GrantFirst(news, s, Model.Request(pixels, 1), []);
        var gray := AllocateArray(news, arena, pixels, 1);
        GrantNone(news, arena.View());
        lost := gray.None? && pixels > 0;
      case _ =>
        KernelSizeOddAndBounded(ChosenRadius(chunk));
        var kernelSize := 4 * KernelSize(ChosenRadius(chunk));
        GrantFirst(news, s, Model.Request(kernelSize, 4), [Model.Request(12 * pixels, 4)]);
        var kernel := AllocateArray(news, arena, kernelSize, 4);
        GrantFirst(news, arena.View(), Model.Request(12 * pixels, 4), []);
        var temp := AllocateArray(news, arena, 12 * pixels, 4);
        GrantNone(news, arena.View());
        lost := kernel.None? || (temp.None? && pixels > 0);
    }
  }

  // Run the filter over the recycled bytes of the output buffer.
  method FilterIntoBuffer(exp: Exponential, turn: Turn, avx2: bool) returns (data: seq<byte>)
    requires Positive(exp) && Accepts(turn.chunk)
    ensures Renders(data, turn.chunk.width, turn.chunk.height, ArenaImage(exp, turn.chunk, StaleBytes(turn)))
  {
    hide Renders;
    hide ArenaImage;
    var size := |turn.chunk.data|;
    var output := new byte[size](i requires 0 <= i < size => turn.stale(i));
    assert output[..] == StaleBytes(turn);
    ApplyFilterArena(exp, turn.chunk, output, avx2);
    data := output[..];
  }

  method ProcessChunkArena(exp: Exponential, news: OperatorNew, turn: Turn, arena: MemoryArena,
                           stats: ServerStats, avx2: bool)
    returns (reply: Reply, crashed: bool)
    requires Positive(exp) && Honest(news) && FitsInt(turn.chunk) && arena.Valid() && arena.blockSize <= STREAM_BLOCK
    modifies arena, stats
    ensures arena.Valid() && AllModest(Requests(turn.chunk))
    ensures arena.View() == GrantAll(news, old(arena.View()), Requests(turn.chunk))
    ensures crashed == Refused(news, old(arena.View()), Requests(turn.chunk))
    ensures !crashed ==> Answers(exp, reply, turn, true)
    // the buffers the filter writes were taken from the arena
    ensures !crashed && Accepts(turn.chunk) ==>
              var pixels, taken := turn.chunk.width * turn.chunk.height, arena.usedBytes - old(arena.usedBytes);
              match ChosenFilter(turn.chunk)
              case Sharpen => taken >= 3 * pixels
              case Grayscale => taken >= 3 * pixels
              case EdgeDetect => taken >= 4 * pixels
              case GaussianBlur => taken >= 15 * pixels + 4 * KernelSize(ChosenRadius(turn.chunk))
              case FilterUnspecified => taken >= 15 * pixels + 4 * KernelSize(ChosenRadius(turn.chunk))
    ensures var done := if !crashed && Accepts(turn.chunk) then 1 else 0;
            stats.View() == old(stats.View()).(total := old(stats.totalFrames) + done,
                                               arenaFrames := old(stats.arenaFrames) + done)
    ensures var size := if Accepts(turn.chunk) then 3 * (turn.chunk.width * turn.chunk.height) else 0;
      && stats.bytesAllocated == old(stats.bytesAllocated) + size
      && stats.arenaAllocations == old(stats.arenaAllocations) + if Accepts(turn.chunk) then 1 else 0
  {
    hide Renders;
    hide ArenaImage;
    hide Grant;
    hide Model.Valid;
    var chunk := turn.chunk;
    RequestsModest(chunk);
    GrantNone(news, arena.View());
    hide GrantAll;
    hide Refused;
    OwedReply(chunk, ArenaImage(exp, chunk, StaleBytes(turn)));
    hide IsReply;
    hide Scratch;
    hide Modest;
    if chunk.mediaType != Video && chunk.mediaType != Image {
      return Reply(chunk.sequenceId, UnsupportedMedia), false;
    }
    var expectedSize := 3 * (chunk.width * chunk.height);
    if |chunk.data| != expectedSize {
      return Reply(chunk.sequenceId, InvalidSize), false;
    }
    GrantFirst(news, arena.View(), Output(chunk), Scratch(chunk));
    var p := AllocateArray(news, arena, expectedSize, 1);
    stats.arenaAllocations := stats.arenaAllocations + 1;
    stats.bytesAllocated := stats.bytesAllocated + expectedSize;
    var lost := AllocateScratch(news, chunk, arena);
    if lost || (p.None? && expectedSize > 0) {
      return Reply(chunk.sequenceId, InvalidSize), true;
    }
    GrantedIsCharged(news, old(arena.View()), Requests(chunk));
    FrameNeeds(chunk);
    var data := FilterIntoBuffer(exp, turn, avx2);
    stats.totalFrames := stats.totalFrames + 1;
    stats.arenaFrames := stats.arenaFrames + 1;
    return Reply(chunk.sequenceId, Processed(data)), false;
  }

  // Vectors that reach the heap counters: all of them, or the output alone when
  // a later one throws.
  function CountedVectors(chunk: Chunk, memory: nat -> bool): (k: nat)
    ensures k <= |HeapVectors(chunk)|
  {
    if AllGranted(chunk, memory) then |HeapVectors(chunk)| else if Granted(chunk, memory, 0) then 1 else 0
  }

  // What is counted of an accepted frame, by its filter.
  lemma CountedByFilter(chunk: Chunk, memory: nat -> bool)
    ensures var pixels, kernel := chunk.width * chunk.height, 4 * KernelSize(ChosenRadius(chunk));
      var counted := HeapVectors(chunk)[..CountedVectors(chunk, memory)];
      if pixels > 0 && !memory(0) then counted == []
      else match ChosenFilter(chunk)
        case Sharpen => counted == [3 * pixels]
        case Grayscale => counted == [3 * pixels]
        case EdgeDetect => counted == if pixels == 0 || memory(1) then [3 * pixels, pixels] else [3 * pixels]
        case _ => counted == if memory(1) && (pixels == 0 || memory(2)) then [3 * pixels, kernel, 12 * pixels]
                             else [3 * pixels]
  {
    KernelSizeOddAndBounded(ChosenRadius(chunk));
  }

  lemma SumOfFew(a: nat, b: nat, c: nat)
    ensures Sum([a]) == a && Sum([a, b]) == a + b && Sum([a, b, c]) == a + b + c
  {
    assert [a][..0] == [] && [a, b][..1] == [a] && [a, b, c][..2] == [a, b];
  }

  method ProcessTurnHeap(exp: Exponential, turn: Turn, stats: ServerStats) returns (reply: Reply)
    requires Positive(exp) && FitsInt(turn.chunk)
    modifies stats
    ensures Answers(exp, reply, turn, false)
    ensures var done := if Counts(turn, false) then 1 else 0;
            stats.View() == old(stats.View()).(total := old(stats.totalFrames) + done,
                                               heapFrames := old(stats.heapFrames) + done)
    ensures var vectors := if !Accepts(turn.chunk) then []
                           else HeapVectors(turn.chunk)[..CountedVectors(turn.chunk, turn.memory)];
      && stats.heapAllocations == old(stats.heapAllocations) + |vectors|
      && stats.heapBytes == old(stats.heapBytes) + Sum(vectors)
  {
    hide IsHeapReply;
    var chunk := turn.chunk;
    reply := ProcessChunkHeap(exp, chunk, turn.memory);
    HeapReplyKind(exp, reply, chunk, turn.memory);
    BeyondGranted(chunk, turn.memory);
    hide Granted;
    hide HeapVectors;
    if Accepts(chunk) && Granted(chunk, turn.memory, 0) {
      var sizes := HeapVectors(chunk);
      stats.heapAllocations := stats.heapAllocations + 1;
      stats.heapBytes := stats.heapBytes + sizes[0];
      assert sizes[..1] == [sizes[0]] && sizes[..|sizes|] == sizes;
      SumOfFew(sizes[0], if |sizes| > 1 then sizes[1] else 0, if |sizes| > 2 then sizes[2] else 0);
      if |sizes| == 2 && Granted(chunk, turn.memory, 1) {
        assert sizes == [sizes[0], sizes[1]];
        stats.heapAllocations := stats.heapAllocations + 1;
        stats.heapBytes := stats.heapBytes + sizes[1];
      }
      if |sizes| == 3 && Granted(chunk, turn.memory, 1) && Granted(chunk, turn.memory, 2) {
        assert sizes == [sizes[0], sizes[1], sizes[2]];
        stats.heapAllocations := stats.heapAllocations + 2;
        stats.heapBytes := stats.heapBytes + (sizes[1] + sizes[2]);
      }
    }
    if reply.outcome.Processed? {
      stats.totalFrames := stats.totalFrames + 1;
      stats.heapFrames := stats.heapFrames + 1;
    }
  }

  // Process one chunk and, in arena mode, publish the arena's peak.
  method ServeTurn(exp: Exponential, news: OperatorNew, turn: Turn, useArena: bool, arena: MemoryArena,
                   stats: ServerStats, avx2: bool)
    returns (reply: Reply, crashed: bool)
    requires Positive(exp) && Honest(news) && FitsInt(turn.chunk) && arena.Valid() && arena.blockSize <= STREAM_BLOCK
    modifies arena, stats
    ensures arena.Valid() && AllModest(Requests(turn.chunk))
    ensures arena.View() == if !useArena then old(arena.View())
                            else GrantAll(news, old(arena.View()), Requests(turn.chunk))
    ensures crashed <==> useArena && Refused(news, old(arena.View()), Requests(turn.chunk))
    ensures !crashed ==> Answers(exp, reply, turn, useArena)
    ensures !crashed && useArena ==> stats.currentArenaSize == arena.usedBytes
    ensures stats.View() == if crashed then old(stats.View())
                            else After(old(stats.View()), useArena, if Counts(turn, useArena) then 1 else 0, 0, 0,
                                       arena.peakUsage)
  {
    hide Answers;
    hide Refused;
    hide GrantAll;
    hide Model.Valid;
    RequestsModest(turn.chunk);
    if useArena {
      reply, crashed := ProcessChunkArena(exp, news, turn, arena, stats, avx2);
      if !crashed {
        stats.currentArenaSize := arena.usedBytes;
        if arena.peakUsage > stats.peakArenaSize {
          stats.peakArenaSize := arena.peakUsage;
        }
      }
    } else {
      reply := ProcessTurnHeap(exp, turn, stats);
      crashed := false;
    }
  }

  // ---- the stream

  // What is fixed while a stream runs: the counters it found, operator new, its
  // turns and its mode.
  datatype Stream = Stream(before: Tally, news: OperatorNew, turns: seq<Turn>, useArena: bool)

  ghost predicate Runnable(st: Stream) {
    Honest(st.news) && AllFit(st.turns)
  }

  // The arena's state before turn n; the heap path never touches its arena.
  ghost function Before(st: Stream, n: nat): (s: Model.Arena)
    requires Runnable(st) && n <= |st.turns|
    ensures Model.Valid(s) && s.blockSize == STREAM_BLOCK
  {
    if st.useArena then ArenaAt(st.news, st.turns, n) else Fresh(st.news)
  }

  // After turn n, before any reset.
  ghost function AfterServing(st: Stream, n: nat): (s: Model.Arena)
    requires Runnable(st) && n < |st.turns|
    ensures Model.Valid(s) && s.blockSize == STREAM_BLOCK
  {
    if st.useArena then AfterTurn(st.news, st.turns, n) else Fresh(st.news)
  }

  // How a stream that ends with n answers written leaves its arena.
  ghost function Ending(st: Stream, n: nat, status: Status): Model.Arena
    requires Runnable(st) && (if status == OK || status == Cancelled then n <= |st.turns| else n < |st.turns|)
  {
    match status
    case OK => if st.useArena && n % RESET_INTERVAL > 0 then Model.Reset(Before(st, n)) else Before(st, n)
    case Cancelled => Before(st, n)
    case WriteFailed => AfterServing(st, n)
    case Crashed => AfterServing(st, n)
  }

  // From one frame to the next.
  lemma NextBefore(st: Stream, n: nat)
    requires Runnable(st) && n < |st.turns|
    ensures Before(st, n + 1) == if st.useArena && (n + 1) % RESET_INTERVAL == 0 then Model.Reset(AfterServing(st, n))
                                 else AfterServing(st, n)
  {
  }

  lemma Endings(st: Stream, n: nat)
    requires Runnable(st) && n <= |st.turns|
    ensures Ending(st, n, OK) == if st.useArena && n % RESET_INTERVAL > 0 then Model.Reset(Before(st, n))
                                 else Before(st, n)
    ensures Ending(st, n, Cancelled) == Before(st, n)
    ensures n < |st.turns| ==> Ending(st, n, WriteFailed) == Ending(st, n, Crashed) == AfterServing(st, n)
    ensures st.useArena ==> Before(st, n) == ArenaAt(st.news, st.turns, n)
  {
  }

  // The arena is in state s; n frames and `resets` resets have been counted.
  ghost predicate InStep(st: Stream, s: Model.Arena, n: nat, resets: nat, arena: MemoryArena, stats: ServerStats)
    requires n <= |st.turns|
    reads arena, stats
  {
    && arena.Valid() && arena.View() == s
    && stats.View() == After(st.before, st.useArena, CountedFrames(st.turns, st.useArena, n), resets, 1, s.peakUsage)
  }

  lemma HeapIgnoresStep(st: Stream, s: Model.Arena, n: nat, resets: nat, resets': nat,
                        arena: MemoryArena, stats: ServerStats)
    requires n <= |st.turns| && InStep(st, s, n, resets, arena, stats) && (st.useArena ==> resets == resets')
    ensures InStep(st, s, n, resets', arena, stats)
  {
    HeapIgnoresResets(st.before, st.useArena, CountedFrames(st.turns, st.useArena, n), resets, resets', 1, s.peakUsage);
  }

  // No request of the first n turns was answered with a null pointer.
  ghost predicate Fed(st: Stream, n: nat)
    requires Runnable(st)
  {
    st.useArena ==> forall i :: 0 <= i < n <= |st.turns| ==> !Starved(st.news, st.turns, i)
  }

  lemma FedOne(st: Stream, n: nat)
    requires Runnable(st) && n < |st.turns| && Fed(st, n)
    requires st.useArena ==> !Starved(st.news, st.turns, n)
    ensures Fed(st, n + 1)
  {
    hide Starved;
  }

  lemma FedNone(st: Stream)
    requires Runnable(st)
    ensures Fed(st, 0)
  {
  }

  // The counter updates around a frame, made in arena mode only.
  method Count(stats: ServerStats, useArena: bool, resets: nat, open: int)
    modifies stats
    ensures stats.View() == After(old(stats.View()), useArena, 0, resets, open, 0)
  {
    if useArena {
      stats.arenaResets := stats.arenaResets + resets;
      stats.activeArenas := stats.activeArenas + open;
    }
  }

  // The stream's own arena, with its first block of 8 MB, counted as active.
  method Open(ghost st: Stream, news: OperatorNew, useArena: bool, stats: ServerStats) returns (arena: MemoryArena)
    requires Runnable(st) && news == st.news && useArena == st.useArena && st.before == stats.View()
    modifies stats
    ensures fresh(arena) && InStep(st, Before(st, 0), 0, 0, arena, stats)
  {
    var none := Model.Arena([], None, STREAM_BLOCK, 0, 0, 0, 0, 0);
    var first := news(none, STREAM_BLOCK);
    assert Model.HonestMemory(none, STREAM_BLOCK, first);
    arena := new MemoryArena(STREAM_BLOCK, first);
    Count(stats, useArena, 0, 1);
  }

  lemma PeakGrows(st: Stream, n: nat)
    requires Runnable(st) && n < |st.turns|
    ensures Before(st, n).peakUsage <= AfterServing(st, n).peakUsage
  {
    if st.useArena {
      RequestsModest(st.turns[n].chunk);
      GrantAllCost(st.news, Before(st, n), Requests(st.turns[n].chunk));
    }
  }

  // Serve turn n.
  method ServeNext(exp: Exponential, ghost st: Stream, news: OperatorNew, turn: Turn, useArena: bool,
                   arena: MemoryArena, stats: ServerStats, avx2: bool, ghost n: nat)
    returns (reply: Reply, crashed: bool)
    requires Positive(exp) && Runnable(st) && news == st.news && useArena == st.useArena
    requires n < |st.turns| && turn == st.turns[n] && InStep(st, Before(st, n), n, n / RESET_INTERVAL, arena, stats)
    modifies arena, stats
    ensures crashed <==> useArena && Starved(news, st.turns, n)
    ensures !crashed ==> InStep(st, AfterServing(st, n), n + 1, n / RESET_INTERVAL, arena, stats)
    ensures !crashed ==> Answers(exp, reply, turn, useArena)
    ensures crashed ==> arena.Valid() && arena.View() == AfterServing(st, n)
    ensures crashed ==>
              stats.View() == After(st.before, useArena, CountedFrames(st.turns, useArena, n), n / RESET_INTERVAL, 1,
                                    Before(st, n).peakUsage)
  {
    hide Honest;
    hide Answers;
    hide Refused;
    hide GrantAll;
    hide Requests;
    hide ArenaAt;
    hide Model.Valid;
    hide Counts;
    hide After;
    RequestsModest(turn.chunk);
    PeakGrows(st, n);
    reply, crashed := ServeTurn(exp, news, turn, useArena, arena, stats, avx2);
    AfterAfter(st.before, useArena, CountedFrames(st.turns, useArena, n), n / RESET_INTERVAL, 1,
               Before(st, n).peakUsage,
               if Counts(turn, useArena) then 1 else 0, 0, 0, AfterServing(st, n).peakUsage);
  }

  // Reset the arena and count the reset.
  method CloseBatch(ghost st: Stream, arena: MemoryArena, stats: ServerStats,
                    ghost s: Model.Arena, ghost n: nat, ghost resets: nat)
    requires st.useArena && n <= |st.turns| && InStep(st, s, n, resets, arena, stats)
    modifies arena, stats
    ensures InStep(st, Model.Reset(s), n, resets + 1, arena, stats)
  {
    hide Model.Valid;
    hide After;
    AfterAfter(st.before, true, CountedFrames(st.turns, true, n), resets, 1, s.peakUsage, 0, 1, 0, 0);
    Count(stats, true, 1, 0);
    arena.Reset();
  }

  // Stop counting the arena as active; a stream cut short counts one more reset,
  // of an arena it does not reset.
  method Leave(ghost st: Stream, useArena: bool, more: nat, arena: MemoryArena, stats: ServerStats,
               ghost s: Model.Arena, ghost n: nat, ghost resets: nat, ghost counted: nat)
    requires useArena == st.useArena && n <= |st.turns| && InStep(st, s, n, resets, arena, stats)
    requires useArena ==> counted == resets + more
    modifies stats
    ensures arena.Valid() && arena.View() == s
    ensures stats.View() == After(st.before, useArena, CountedFrames(st.turns, useArena, n), counted, 0,
                                  arena.peakUsage)
  {
    hide Model.Valid;
    hide After;
    var frames := CountedFrames(st.turns, useArena, n);
    AfterAfter(st.before, useArena, frames, resets, 1, s.peakUsage, 0, more, -1, 0);
    Count(stats, useArena, more, -1);
    HeapIgnoresResets(st.before, useArena, frames, resets + more, counted, 0, s.peakUsage);
  }

  // Whatever ends it, the stream's arena stays within ten frames' cost and has
  // been reset by full batches and by a clean end only.
  lemma EndingWithinBudget(st: Stream, pixels: nat, n: nat, status: Status)
    requires Runnable(st) && FramesWithin(st.turns, pixels)
    requires if status == OK || status == Cancelled then n <= |st.turns| else n < |st.turns|
    ensures var s := Ending(st, n, status);
      && s.usedBytes <= s.peakUsage <= 10 * (15 * pixels + 130)
      && s.resetCount == (if !st.useArena then 0 else Resets(n, if status == OK then OK else Crashed))
      && (status == OK && st.useArena ==> s.usedBytes == 0)
  {
    hide GrantAll;
    if st.useArena {
      ArenaWithinBudget(st.news, st.turns, pixels, n);
      ResetsAt(n, n / RESET_INTERVAL, n % RESET_INTERVAL);
      if n < |st.turns| {
        TurnWithinBudget(st.news, st.turns, pixels, n);
      }
    }
  }

  method ProcessMediaStream(exp: Exponential, news: OperatorNew, turns: seq<Turn>, mode: Option<string>,
                            stats: ServerStats, avx2: bool)
    returns (status: Status, replies: seq<Reply>, arena: MemoryArena)
    requires Positive(exp) && Honest(news) && AllFit(turns)
    modifies stats
    ensures fresh(arena) && arena.Valid()
    ensures AnsweredInOrder(exp, turns, replies, UseArena(mode))
    ensures status == OK ==> |replies| == |turns|
    ensures status == Cancelled ==> |replies| < |turns| && turns[|replies|].cancelled
    ensures status == WriteFailed ==>
              |replies| < |turns| && !turns[|replies|].cancelled && !turns[|replies|].writeOk
    // a crash is a null pointer handed out for the very next frame, and no other
    // frame met one
    ensures status == Crashed ==>
              |replies| < |turns| && !turns[|replies|].cancelled && UseArena(mode) && Starved(news, turns, |replies|)
    ensures Fed(Stream(old(stats.View()), news, turns, UseArena(mode)),
                |replies| + if status == WriteFailed then 1 else 0)
    ensures arena.View() == Ending(Stream(old(stats.View()), news, turns, UseArena(mode)), |replies|, status)
    ensures status != Crashed ==>
              stats.View() == After(old(stats.View()), UseArena(mode),
                                    CountedFrames(turns, UseArena(mode),
                                                  |replies| + if status == WriteFailed then 1 else 0),
                                    Resets(|replies|, status), 0, arena.peakUsage)
    ensures status == Crashed ==>
              stats.View() == After(old(stats.View()), true, CountedFrames(turns, true, |replies|),
                                    Resets(|replies|, Crashed), 1, ArenaAt(news, turns, |replies|).peakUsage)
  {
    hide UseArena;
    hide Honest;
    hide Answers;
    hide AnsweredInOrder;
    hide Model.Valid;
    hide Model.Reset;
    hide Counts;
    hide CountedFrames;
    hide After;
    hide Resets;
    hide AllFit;
    hide GrantAll;
    hide ArenaAt;
    hide AfterTurn;
    hide Starved;
    hide Fed;
    hide Before;
    hide AfterServing;
    hide Ending;
    hide InStep;
    hide MemoryArena.Valid;
    hide MemoryArena.View;
    hide ServerStats.View;
    var useArena := UseArena(mode);
    ghost var st := Stream(stats.View(), news, turns, useArena);
    FedNone(st);
    arena := Open(st, news, useArena, stats);
    replies := [];
    AnsweredNone(exp, turns, useArena);
    var framesInBatch := 0;
    while |replies| < |turns|
      invariant |replies| <= |turns| && fresh(arena)
      invariant AnsweredInOrder(exp, turns, replies, useArena)
      invariant useArena ==> framesInBatch == |replies| % RESET_INTERVAL
      invariant InStep(st, Before(st, |replies|), |replies|, |replies| / RESET_INTERVAL, arena, stats)
      invariant Fed(st, |replies|)
      decreases |turns| - |replies|
    {
      ghost var n := |replies|;
      ghost var resets := n / RESET_INTERVAL;
      ResetsAt(n, resets, n % RESET_INTERVAL);
      BatchPosition(n + 1);
      Endings(st, n);
      NextBefore(st, n);
      var turn := turns[|replies|];
      if turn.cancelled {
        Leave(st, useArena, 1, arena, stats, Before(st, n), n, resets, Resets(n, Cancelled));
        return Cancelled, replies, arena;
      }
      var reply, crashed := ServeNext(exp, st, news, turn, useArena, arena, stats, avx2, n);
      if crashed {
        return Crashed, replies, arena;
      }
      FedOne(st, n);
      if !turn.writeOk {
        Leave(st, useArena, 1, arena, stats, AfterServing(st, n), n + 1, resets, Resets(n, WriteFailed));
        return WriteFailed, replies, arena;
      }
      AnsweredExtend(exp, turns, replies, reply, useArena);
      replies := replies + [reply];
      framesInBatch := framesInBatch + 1;
      if useArena && framesInBatch >= RESET_INTERVAL {
        CloseBatch(st, arena, stats, AfterServing(st, n), n + 1, resets);
        framesInBatch := 0;
      }
      HeapIgnoresStep(st, Before(st, n + 1), n + 1, if useArena then (n + 1) / RESET_INTERVAL else resets,
                      (n + 1) / RESET_INTERVAL, arena, stats);
    }
    ghost var n := |replies|;
    ghost var resets := n / RESET_INTERVAL;
    ResetsAt(n, resets, n % RESET_INTERVAL);
    Endings(st, n);
    if useArena && framesInBatch > 0 && framesInBatch < RESET_INTERVAL {
      CloseBatch(st, arena, stats, Before(st, n), n, resets);
      resets := resets + 1;
    }
    Leave(st, useArena, 0, arena, stats, Ending(st, n, OK), n, resets, Resets(n, OK));
    return OK, replies, arena;
  }
}
