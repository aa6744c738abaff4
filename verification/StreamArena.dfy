// What one stream asks of its arena: the requests of each frame, the arena's
// state before every frame, and when operator new lets the stream down.
//
// The outside world is a list of turns: what Read delivered, whether the client
// had cancelled, whether Write would succeed, the bytes a freshly bumped buffer
// would show, and which vectors of the heap path find memory.
module StreamArenas {
  import opened Common
  import opened Bits
  import opened GaussianKernel
  import opened Frames
  import opened ArenaModel

  const RESET_INTERVAL: nat := 10
  const STREAM_BLOCK: nat := 8 * 1024 * 1024

  datatype Turn = Turn(chunk: Chunk, cancelled: bool, writeOk: bool, stale: nat -> byte, memory: nat -> bool)

  // operator new: an honest block or bad_alloc.
  type OperatorNew = (Arena, nat) -> Option<nat>

  ghost predicate Honest(news: OperatorNew) {
    forall s: Arena, size: nat :: HonestMemory(s, size, news(s, size))
  }

  ghost predicate AllFit(turns: seq<Turn>) {
    forall i :: 0 <= i < |turns| ==> FitsInt(turns[i].chunk)
  }

  // ---- requests and what operator new makes of them

  predicate Modest(r: Request) {
    r.size < 0x10_0000_0000 && (r.alignment == 1 || r.alignment == 4)
  }

  ghost predicate AllModest(rs: seq<Request>) {
    forall i :: 0 <= i < |rs| ==> Modest(rs[i])
  }

  lemma SmallAlignments()
    ensures EffectiveAlignment(1) == 1 && EffectiveAlignment(4) == 4
  {
    assert Pow2(0) == 1 && Pow2(2) == 4;
  }

  // allocate, with operator new behind it.
  ghost function Grant(news: OperatorNew, s: Arena, r: Request): (t: (Arena, Option<nat>))
    requires Honest(news) && Valid(s) && s.blockSize <= STREAM_BLOCK && Modest(r)
    ensures Valid(t.0) && t.0.blockSize == s.blockSize
  {
    SmallAlignments();
    var mem := news(s, FreshSize(s, r.size, r.alignment));
    AllocateValid(s, r.size, r.alignment, mem);
    AllocateCost(s, r.size, r.alignment, mem);
    Allocate(s, r.size, r.alignment, mem)
  }

  ghost function GrantAll(news: OperatorNew, s: Arena, rs: seq<Request>): (t: Arena)
    requires Honest(news) && Valid(s) && s.blockSize <= STREAM_BLOCK && AllModest(rs)
    ensures Valid(t) && t.blockSize == s.blockSize
    decreases |rs|
  {
    if rs == [] then s else GrantAll(news, Grant(news, s, rs[0]).0, rs[1..])
  }

  // A request for at least one byte was answered with a null pointer.
  ghost predicate Refused(news: OperatorNew, s: Arena, rs: seq<Request>)
    requires Honest(news) && Valid(s) && s.blockSize <= STREAM_BLOCK && AllModest(rs)
    decreases |rs|
  {
    && rs != []
    && ((rs[0].size > 0 && Grant(news, s, rs[0]).1.None?) || Refused(news, Grant(news, s, rs[0]).0, rs[1..]))
  }

  lemma GrantFirst(news: OperatorNew, s: Arena, r: Request, rest: seq<Request>)
    requires Honest(news) && Valid(s) && s.blockSize <= STREAM_BLOCK && Modest(r) && AllModest(rest)
    ensures AllModest([r] + rest)
    ensures var (t, p) := Grant(news, s, r);
      && GrantAll(news, s, [r] + rest) == GrantAll(news, t, rest)
      && (Refused(news, s, [r] + rest) <==> (r.size > 0 && p.None?) || Refused(news, t, rest))
  {
    hide Grant;
    assert ([r] + rest)[1..] == rest;
  }

  lemma GrantNone(news: OperatorNew, s: Arena)
    requires Honest(news) && Valid(s) && s.blockSize <= STREAM_BLOCK
    ensures GrantAll(news, s, []) == s && !Refused(news, s, [])
  {
  }

  // Request k found no room in the current block, and operator new refused the
  // block it asked for.
  ghost predicate RefusedAt(news: OperatorNew, s: Arena, rs: seq<Request>, k: nat)
    requires Honest(news) && Valid(s) && s.blockSize <= STREAM_BLOCK && AllModest(rs) && k < |rs|
  {
    var u, r := GrantAll(news, s, rs[..k]), rs[k];
    && r.size > 0
    && !FitsCurrent(u, r.size, EffectiveAlignment(r.alignment))
    && news(u, FreshSize(u, r.size, r.alignment)).None?
  }

  lemma RefusedFirst(news: OperatorNew, s: Arena, rs: seq<Request>)
    requires Honest(news) && Valid(s) && s.blockSize <= STREAM_BLOCK && AllModest(rs) && rs != []
    ensures RefusedAt(news, s, rs, 0) <==> rs[0].size > 0 && Grant(news, s, rs[0]).1.None?
  {
  }

  lemma RefusedLater(news: OperatorNew, s: Arena, rs: seq<Request>, k: nat)
    requires Honest(news) && Valid(s) && s.blockSize <= STREAM_BLOCK && AllModest(rs) && 0 < k < |rs|
    ensures RefusedAt(news, s, rs, k) == RefusedAt(news, Grant(news, s, rs[0]).0, rs[1..], k - 1)
  {
    hide Grant;
    assert rs[..k][0] == rs[0] && rs[..k][1..] == rs[1..][..k - 1];
  }

  // Null pointers come from refusals of the frame's own requests and from nothing else.
  lemma {:induction false} RefusedIff(news: OperatorNew, s: Arena, rs: seq<Request>)
    requires Honest(news) && Valid(s) && s.blockSize <= STREAM_BLOCK && AllModest(rs)
    ensures Refused(news, s, rs) <==> exists k :: 0 <= k < |rs| && RefusedAt(news, s, rs, k)
    decreases |rs|
  {
    hide Grant;
    hide RefusedAt;
    if rs != [] {
      var t, rest := Grant(news, s, rs[0]).0, rs[1..];
      RefusedIff(news, t, rest);
      RefusedFirst(news, s, rs);
      forall k | 0 < k < |rs|
        ensures RefusedAt(news, s, rs, k) == RefusedAt(news, t, rest, k - 1)
      {
        RefusedLater(news, s, rs, k);
      }
      if k :| 0 <= k < |rest| && RefusedAt(news, t, rest, k) {
        assert RefusedAt(news, s, rs, k + 1);
      }
    }
  }

  // ---- the requests of a frame

  // The filter's own buffers.
  function Scratch(chunk: Chunk): seq<Request> {
    var pixels := chunk.width * chunk.height;
    KernelSizeOddAndBounded(ChosenRadius(chunk));
    match ChosenFilter(chunk)
    case Sharpen => []
    case Grayscale => []
    case EdgeDetect => [Request(pixels, 1)]
    case _ => [Request(4 * KernelSize(ChosenRadius(chunk)), 4), Request(12 * pixels, 4)]
  }

  function Output(chunk: Chunk): Request {
    Request(3 * (chunk.width * chunk.height), 1)
  }

  function Requests(chunk: Chunk): seq<Request> {
    if Accepts(chunk) then [Output(chunk)] + Scratch(chunk) else []
  }

  lemma RequestsModest(chunk: Chunk)
    requires FitsInt(chunk)
    ensures AllModest(Requests(chunk)) && Modest(Output(chunk)) && AllModest(Scratch(chunk))
  {
    KernelSizeOddAndBounded(ChosenRadius(chunk));
  }

  // ---- what a frame needs

  function TotalSize(rs: seq<Request>): nat {
    if rs == [] then 0 else rs[0].size + TotalSize(rs[1..])
  }

  lemma SizeFirst(a: Request, rest: seq<Request>)
    ensures TotalSize([a] + rest) == a.size + TotalSize(rest)
  {
    assert ([a] + rest)[1..] == rest;
  }

  lemma SizeOfFew(a: Request, b: Request, c: Request)
    ensures TotalSize([a]) == a.size && TotalSize([a, b]) == a.size + b.size
    ensures TotalSize([a, b, c]) == a.size + b.size + c.size
  {
    SizeFirst(a, []);
    SizeFirst(b, []);
    SizeFirst(c, []);
    SizeFirst(a, [b]);
    SizeFirst(b, [c]);
    SizeFirst(a, [b, c]);
    assert [a] + [b] == [a, b] && [b] + [c] == [b, c] && [a] + [b, c] == [a, b, c];
  }

  // The bytes an accepted frame asks for are those its filter writes: the output,
  // and for edges the gray buffer, for blurs the kernel and the float buffer.
  lemma FrameNeeds(chunk: Chunk)
    requires Accepts(chunk)
    ensures var pixels, size := chunk.width * chunk.height, TotalSize(Requests(chunk));
      match ChosenFilter(chunk)
      case Sharpen => size == 3 * pixels
      case Grayscale => size == 3 * pixels
      case EdgeDetect => size == 4 * pixels
      case GaussianBlur => size == 15 * pixels + 4 * KernelSize(ChosenRadius(chunk))
      case FilterUnspecified => size == 15 * pixels + 4 * KernelSize(ChosenRadius(chunk))
  {
    var out, pixels := Output(chunk), chunk.width * chunk.height;
    KernelSizeOddAndBounded(ChosenRadius(chunk));
    match ChosenFilter(chunk) {
      case Sharpen =>
        assert Requests(chunk) == [out];
        SizeOfFew(out, out, out);
      case Grayscale =>
        assert Requests(chunk) == [out];
        SizeOfFew(out, out, out);
      case EdgeDetect =>
        assert Requests(chunk) == [out, Request(pixels, 1)];
        SizeOfFew(out, Request(pixels, 1), out);
      case _ =>
        var kernel := Request(4 * KernelSize(ChosenRadius(chunk)), 4);
        assert Requests(chunk) == [out, kernel, Request(12 * pixels, 4)];
        SizeOfFew(out, kernel, Request(12 * pixels, 4));
    }
  }

  // The heap path's vectors are as many and as large.
  lemma HeapNeedsTheSame(chunk: Chunk)
    requires Accepts(chunk)
    ensures |HeapVectors(chunk)| == |Requests(chunk)|
    ensures forall i :: 0 <= i < |Requests(chunk)| ==> HeapVectors(chunk)[i] == Requests(chunk)[i].size
  {
    KernelSizeOddAndBounded(ChosenRadius(chunk));
  }

  // Requests that were all granted are charged in full.
  lemma {:induction false} GrantedIsCharged(news: OperatorNew, s: Arena, rs: seq<Request>)
    requires Honest(news) && Valid(s) && s.blockSize <= STREAM_BLOCK && AllModest(rs) && !Refused(news, s, rs)
    ensures GrantAll(news, s, rs).usedBytes >= s.usedBytes + TotalSize(rs)
    decreases |rs|
  {
    if rs != [] {
      var mem := news(s, FreshSize(s, rs[0].size, rs[0].alignment));
      SmallAlignments();
      AllocateCost(s, rs[0].size, rs[0].alignment, mem);
      hide Allocate;
      GrantedIsCharged(news, Grant(news, s, rs[0]).0, rs[1..]);
    }
  }

  // ---- the arena over a stream

  // The arena with its first block, if that could be had.
  ghost function Fresh(news: OperatorNew): (s: Arena)
    requires Honest(news)
    ensures Valid(s) && s.blockSize == STREAM_BLOCK
  {
    var none := Arena([], None, STREAM_BLOCK, 0, 0, 0, 0, 0);
    var mem := news(none, STREAM_BLOCK);
    assert HonestMemory(none, STREAM_BLOCK, mem);
    NewValid(STREAM_BLOCK, mem);
    New(STREAM_BLOCK, mem)
  }

  // Before turn n, when all earlier turns were served.
  ghost function ArenaAt(news: OperatorNew, turns: seq<Turn>, n: nat): (s: Arena)
    requires Honest(news) && AllFit(turns) && n <= |turns|
    ensures Valid(s) && s.blockSize == STREAM_BLOCK
    decreases n, 0
  {
    if n == 0 then Fresh(news)
    else if n % RESET_INTERVAL == 0 then
      ResetValid(AfterTurn(news, turns, n - 1));
      Reset(AfterTurn(news, turns, n - 1))
    else AfterTurn(news, turns, n - 1)
  }

  // After turn n, before any reset.
  ghost function AfterTurn(news: OperatorNew, turns: seq<Turn>, n: nat): (s: Arena)
    requires Honest(news) && AllFit(turns) && n < |turns|
    ensures Valid(s) && s.blockSize == STREAM_BLOCK
    decreases n, 1
  {
    RequestsModest(turns[n].chunk);
    GrantAll(news, ArenaAt(news, turns, n), Requests(turns[n].chunk))
  }

  // Turn n writes through a null pointer.
  ghost predicate Starved(news: OperatorNew, turns: seq<Turn>, n: nat)
    requires Honest(news) && AllFit(turns) && n < |turns|
  {
    RequestsModest(turns[n].chunk);
    Refused(news, ArenaAt(news, turns, n), Requests(turns[n].chunk))
  }

  // ---- cost

  // Bytes one frame may take from the arena: output and float buffer of a blur,
  // the largest kernel, and padding.
  function FrameCost(pixels: nat): nat {
    15 * pixels + 130
  }

  // Sizes with the padding below their alignments.
  function Cost(rs: seq<Request>): nat
    requires forall i :: 0 <= i < |rs| ==> rs[i].alignment > 0
  {
    if rs == [] then 0 else rs[0].size + rs[0].alignment - 1 + Cost(rs[1..])
  }

  ghost predicate FramesWithin(turns: seq<Turn>, pixels: nat) {
    && AllFit(turns)
    && forall i :: 0 <= i < |turns| && Accepts(turns[i].chunk) ==>
         turns[i].chunk.width * turns[i].chunk.height <= pixels
  }

  lemma CostOfTwo(rs: seq<Request>)
    requires |rs| == 2 && rs[0].alignment > 0 && rs[1].alignment > 0
    ensures Cost(rs) == rs[0].size + rs[0].alignment - 1 + rs[1].size + rs[1].alignment - 1
  {
    assert rs[1..] == [rs[1]];
    assert Cost([rs[1]]) == rs[1].size + rs[1].alignment - 1;
  }

  lemma RequestsCost(chunk: Chunk, pixels: nat)
    requires FitsInt(chunk) && (Accepts(chunk) ==> chunk.width * chunk.height <= pixels)
    ensures AllModest(Requests(chunk)) && Cost(Requests(chunk)) <= FrameCost(pixels)
  {
    RequestsModest(chunk);
    KernelSizeOddAndBounded(ChosenRadius(chunk));
    var rest := Scratch(chunk);
    if |rest| == 2 {
      CostOfTwo(rest);
    } else if |rest| == 1 {
      assert rest[1..] == [];
    }
    assert Cost(rest) <= 12 * (chunk.width * chunk.height) + 130;
    if Accepts(chunk) {
      assert Requests(chunk)[0] == Output(chunk) && Requests(chunk)[1..] == rest;
    }
  }

  lemma GrantCost(news: OperatorNew, s: Arena, r: Request)
    requires Honest(news) && Valid(s) && s.blockSize <= STREAM_BLOCK && Modest(r)
    ensures var t := Grant(news, s, r).0;
      && s.usedBytes <= t.usedBytes <= s.usedBytes + r.size + r.alignment - 1
      && t.peakUsage == Max(s.peakUsage, t.usedBytes)
      && t.resetCount == s.resetCount
  {
    SmallAlignments();
    AllocateCost(s, r.size, r.alignment, news(s, FreshSize(s, r.size, r.alignment)));
  }

  lemma {:induction false} GrantAllCost(news: OperatorNew, s: Arena, rs: seq<Request>)
    requires Honest(news) && Valid(s) && s.blockSize <= STREAM_BLOCK && AllModest(rs)
    ensures var t := GrantAll(news, s, rs);
      && s.usedBytes <= t.usedBytes <= s.usedBytes + Cost(rs)
      && t.peakUsage == Max(s.peakUsage, t.usedBytes)
      && t.resetCount == s.resetCount
    decreases |rs|
  {
    hide Grant;
    if rs != [] {
      GrantCost(news, s, rs[0]);
      GrantAllCost(news, Grant(news, s, rs[0]).0, rs[1..]);
    }
  }

  lemma BatchPosition(n: nat)
    requires n > 0
    ensures if n % RESET_INTERVAL == 0 then
              (n - 1) % RESET_INTERVAL == RESET_INTERVAL - 1 && n / RESET_INTERVAL == (n - 1) / RESET_INTERVAL + 1
            else
              n % RESET_INTERVAL == (n - 1) % RESET_INTERVAL + 1 && n / RESET_INTERVAL == (n - 1) / RESET_INTERVAL
  {
  }

  lemma BatchCost(f: nat, cost: nat)
    requires f < RESET_INTERVAL
    ensures f * cost + cost == (f + 1) * cost <= RESET_INTERVAL * cost
  {
    assert (RESET_INTERVAL - (f + 1)) * cost >= 0;
  }

  lemma TurnWithinBudget(news: OperatorNew, turns: seq<Turn>, pixels: nat, n: nat)
    requires Honest(news) && FramesWithin(turns, pixels) && n < |turns|
    requires var s := ArenaAt(news, turns, n);
      && s.usedBytes <= (n % RESET_INTERVAL) * FrameCost(pixels)
      && s.usedBytes <= s.peakUsage <= RESET_INTERVAL * FrameCost(pixels)
    ensures var s, t := ArenaAt(news, turns, n), AfterTurn(news, turns, n);
      && s.usedBytes <= t.usedBytes <= (n % RESET_INTERVAL + 1) * FrameCost(pixels)
      && t.usedBytes <= t.peakUsage <= RESET_INTERVAL * FrameCost(pixels)
      && t.resetCount == s.resetCount
  {
    hide FrameCost;
    hide GrantAll;
    hide ArenaAt;
    hide Requests;
    RequestsCost(turns[n].chunk, pixels);
    GrantAllCost(news, ArenaAt(news, turns, n), Requests(turns[n].chunk));
    BatchCost(n % RESET_INTERVAL, FrameCost(pixels));
  }

  // Before turn n the arena has been reset n/10 times and holds at most what the
  // frames of the open batch may cost.
  lemma {:induction false} ArenaWithinBudget(news: OperatorNew, turns: seq<Turn>, pixels: nat, n: nat)
    requires Honest(news) && FramesWithin(turns, pixels) && n <= |turns|
    ensures var s := ArenaAt(news, turns, n);
      && s.resetCount == n / RESET_INTERVAL
      && s.usedBytes <= (n % RESET_INTERVAL) * FrameCost(pixels)
      && s.usedBytes <= s.peakUsage <= RESET_INTERVAL * FrameCost(pixels)
    decreases n
  {
    hide FrameCost;
    hide AfterTurn;
    hide FramesWithin;
    hide Valid;
    if n > 0 {
      ArenaWithinBudget(news, turns, pixels, n - 1);
      TurnWithinBudget(news, turns, pixels, n - 1);
      BatchPosition(n);
    }
  }
}
