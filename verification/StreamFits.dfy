// Which streams live in the arena's first block: exactly those whose batches of
// ten frames fit it. They need operator new no more; the others depend on it,
// and make the arena grow with every batch that overflows.
module StreamFits {
  import opened Common
  import opened Bits
  import opened Frames
  import opened ArenaModel
  import opened StreamArenas
  import ArenaRuns

  // ---- laying requests out in a block by itself

  ghost function LayAll(b: Block, rs: seq<Request>): (r: Option<Block>)
    ensures r.Some? ==> r.value.base == b.base && r.value.size == b.size && b.used <= r.value.used
    decreases |rs|
  {
    if rs == [] then Some(b)
    else match ArenaRuns.Place(b, rs[0])
      case None => None
      case Some(c) => LayAll(c, rs[1..])
  }

  // The requests of turns lo, .., hi - 1; None when one does not fit.
  ghost function Lay(b: Block, turns: seq<Turn>, lo: nat, hi: nat): (r: Option<Block>)
    requires lo <= hi <= |turns|
    ensures r.Some? ==> r.value.base == b.base && r.value.size == b.size && b.used <= r.value.used
    decreases hi
  {
    if lo == hi then Some(b)
    else match Lay(b, turns, lo, hi - 1)
      case None => None
      case Some(c) => LayAll(c, Requests(turns[hi - 1].chunk))
  }

  // The first turn of the batch that turn n belongs to.
  function BatchStart(n: nat): (m: nat)
    ensures m <= n
  {
    n - n % RESET_INTERVAL
  }

  predicate InBatch(lo: nat, n: nat) {
    lo % RESET_INTERVAL == 0 && lo <= n < lo + RESET_INTERVAL
  }

  lemma BatchOf(n: nat)
    ensures InBatch(BatchStart(n), n)
  {
  }

  lemma EarlierInBatch(lo: nat, n: nat)
    requires InBatch(lo, n)
    ensures lo < n ==> InBatch(lo, n - 1)
  {
  }

  lemma BatchUnique(lo: nat, n: nat)
    requires InBatch(lo, n)
    ensures BatchStart(n) == lo && (n % RESET_INTERVAL == 0 <==> n == lo)
  {
  }

  // Every batch, as far as it goes, fits the block when empty.
  ghost predicate BatchesFit(b: Block, turns: seq<Turn>) {
    forall n :: 0 <= n < |turns| ==> Lay(b, turns, BatchStart(n), n + 1).Some?
  }

  // ---- one request, and a list of them, with the front block current

  ghost predicate AtFront(s: Arena) {
    Valid(s) && s.blockSize == STREAM_BLOCK && s.current == Some(0)
  }

  lemma GrantAtFront(news: OperatorNew, s: Arena, r: Request)
    requires Honest(news) && AtFront(s) && Modest(r) && ArenaRuns.Place(s.blocks[0], r).Some?
    ensures var (t, p) := Grant(news, s, r);
      && AtFront(t) && t.allocatedBytes == s.allocatedBytes
      && t.blocks == s.blocks[0 := ArenaRuns.Place(s.blocks[0], r).value]
      && p == if r.size == 0 then None else Some(RoundUp(s.blocks[0].base + s.blocks[0].used, r.alignment))
  {
    SmallAlignments();
    hide Allocate;
    hide EffectiveAlignment;
    hide RoundUp;
    hide ArenaRuns.Place;
    ArenaRuns.FrontStep(s, ArenaRuns.Alloc(r, news(s, FreshSize(s, r.size, r.alignment))));
  }

  lemma GrantPastFront(news: OperatorNew, s: Arena, r: Request)
    requires Honest(news) && AtFront(s) && Modest(r) && ArenaRuns.Place(s.blocks[0], r).None?
    ensures var (t, p) := Grant(news, s, r);
      && r.size > 0
      && (p.None? <==> news(s, FreshSize(s, r.size, r.alignment)).None?)
      && (p.Some? ==> t.allocatedBytes >= s.allocatedBytes + STREAM_BLOCK)
  {
  }

  // Blocks are only added, behind the first one, and never move.
  ghost predicate Grown(s: Arena, t: Arena) {
    && s.allocatedBytes <= t.allocatedBytes
    && (s.blocks != [] ==> t.blocks != [] && t.current.Some?
                           && t.blocks[0].base == s.blocks[0].base && t.blocks[0].size == s.blocks[0].size)
  }

  lemma GrantGrows(news: OperatorNew, s: Arena, r: Request)
    requires Honest(news) && Valid(s) && s.blockSize <= STREAM_BLOCK && Modest(r)
    ensures Grown(s, Grant(news, s, r).0)
  {
  }

  lemma {:induction false} GrantAllGrows(news: OperatorNew, s: Arena, rs: seq<Request>)
    requires Honest(news) && Valid(s) && s.blockSize <= STREAM_BLOCK && AllModest(rs)
    ensures Grown(s, GrantAll(news, s, rs))
    decreases |rs|
  {
    hide Grant;
    if rs != [] {
      GrantGrows(news, s, rs[0]);
      GrantAllGrows(news, Grant(news, s, rs[0]).0, rs[1..]);
    }
  }

  lemma {:induction false} GrantAllAtFront(news: OperatorNew, s: Arena, rs: seq<Request>)
    requires Honest(news) && AtFront(s) && AllModest(rs) && LayAll(s.blocks[0], rs).Some?
    ensures var t := GrantAll(news, s, rs);
      && AtFront(t) && t.allocatedBytes == s.allocatedBytes
      && t.blocks == s.blocks[0 := LayAll(s.blocks[0], rs).value]
    ensures !Refused(news, s, rs)
    decreases |rs|
  {
    hide Grant;
    hide ArenaRuns.Place;
    if rs != [] {
      GrantAtFront(news, s, rs[0]);
      GrantAllAtFront(news, Grant(news, s, rs[0]).0, rs[1..]);
    }
  }

  // operator new gives the first block and nothing after it.
  ghost predicate Stingy(news: OperatorNew) {
    forall s: Arena, size: nat :: s.blocks != [] ==> news(s, size).None?
  }

  lemma {:induction false} GrantAllPastFront(news: OperatorNew, s: Arena, rs: seq<Request>)
    requires Honest(news) && AtFront(s) && AllModest(rs) && LayAll(s.blocks[0], rs).None?
    ensures Refused(news, s, rs) || GrantAll(news, s, rs).allocatedBytes >= s.allocatedBytes + STREAM_BLOCK
    ensures Stingy(news) ==> Refused(news, s, rs)
    decreases |rs|
  {
    hide Grant;
    hide ArenaRuns.Place;
    var t := Grant(news, s, rs[0]).0;
    if ArenaRuns.Place(s.blocks[0], rs[0]).Some? {
      GrantAtFront(news, s, rs[0]);
      GrantAllPastFront(news, t, rs[1..]);
    } else {
      GrantPastFront(news, s, rs[0]);
      GrantAllGrows(news, t, rs[1..]);
    }
  }

  // ---- turns of a stream

  // The stream's first block was granted: this one.
  ghost predicate Opened(news: OperatorNew, b: Block)
    requires Honest(news)
  {
    Fresh(news).blocks == [b]
  }

  lemma OpenedBlock(news: OperatorNew, b: Block)
    requires Honest(news) && Opened(news, b)
    ensures b.used == 0 && b.size == STREAM_BLOCK && AtFront(Fresh(news)) && Fresh(news).allocatedBytes == STREAM_BLOCK
  {
    assert Sizes(Fresh(news).blocks) == [STREAM_BLOCK];
    assert Sum([STREAM_BLOCK]) == Sum([]) + STREAM_BLOCK by {
      assert [STREAM_BLOCK][..0] == [];
    }
  }

  lemma TurnGrows(news: OperatorNew, turns: seq<Turn>, n: nat)
    requires Honest(news) && AllFit(turns) && n < |turns|
    ensures Grown(ArenaAt(news, turns, n), AfterTurn(news, turns, n))
    ensures ArenaAt(news, turns, n + 1).allocatedBytes == AfterTurn(news, turns, n).allocatedBytes
    ensures |ArenaAt(news, turns, n + 1).blocks| == |AfterTurn(news, turns, n).blocks|
  {
    hide GrantAll;
    RequestsModest(turns[n].chunk);
    GrantAllGrows(news, ArenaAt(news, turns, n), Requests(turns[n].chunk));
  }

  // The first block stays where it is.
  lemma {:induction false} FirstBlockStays(news: OperatorNew, turns: seq<Turn>, b: Block, n: nat)
    requires Honest(news) && AllFit(turns) && Opened(news, b) && n <= |turns|
    ensures var s := ArenaAt(news, turns, n);
      && s.blocks != [] && s.current.Some? && s.blocks[0].base == b.base && s.blocks[0].size == b.size
      && (n % RESET_INTERVAL == 0 ==> AtFront(s) && s.blocks[0] == b)
    decreases n
  {
    hide GrantAll;
    OpenedBlock(news, b);
    if n > 0 {
      FirstBlockStays(news, turns, b, n - 1);
      TurnGrows(news, turns, n - 1);
    }
  }

  lemma NoReset(news: OperatorNew, turns: seq<Turn>, lo: nat, n: nat)
    requires Honest(news) && AllFit(turns) && InBatch(lo, n) && lo < n <= |turns|
    ensures ArenaAt(news, turns, n) == AfterTurn(news, turns, n - 1)
  {
    BatchUnique(lo, n);
  }

  lemma TurnLaid(news: OperatorNew, turns: seq<Turn>, n: nat)
    requires Honest(news) && AllFit(turns) && n < |turns| && AtFront(ArenaAt(news, turns, n))
    requires LayAll(ArenaAt(news, turns, n).blocks[0], Requests(turns[n].chunk)).Some?
    ensures var s, t := ArenaAt(news, turns, n), AfterTurn(news, turns, n);
      && AtFront(t) && t.allocatedBytes == s.allocatedBytes
      && t.blocks == s.blocks[0 := LayAll(s.blocks[0], Requests(turns[n].chunk)).value]
    ensures !Starved(news, turns, n)
  {
    hide GrantAll;
    hide Refused;
    hide LayAll;
    hide ArenaAt;
    RequestsModest(turns[n].chunk);
    GrantAllAtFront(news, ArenaAt(news, turns, n), Requests(turns[n].chunk));
  }

  lemma TurnSpills(news: OperatorNew, turns: seq<Turn>, n: nat)
    requires Honest(news) && AllFit(turns) && n < |turns| && AtFront(ArenaAt(news, turns, n))
    requires LayAll(ArenaAt(news, turns, n).blocks[0], Requests(turns[n].chunk)).None?
    ensures Starved(news, turns, n)
         || AfterTurn(news, turns, n).allocatedBytes >= ArenaAt(news, turns, n).allocatedBytes + STREAM_BLOCK
    ensures Stingy(news) ==> Starved(news, turns, n)
  {
    hide GrantAll;
    hide Refused;
    hide LayAll;
    hide ArenaAt;
    RequestsModest(turns[n].chunk);
    GrantAllPastFront(news, ArenaAt(news, turns, n), Requests(turns[n].chunk));
  }

  // While a batch fits, the arena is its layout in the first block.
  lemma {:induction false} BatchInBlock(news: OperatorNew, turns: seq<Turn>, b: Block, lo: nat, n: nat)
    requires Honest(news) && AllFit(turns) && Opened(news, b) && InBatch(lo, n) && n <= |turns|
    requires Lay(b, turns, lo, n).Some?
    ensures var s, first := ArenaAt(news, turns, n), ArenaAt(news, turns, lo);
      && AtFront(first) && AtFront(s) && s.blocks == first.blocks[0 := Lay(b, turns, lo, n).value]
      && s.allocatedBytes == first.allocatedBytes
    decreases n
  {
    hide Honest;
    hide AllFit;
    hide Valid;
    hide ArenaAt;
    hide GrantAll;
    hide LayAll;
    FirstBlockStays(news, turns, b, lo);
    EarlierInBatch(lo, n);
    assert AtFront(ArenaAt(news, turns, lo)) && ArenaAt(news, turns, lo).blocks[0] == b;
    hide InBatch;
    hide AfterTurn;
    if lo < n {
      NoReset(news, turns, lo, n);
      BatchInBlock(news, turns, b, lo, n - 1);
      TurnLaid(news, turns, n - 1);
    }
  }

  // A turn that fits behind what its batch has laid out so far.
  lemma TurnInBlock(news: OperatorNew, turns: seq<Turn>, b: Block, lo: nat, n: nat)
    requires Honest(news) && AllFit(turns) && Opened(news, b) && InBatch(lo, n) && n < |turns|
    requires Lay(b, turns, lo, n + 1).Some?
    ensures Lay(b, turns, lo, n).Some?
    ensures var s, t := ArenaAt(news, turns, n), AfterTurn(news, turns, n);
      && AtFront(s) && AtFront(t)
      && s.blocks[0] == Lay(b, turns, lo, n).value
      && t.blocks == s.blocks[0 := Lay(b, turns, lo, n + 1).value]
      && t.allocatedBytes == s.allocatedBytes
    ensures !Starved(news, turns, n)
  {
    hide Honest;
    hide AllFit;
    hide LayAll;
    hide ArenaAt;
    hide AfterTurn;
    hide Starved;
    BatchInBlock(news, turns, b, lo, n);
    TurnLaid(news, turns, n);
  }

  // A turn that does not: it lives on operator new.
  lemma TurnPastBlock(news: OperatorNew, turns: seq<Turn>, b: Block, lo: nat, n: nat)
    requires Honest(news) && AllFit(turns) && Opened(news, b) && InBatch(lo, n) && n < |turns|
    requires Lay(b, turns, lo, n).Some? && Lay(b, turns, lo, n + 1).None?
    ensures Starved(news, turns, n)
         || AfterTurn(news, turns, n).allocatedBytes >= ArenaAt(news, turns, n).allocatedBytes + STREAM_BLOCK
    ensures ArenaAt(news, turns, n).allocatedBytes == ArenaAt(news, turns, lo).allocatedBytes
    ensures Stingy(news) ==> Starved(news, turns, n)
  {
    hide Honest;
    hide AllFit;
    hide LayAll;
    hide ArenaAt;
    hide AfterTurn;
    hide Starved;
    BatchInBlock(news, turns, b, lo, n);
    TurnSpills(news, turns, n);
  }

  // ---- who needs operator new

  lemma FirstHolds(news: OperatorNew, turns: seq<Turn>, b: Block)
    requires Honest(news) && AllFit(turns) && Opened(news, b)
    ensures ArenaAt(news, turns, 0).allocatedBytes == STREAM_BLOCK && |ArenaAt(news, turns, 0).blocks| == 1
  {
    OpenedBlock(news, b);
  }

  // A stream whose batches fit holds its first block and no more.
  lemma {:induction false} FittingStreamKeepsOneBlock(news: OperatorNew, turns: seq<Turn>, b: Block, n: nat)
    requires Honest(news) && AllFit(turns) && Opened(news, b) && BatchesFit(b, turns) && n <= |turns|
    ensures ArenaAt(news, turns, n).allocatedBytes == 8_388_608 && |ArenaAt(news, turns, n).blocks| == 1
    decreases n
  {
    hide Honest;
    hide AllFit;
    hide Valid;
    hide ArenaAt;
    hide AfterTurn;
    hide Lay;
    hide BatchStart;
    hide InBatch;
    FirstHolds(news, turns, b);
    if n > 0 {
      FittingStreamKeepsOneBlock(news, turns, b, n - 1);
      BatchOf(n - 1);
      assert Lay(b, turns, BatchStart(n - 1), n).Some?;
      TurnInBlock(news, turns, b, BatchStart(n - 1), n - 1);
      TurnGrows(news, turns, n - 1);
    }
  }

  // No turn of the stream is starved, whoever operator new is, as long as it
  // granted the first block b.
  ghost predicate NeverStarves(b: Block, turns: seq<Turn>)
    requires AllFit(turns)
  {
    forall news: OperatorNew, n: nat :: Honest(news) && Opened(news, b) && n < |turns| ==> !Starved(news, turns, n)
  }

  ghost function OnlyFirst(base: nat): OperatorNew {
    (s: Arena, size: nat) => if s.blocks == [] && s.blockSize == size == STREAM_BLOCK then Some(base) else None
  }

  lemma OnlyFirstIsStingy(b: Block)
    requires b.used == 0 && b.size == STREAM_BLOCK && b.base + b.size <= ADDRESS_LIMIT
    ensures var news := OnlyFirst(b.base); Honest(news) && Stingy(news) && Opened(news, b)
  {
    var news := OnlyFirst(b.base);
    forall s: Arena, size: nat
      ensures HonestMemory(s, size, news(s, size))
    {
    }
    assert Honest(news);
  }

  // The first turn that does not fit is starved by a stingy operator new.
  lemma {:induction false} SomeTurnStarves(news: OperatorNew, turns: seq<Turn>, b: Block, lo: nat, n: nat)
    requires Honest(news) && AllFit(turns) && Opened(news, b) && Stingy(news) && InBatch(lo, n) && n < |turns|
    requires Lay(b, turns, lo, n + 1).None?
    ensures exists m: nat :: m < |turns| && Starved(news, turns, m)
    decreases n
  {
    hide LayAll;
    hide Starved;
    if Lay(b, turns, lo, n).Some? {
      TurnPastBlock(news, turns, b, lo, n);
    } else {
      SomeTurnStarves(news, turns, b, lo, n - 1);
    }
  }

  // A stream is safe from null pointers on the strength of its first block alone
  // exactly when its batches fit that block.
  lemma NeverStarvesIff(b: Block, turns: seq<Turn>)
    requires AllFit(turns) && b.used == 0 && b.size == STREAM_BLOCK && b.base + b.size <= ADDRESS_LIMIT
    ensures NeverStarves(b, turns) <==> BatchesFit(b, turns)
  {
    hide Starved;
    hide Lay;
    hide Opened;
    if BatchesFit(b, turns) {
      forall news: OperatorNew, n: nat | Honest(news) && Opened(news, b) && n < |turns|
        ensures !Starved(news, turns, n)
      {
        BatchOf(n);
        TurnInBlock(news, turns, b, BatchStart(n), n);
      }
    } else {
      var n :| 0 <= n < |turns| && Lay(b, turns, BatchStart(n), n + 1).None?;
      OnlyFirstIsStingy(b);
      BatchOf(n);
      SomeTurnStarves(OnlyFirst(b.base), turns, b, BatchStart(n), n);
    }
  }

  // ---- tests by sizes alone

  function CostOf(turns: seq<Turn>, lo: nat, hi: nat): nat
    requires AllFit(turns) && lo <= hi <= |turns|
    decreases hi
  {
    if lo == hi then 0
    else
      RequestsModest(turns[hi - 1].chunk);
      CostOf(turns, lo, hi - 1) + Cost(Requests(turns[hi - 1].chunk))
  }

  // Sizes and padding of no batch exceed the block.
  ghost predicate CheapBatches(turns: seq<Turn>)
    requires AllFit(turns)
  {
    forall n :: 0 <= n < |turns| ==> CostOf(turns, BatchStart(n), n + 1) <= STREAM_BLOCK
  }

  lemma {:induction false} LayAllByCost(b: Block, rs: seq<Request>)
    requires AllModest(rs) && b.used + Cost(rs) <= b.size
    ensures LayAll(b, rs).Some? && LayAll(b, rs).value.used <= b.used + Cost(rs)
    decreases |rs|
  {
    SmallAlignments();
    if rs != [] {
      LayAllByCost(ArenaRuns.Place(b, rs[0]).value, rs[1..]);
    }
  }

  lemma {:induction false} LayByCost(b: Block, turns: seq<Turn>, lo: nat, hi: nat)
    requires AllFit(turns) && lo <= hi <= |turns| && b.used + CostOf(turns, lo, hi) <= b.size
    ensures Lay(b, turns, lo, hi).Some? && Lay(b, turns, lo, hi).value.used <= b.used + CostOf(turns, lo, hi)
    decreases hi
  {
    hide LayAll;
    if lo < hi {
      LayByCost(b, turns, lo, hi - 1);
      RequestsModest(turns[hi - 1].chunk);
      LayAllByCost(Lay(b, turns, lo, hi - 1).value, Requests(turns[hi - 1].chunk));
    }
  }

  lemma CheapBatchesFit(b: Block, turns: seq<Turn>)
    requires AllFit(turns) && CheapBatches(turns) && b.used == 0 && b.size == STREAM_BLOCK
    ensures BatchesFit(b, turns)
  {
    forall n | 0 <= n < |turns|
      ensures Lay(b, turns, BatchStart(n), n + 1).Some?
    {
      LayByCost(b, turns, BatchStart(n), n + 1);
    }
  }

  // If the requests of ten frames fit 8 MB at their own cost and the first block
  // was granted, no turn of a stream of any length needs operator new again.
  lemma SmallFramesNeverStarve(news: OperatorNew, turns: seq<Turn>, n: nat)
    requires Honest(news) && AllFit(turns) && CheapBatches(turns) && Fresh(news).blocks != [] && n < |turns|
    ensures !Starved(news, turns, n)
    ensures AfterTurn(news, turns, n).allocatedBytes == STREAM_BLOCK
  {
    var b := Fresh(news).blocks[0];
    assert Opened(news, b);
    OpenedBlock(news, b);
    CheapBatchesFit(b, turns);
    BatchOf(n);
    assert Lay(b, turns, BatchStart(n), n + 1).Some?;
    TurnInBlock(news, turns, b, BatchStart(n), n);
    FittingStreamKeepsOneBlock(news, turns, b, n);
  }

  lemma OneMoreFrame(k: nat, cost: nat)
    requires k > 0
    ensures k * cost == (k - 1) * cost + cost
  {
  }

  lemma OneFrame(turns: seq<Turn>, pixels: nat, n: nat)
    requires FramesWithin(turns, pixels) && n < |turns|
    ensures AllFit(turns) && AllModest(Requests(turns[n].chunk))
    ensures Cost(Requests(turns[n].chunk)) <= FrameCost(pixels)
  {
    RequestsCost(turns[n].chunk, pixels);
  }

  lemma {:induction false} CostByPixels(turns: seq<Turn>, pixels: nat, lo: nat, hi: nat)
    requires FramesWithin(turns, pixels) && lo <= hi <= |turns|
    ensures CostOf(turns, lo, hi) <= (hi - lo) * FrameCost(pixels)
    decreases hi
  {
    hide FrameCost;
    hide Cost;
    hide Requests;
    hide FitsInt;
    if lo < hi {
      OneMoreFrame(hi - lo, FrameCost(pixels));
      OneFrame(turns, pixels, hi - 1);
      hide FramesWithin;
      CostByPixels(turns, pixels, lo, hi - 1);
    }
  }

  // Whatever the filters, frames of which ten fit at the cost of a blur.
  lemma CheapByPixels(turns: seq<Turn>, pixels: nat)
    requires FramesWithin(turns, pixels) && RESET_INTERVAL * FrameCost(pixels) <= STREAM_BLOCK
    ensures CheapBatches(turns)
  {
    hide FrameCost;
    forall n | 0 <= n < |turns|
      ensures CostOf(turns, BatchStart(n), n + 1) <= STREAM_BLOCK
    {
      CostByPixels(turns, pixels, BatchStart(n), n + 1);
      BatchCost(n % RESET_INTERVAL, FrameCost(pixels));
    }
  }

  // ---- streams that outgrow the block

  // A batch that does not fit costs at least one more block.
  lemma {:induction false} OverflowingBatchGrows(news: OperatorNew, turns: seq<Turn>, b: Block, lo: nat, hi: nat)
    requires Honest(news) && AllFit(turns) && Opened(news, b)
    requires lo < hi <= |turns| && InBatch(lo, hi - 1) && Lay(b, turns, lo, hi).None?
    requires forall i :: lo <= i < hi ==> !Starved(news, turns, i)
    ensures ArenaAt(news, turns, hi).allocatedBytes >= ArenaAt(news, turns, lo).allocatedBytes + STREAM_BLOCK
    decreases hi
  {
    hide Honest;
    hide AllFit;
    hide Valid;
    hide ArenaAt;
    hide AfterTurn;
    hide LayAll;
    hide Starved;
    TurnGrows(news, turns, hi - 1);
    if Lay(b, turns, lo, hi - 1).None? {
      EarlierInBatch(lo, hi - 1);
      hide InBatch;
      OverflowingBatchGrows(news, turns, b, lo, hi - 1);
    } else {
      TurnPastBlock(news, turns, b, lo, hi - 1);
    }
  }

  // When no batch of ten fits and no request is refused, every ten frames add at
  // least 8 MB to what the arena holds.
  lemma {:induction false} OverflowingStreamGrows(news: OperatorNew, turns: seq<Turn>, b: Block, k: nat)
    requires Honest(news) && AllFit(turns) && Opened(news, b) && RESET_INTERVAL * k <= |turns|
    requires forall j :: 0 <= j < k ==>
               Lay(b, turns, RESET_INTERVAL * j, RESET_INTERVAL * j + RESET_INTERVAL).None?
    requires forall i :: 0 <= i < RESET_INTERVAL * k ==> !Starved(news, turns, i)
    ensures ArenaAt(news, turns, RESET_INTERVAL * k).allocatedBytes >= (k + 1) * STREAM_BLOCK
    decreases k
  {
    hide ArenaAt;
    hide Lay;
    hide Starved;
    if k == 0 {
      FirstHolds(news, turns, b);
    } else {
      OverflowingStreamGrows(news, turns, b, k - 1);
      var lo := RESET_INTERVAL * (k - 1);
      OverflowingBatchGrows(news, turns, b, lo, lo + RESET_INTERVAL);
    }
  }

  lemma {:induction false} LayAllTakes(b: Block, rs: seq<Request>)
    requires LayAll(b, rs).Some? && b.used <= b.size
    ensures b.used + TotalSize(rs) <= LayAll(b, rs).value.used <= b.size
    decreases |rs|
  {
    if rs != [] {
      LayAllTakes(ArenaRuns.Place(b, rs[0]).value, rs[1..]);
    }
  }

  // Accepted frames of the gateway's default size, to be blurred.
  ghost predicate DefaultBlurs(turns: seq<Turn>) {
    forall n :: 0 <= n < |turns| ==>
      && Accepts(turns[n].chunk) && turns[n].chunk.width == 640 && turns[n].chunk.height == 480
      && (ChosenFilter(turns[n].chunk) == GaussianBlur || ChosenFilter(turns[n].chunk) == FilterUnspecified)
  }

  // Bytes the buffers of some turns need, padding aside.
  function SizeOf(turns: seq<Turn>, lo: nat, hi: nat): nat
    requires lo <= hi <= |turns|
    decreases hi
  {
    if lo == hi then 0 else SizeOf(turns, lo, hi - 1) + TotalSize(Requests(turns[hi - 1].chunk))
  }

  lemma {:induction false} LayTakes(b: Block, turns: seq<Turn>, lo: nat, hi: nat)
    requires lo <= hi <= |turns| && b.used <= b.size && Lay(b, turns, lo, hi).Some?
    ensures b.used + SizeOf(turns, lo, hi) <= Lay(b, turns, lo, hi).value.used <= b.size
    decreases hi
  {
    hide LayAll;
    hide TotalSize;
    if lo < hi {
      LayTakes(b, turns, lo, hi - 1);
      LayAllTakes(Lay(b, turns, lo, hi - 1).value, Requests(turns[hi - 1].chunk));
    }
  }

  lemma {:induction false} SizeAtLeast(turns: seq<Turn>, lo: nat, hi: nat, each: nat)
    requires lo <= hi <= |turns|
    requires forall n :: lo <= n < hi ==> TotalSize(Requests(turns[n].chunk)) >= each
    ensures SizeOf(turns, lo, hi) >= (hi - lo) * each
    decreases hi
  {
    hide Requests;
    hide TotalSize;
    if lo < hi {
      OneMoreFrame(hi - lo, each);
      SizeAtLeast(turns, lo, hi - 1, each);
    }
  }

  // Ten blurs of 640 x 480 exceed 8 MB.
  lemma DefaultBlursOverflow(turns: seq<Turn>, b: Block, lo: nat)
    requires DefaultBlurs(turns) && lo + RESET_INTERVAL <= |turns| && b.used == 0 && b.size == STREAM_BLOCK
    ensures Lay(b, turns, lo, lo + RESET_INTERVAL).None?
  {
    forall n | lo <= n < lo + RESET_INTERVAL
      ensures TotalSize(Requests(turns[n].chunk)) >= 15 * (640 * 480)
    {
      FrameNeeds(turns[n].chunk);
    }
    SizeAtLeast(turns, lo, lo + RESET_INTERVAL, 15 * (640 * 480));
    hide SizeOf;
    hide Lay;
    if Lay(b, turns, lo, lo + RESET_INTERVAL).Some? {
      LayTakes(b, turns, lo, lo + RESET_INTERVAL);
    }
  }

  // Accepted frames of 512 x 512 pixels, to be searched for edges: one mebibyte
  // each, gray buffer included.
  ghost predicate MebibyteEdges(turns: seq<Turn>) {
    forall n :: 0 <= n < |turns| ==>
      && Accepts(turns[n].chunk) && turns[n].chunk.width == 512 && turns[n].chunk.height == 512
      && ChosenFilter(turns[n].chunk) == EdgeDetect
  }

  lemma {:induction false} CostAtMost(turns: seq<Turn>, hi: nat, each: nat)
    requires AllFit(turns) && hi <= |turns|
    requires forall n :: 0 <= n < hi ==> AllModest(Requests(turns[n].chunk)) && Cost(Requests(turns[n].chunk)) <= each
    ensures CostOf(turns, 0, hi) <= hi * each
    decreases hi
  {
    hide Requests;
    hide Cost;
    if hi > 0 {
      OneMoreFrame(hi, each);
      CostAtMost(turns, hi - 1, each);
    }
  }

  lemma EdgeCost(chunk: Chunk)
    requires Accepts(chunk) && FitsInt(chunk) && ChosenFilter(chunk) == EdgeDetect && chunk.width == chunk.height == 512
    ensures AllModest(Requests(chunk))
    ensures TotalSize(Requests(chunk)) == Cost(Requests(chunk)) == 0x10_0000
  {
    RequestsModest(chunk);
    var rs := Requests(chunk);
    assert rs[1..] == [Request(512 * 512, 1)] && rs[1..][1..] == [];
    assert TotalSize(rs[1..]) == Cost(rs[1..]) == 512 * 512;
  }

  lemma EdgesLaid(turns: seq<Turn>, b: Block)
    requires AllFit(turns) && MebibyteEdges(turns) && |turns| >= 9 && b.used == 0 && b.size == STREAM_BLOCK
    ensures Lay(b, turns, 0, 8).Some? && Lay(b, turns, 0, 9).None?
  {
    forall n | 0 <= n < 9
      ensures AllModest(Requests(turns[n].chunk))
      ensures TotalSize(Requests(turns[n].chunk)) == Cost(Requests(turns[n].chunk)) == 0x10_0000
    {
      EdgeCost(turns[n].chunk);
    }
    hide Requests;
    hide SizeOf;
    hide CostOf;
    hide Lay;
    SizeAtLeast(turns, 0, 9, 0x10_0000);
    CostAtMost(turns, 8, 0x10_0000);
    LayByCost(b, turns, 0, 8);
    if Lay(b, turns, 0, 9).Some? {
      LayTakes(b, turns, 0, 9);
    }
  }

  // Eight fill the first block, the ninth finds no room.
  lemma MebibyteEdgesOverflow(turns: seq<Turn>, b: Block)
    requires AllFit(turns) && MebibyteEdges(turns) && |turns| >= 9
    requires b.used == 0 && b.size == STREAM_BLOCK && b.base + b.size <= ADDRESS_LIMIT
    ensures Lay(b, turns, 0, 8).Some? && Lay(b, turns, 0, 9).None?
    ensures !NeverStarves(b, turns)
  {
    EdgesLaid(turns, b);
    hide Lay;
    BatchOf(8);
    assert BatchStart(8) == 0;
    assert Lay(b, turns, BatchStart(8), 8 + 1).None?;
    assert !BatchesFit(b, turns);
    NeverStarvesIff(b, turns);
  }

  // A blurred stream of the gateway's default size holds 8 MB more after every
  // ten frames, for as long as memory lasts.
  lemma DefaultBlurStreamGrows(news: OperatorNew, turns: seq<Turn>, b: Block, k: nat)
    requires Honest(news) && AllFit(turns) && DefaultBlurs(turns) && Opened(news, b) && RESET_INTERVAL * k <= |turns|
    requires forall i :: 0 <= i < RESET_INTERVAL * k ==> !Starved(news, turns, i)
    ensures ArenaAt(news, turns, RESET_INTERVAL * k).allocatedBytes >= (k + 1) * STREAM_BLOCK
  {
    hide Starved;
    hide ArenaAt;
    OpenedBlock(news, b);
    forall j | 0 <= j < k
      ensures Lay(b, turns, RESET_INTERVAL * j, RESET_INTERVAL * j + RESET_INTERVAL).None?
    {
      DefaultBlursOverflow(turns, b, RESET_INTERVAL * j);
    }
    OverflowingStreamGrows(news, turns, b, k);
  }
}
