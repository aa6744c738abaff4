// Runs of the arena: safety of live ranges, the peak, and what a reset makes
// reusable.
module ArenaRuns {
  import opened Common
  import opened Bits
  import opened ArenaModel

  datatype Op = Alloc(request: Request, mem: Option<nat>) | DoReset | DoClear

  // A range handed out by allocate, with the block it was cut from.
  datatype Range = Range(lo: nat, request: Request, block: nat)

  ghost predicate LegalOp(s: Arena, op: Op) {
    op.Alloc? ==>
      && LegalRequest(op.request.size, op.request.alignment)
      && HonestMemory(s, FreshSize(s, op.request.size, op.request.alignment), op.mem)
  }

  ghost function Apply(s: Arena, op: Op): (r: (Arena, Option<nat>))
    requires Valid(s) && LegalOp(s, op)
    ensures Valid(r.0)
  {
    match op
    case Alloc(request, mem) =>
      AllocateValid(s, request.size, request.alignment, mem);
      Allocate(s, request.size, request.alignment, mem)
    case DoReset =>
      ResetValid(s);
      (Reset(s), None)
    case DoClear => (Clear(s), None)
  }

  ghost predicate LegalRun(s: Arena, ops: seq<Op>)
    requires Valid(s)
    decreases |ops|, 0
  {
    ops != [] ==>
      && LegalRun(s, Front(ops))
      && LegalOp(Run(s, Front(ops)), Last(ops))
  }

  ghost function Run(s: Arena, ops: seq<Op>): (t: Arena)
    requires Valid(s) && LegalRun(s, ops)
    ensures Valid(t)
    decreases |ops|, 1
  {
    if ops == [] then s else Apply(Run(s, Front(ops)), Last(ops)).0
  }

  // The address each call of the run answered.
  ghost function Answers(s: Arena, ops: seq<Op>): (r: seq<Option<nat>>)
    requires Valid(s) && LegalRun(s, ops)
    ensures |r| == |ops|
    decreases |ops|
  {
    if ops == [] then [] else Answers(s, Front(ops)) + [Apply(Run(s, Front(ops)), Last(ops)).1]
  }

  // The ranges handed out since the start of the run or its last reset or clear.
  ghost function Live(s: Arena, ops: seq<Op>): seq<Range>
    requires Valid(s) && LegalRun(s, ops)
    decreases |ops|
  {
    if ops == [] then []
    else if !Last(ops).Alloc? then []
    else
      var (t, p) := Apply(Run(s, Front(ops)), Last(ops));
      Live(s, Front(ops)) +
      if p.Some? && t.current.Some? then [Range(p.value, Last(ops).request, t.current.value)] else []
  }

  // ---- live allocations never overlap

  ghost predicate RangeOk(blocks: seq<Block>, r: Range) {
    && r.block < |blocks|
    && blocks[r.block].base <= r.lo
    && r.lo + r.request.size <= blocks[r.block].base + blocks[r.block].used
    && r.lo % EffectiveAlignment(r.request.alignment) == 0
  }

  ghost predicate LiveOk(blocks: seq<Block>, live: seq<Range>) {
    && (forall i :: 0 <= i < |live| ==> RangeOk(blocks, live[i]))
    && (forall i, j :: 0 <= i < j < |live| ==>
          Apart(live[i].lo, live[i].request.size, live[j].lo, live[j].request.size))
  }

  // A new range starts at or above the cursor of its block, hence above every
  // live range of that block.
  lemma BumpKeepsLive(s: Arena, i: nat, request: Request, live: seq<Range>)
    requires Valid(s) && i < |s.blocks| && LiveOk(s.blocks, live)
    requires LegalRequest(request.size, request.alignment)
    requires var a := EffectiveAlignment(request.alignment);
             s.blocks[i].used + Taken(s.blocks[i].base + s.blocks[i].used, request.size, a) <= s.blocks[i].size
    ensures var (t, p) := Bump(s, i, request.size, EffectiveAlignment(request.alignment));
            p.Some? && LiveOk(t.blocks, live + [Range(p.value, request, i)])
  {
    var a := EffectiveAlignment(request.alignment);
    RoundUpIsMultiple(s.blocks[i].base + s.blocks[i].used, a);
    var (t, p) := Bump(s, i, request.size, a);
    var added := Range(p.value, request, i);
    forall k | 0 <= k < |live|
      ensures RangeOk(t.blocks, live[k])
      ensures Apart(live[k].lo, live[k].request.size, added.lo, added.request.size)
    {
      assert RangeOk(s.blocks, live[k]);
    }
    assert RangeOk(t.blocks, added);
  }

  lemma AllocateKeepsLive(u: Arena, request: Request, mem: Option<nat>, live: seq<Range>)
    requires Valid(u) && LegalRequest(request.size, request.alignment) && LiveOk(u.blocks, live)
    requires HonestMemory(u, FreshSize(u, request.size, request.alignment), mem)
    ensures var (t, p) := Allocate(u, request.size, request.alignment, mem);
            if p.Some? then
              t.current.Some? && LiveOk(t.blocks, live + [Range(p.value, request, t.current.value)])
            else t == u
  {
    var a := EffectiveAlignment(request.alignment);
    if request.size == 0 {
    } else if FitsCurrent(u, request.size, a) {
      BumpKeepsLive(u, u.current.value, request, live);
    } else if mem.Some? {
      var needed := FreshSize(u, request.size, request.alignment);
      var v := AllocateBlock(u, needed, mem);
      AllocateBlockValid(u, needed, mem);
      FreshBlockFits(u, request.size, request.alignment, mem);
      forall k | 0 <= k < |live|
        ensures RangeOk(v.blocks, live[k])
      {
        assert RangeOk(u.blocks, live[k]);
      }
      BumpKeepsLive(v, |u.blocks|, request, live);
    }
  }

  lemma {:induction false} LiveRangesDisjoint(s: Arena, ops: seq<Op>)
    requires Valid(s) && LegalRun(s, ops)
    ensures LiveOk(Run(s, ops).blocks, Live(s, ops))
    decreases |ops|
  {
    if ops != [] && Last(ops).Alloc? {
      LiveRangesDisjoint(s, Front(ops));
      AllocateKeepsLive(Run(s, Front(ops)), Last(ops).request, Last(ops).mem, Live(s, Front(ops)));
      var (t, p) := Apply(Run(s, Front(ops)), Last(ops));
      if p.None? {
        assert Live(s, ops) == Live(s, Front(ops));
      }
    }
  }

  // The same for an arena from its construction on, with the alignment the
  // caller asked for spelled out.
  lemma LiveAllocationsAreSafe(blockSize: nat, mem: Option<nat>, ops: seq<Op>)
    requires blockSize <= ADDRESS_LIMIT
    requires mem.Some? ==> mem.value + blockSize <= ADDRESS_LIMIT
    ensures Valid(New(blockSize, mem))
    ensures LegalRun(New(blockSize, mem), ops) ==>
              var t, live := Run(New(blockSize, mem), ops), Live(New(blockSize, mem), ops);
              && (forall i, j :: 0 <= i < j < |live| ==>
                    Apart(live[i].lo, live[i].request.size, live[j].lo, live[j].request.size))
              && (forall i :: 0 <= i < |live| ==>
                    && live[i].block < |t.blocks|
                    && t.blocks[live[i].block].base <= live[i].lo
                    && live[i].lo + live[i].request.size
                         <= t.blocks[live[i].block].base + t.blocks[live[i].block].size)
              && (forall i :: 0 <= i < |live| ==>
                    var a := live[i].request.alignment;
                    if a > 0 && IsPow2(a) then live[i].lo % a == 0 else live[i].lo % 16 == 0)
  {
    NewValid(blockSize, mem);
    var s := New(blockSize, mem);
    if LegalRun(s, ops) {
      LiveRangesDisjoint(s, ops);
      LiveRequestsLegal(s, ops);
      var t, live := Run(s, ops), Live(s, ops);
      forall i | 0 <= i < |live|
        ensures live[i].block < |t.blocks|
        ensures t.blocks[live[i].block].base <= live[i].lo
        ensures live[i].lo + live[i].request.size
             <= t.blocks[live[i].block].base + t.blocks[live[i].block].size
        ensures var a := live[i].request.alignment;
                if a > 0 && IsPow2(a) then live[i].lo % a == 0 else live[i].lo % 16 == 0
      {
        assert RangeOk(t.blocks, live[i]);
      }
    }
  }

  lemma {:induction false} LiveRequestsLegal(s: Arena, ops: seq<Op>)
    requires Valid(s) && LegalRun(s, ops)
    ensures forall i :: 0 <= i < |Live(s, ops)| ==>
              LegalRequest(Live(s, ops)[i].request.size, Live(s, ops)[i].request.alignment)
    decreases |ops|
  {
    if ops != [] && Last(ops).Alloc? {
      LiveRequestsLegal(s, Front(ops));
    }
  }

  // ---- the peak is the maximum ever reached

  lemma {:induction false} LegalPrefix(s: Arena, ops: seq<Op>, k: nat)
    requires Valid(s) && LegalRun(s, ops) && k <= |ops|
    ensures LegalRun(s, ops[..k])
    decreases |ops|
  {
    if k == |ops| {
      assert ops[..k] == ops;
    } else {
      LegalPrefix(s, Front(ops), k);
      assert Front(ops)[..k] == ops[..k];
    }
  }

  ghost function UsedAfter(s: Arena, ops: seq<Op>, k: nat): nat
    requires Valid(s) && LegalRun(s, ops) && k <= |ops|
  {
    LegalPrefix(s, ops, k);
    Run(s, ops[..k]).usedBytes
  }

  lemma PeakStep(u: Arena, op: Op)
    requires Valid(u) && LegalOp(u, op)
    ensures var t := Apply(u, op).0; t.peakUsage == Max(u.peakUsage, t.usedBytes)
  {
    if op.Alloc? {
      AllocateCost(u, op.request.size, op.request.alignment, op.mem);
    }
  }

  lemma UsedAfterEarlier(s: Arena, ops: seq<Op>, k: nat)
    requires Valid(s) && LegalRun(s, ops) && k < |ops|
    ensures UsedAfter(s, ops, k) == UsedAfter(s, Front(ops), k)
  {
    assert Front(ops)[..k] == ops[..k];
  }

  lemma UsedAfterAll(s: Arena, ops: seq<Op>)
    requires Valid(s) && LegalRun(s, ops)
    ensures UsedAfter(s, ops, |ops|) == Run(s, ops).usedBytes
  {
    assert ops[..|ops|] == ops;
  }

  lemma {:induction false} PeakIsMaximum(s: Arena, ops: seq<Op>)
    requires Valid(s) && LegalRun(s, ops)
    ensures forall k :: 0 <= k <= |ops| ==> UsedAfter(s, ops, k) <= Run(s, ops).peakUsage
    ensures Run(s, ops).peakUsage == s.peakUsage
         || exists k :: 0 <= k <= |ops| && UsedAfter(s, ops, k) == Run(s, ops).peakUsage
    decreases |ops|
  {
    hide Allocate;
    UsedAfterAll(s, ops);
    if ops != [] {
      PeakIsMaximum(s, Front(ops));
      PeakStep(Run(s, Front(ops)), Last(ops));
      forall k | 0 <= k < |ops|
        ensures UsedAfter(s, ops, k) == UsedAfter(s, Front(ops), k)
      {
        UsedAfterEarlier(s, ops, k);
      }
    }
  }

  // ---- the statistics count calls

  function Given(answers: seq<Option<nat>>): nat {
    if answers == [] then 0 else Given(Front(answers)) + if Last(answers).Some? then 1 else 0
  }

  function ResetsIn(ops: seq<Op>): nat {
    if ops == [] then 0 else ResetsIn(Front(ops)) + if Last(ops).DoReset? then 1 else 0
  }

  lemma CallCounted(u: Arena, op: Op)
    requires Valid(u) && LegalOp(u, op)
    ensures var (t, p) := Apply(u, op);
      && t.totalAllocations == u.totalAllocations + (if p.Some? then 1 else 0)
      && t.resetCount == u.resetCount + if op.DoReset? then 1 else 0
  {
    if op.Alloc? {
      AllocateCost(u, op.request.size, op.request.alignment, op.mem);
      hide Allocate;
    }
  }

  // From construction on, the two call counts are the addresses handed out and the
  // resets, whatever was refused or cleared in between.
  lemma {:induction false} CallsAreCounted(blockSize: nat, mem: Option<nat>, ops: seq<Op>)
    requires blockSize <= ADDRESS_LIMIT
    requires mem.Some? ==> mem.value + blockSize <= ADDRESS_LIMIT
    ensures Valid(New(blockSize, mem))
    ensures LegalRun(New(blockSize, mem), ops) ==>
              var t := Run(New(blockSize, mem), ops);
              t.totalAllocations == Given(Answers(New(blockSize, mem), ops)) && t.resetCount == ResetsIn(ops)
    decreases |ops|
  {
    NewValid(blockSize, mem);
    var s := New(blockSize, mem);
    if LegalRun(s, ops) && ops != [] {
      hide Allocate;
      hide New;
      CallsAreCounted(blockSize, mem, Front(ops));
      CallCounted(Run(s, Front(ops)), Last(ops));
      var answers := Answers(s, ops);
      assert Front(answers) == Answers(s, Front(ops));
      hide Apply;
    }
  }

  // ---- what a reset makes reusable

  predicate OnlyAllocs(ops: seq<Op>) {
    forall i :: 0 <= i < |ops| ==> ops[i].Alloc?
  }

  // Place a request in a block by itself; None when it does not fit.
  ghost function Place(b: Block, request: Request): (r: Option<Block>)
    ensures r.Some? ==> r.value.base == b.base && r.value.size == b.size
  {
    var total := Taken(b.base + b.used, request.size, EffectiveAlignment(request.alignment));
    if request.size == 0 then Some(b)
    else if b.used + total <= b.size then Some(b.(used := b.used + total))
    else None
  }

  // The block after a whole batch, if the batch fits it.
  ghost function PlaceAll(b: Block, ops: seq<Op>): (r: Option<Block>)
    requires OnlyAllocs(ops)
    ensures r.Some? ==> r.value.base == b.base && r.value.size == b.size
  {
    if ops == [] then Some(b)
    else match PlaceAll(b, Front(ops))
      case None => None
      case Some(b') => Place(b', Last(ops).request)
  }

  // Where a fitting batch lands: a function of the block and the requests alone.
  ghost function PlacedAt(b: Block, ops: seq<Op>): seq<Option<nat>>
    requires OnlyAllocs(ops) && PlaceAll(b, ops).Some?
  {
    if ops == [] then []
    else
      var b' := PlaceAll(b, Front(ops)).value;
      var request := Last(ops).request;
      var a := EffectiveAlignment(request.alignment);
      PlacedAt(b, Front(ops)) +
      [if request.size == 0 then None else Some(RoundUp(b'.base + b'.used, a))]
  }

  // One allocation of a batch, when the front block is current and has room.
  lemma FrontStep(s: Arena, op: Op)
    requires Valid(s) && LegalOp(s, op) && op.Alloc?
    requires s.current == Some(0) && Place(s.blocks[0], op.request).Some?
    ensures var (t, p) := Apply(s, op);
      && t.blocks == s.blocks[0 := Place(s.blocks[0], op.request).value]
      && t.current == Some(0)
      && t.allocatedBytes == s.allocatedBytes
      && p == if op.request.size == 0 then None
              else Some(RoundUp(s.blocks[0].base + s.blocks[0].used, EffectiveAlignment(op.request.alignment)))
  {
  }

  // One allocation of a batch, when the front block is current but full.
  lemma SpillStep(s: Arena, op: Op)
    requires Valid(s) && LegalOp(s, op) && op.Alloc? && op.mem.Some?
    requires s.current == Some(0) && Place(s.blocks[0], op.request).None?
    ensures |Apply(s, op).0.blocks| == |s.blocks| + 1
  {
  }

  // What any single allocation does to the block list.
  lemma AllocStep(s: Arena, op: Op)
    requires Valid(s) && LegalOp(s, op) && op.Alloc? && s.current.Some?
    ensures var t := Apply(s, op).0;
      && |s.blocks| <= |t.blocks| <= |s.blocks| + 1
      && (t.current == s.current || t.current == Some(|s.blocks|))
      && t.current.Some? && t.current.value < |t.blocks|
      && (forall i :: 0 <= i < |s.blocks| && i != s.current.value ==> t.blocks[i] == s.blocks[i])
      && (forall i :: 0 <= i < |s.blocks| ==>
            t.blocks[i].base == s.blocks[i].base && t.blocks[i].size == s.blocks[i].size)
      && t.allocatedBytes >= s.allocatedBytes
      && (|t.blocks| > |s.blocks| ==> t.allocatedBytes >= s.allocatedBytes + s.blockSize)
      && t.blockSize == s.blockSize
  {
  }

  lemma {:induction false} BatchInFront(s: Arena, ops: seq<Op>)
    requires Valid(s) && LegalRun(s, ops) && OnlyAllocs(ops)
    requires s.current == Some(0) && PlaceAll(s.blocks[0], ops).Some?
    ensures Run(s, ops).blocks == s.blocks[0 := PlaceAll(s.blocks[0], ops).value]
    ensures Run(s, ops).current == Some(0)
    ensures Run(s, ops).allocatedBytes == s.allocatedBytes
    ensures Answers(s, ops) == PlacedAt(s.blocks[0], ops)
    decreases |ops|
  {
    hide Place;
    hide Apply;
    hide EffectiveAlignment;
    hide RoundUp;
    hide LegalOp;
    if ops != [] {
      BatchInFront(s, Front(ops));
      FrontStep(Run(s, Front(ops)), Last(ops));
    }
  }

  // Blocks never shrink or move during a batch; those behind the front one are
  // not touched, and the current block is the front one or a new one.
  lemma {:induction false} BatchAfterReset(s: Arena, ops: seq<Op>)
    requires Valid(s) && s.blocks != [] && OnlyAllocs(ops)
    ensures Valid(Reset(s))
    ensures LegalRun(Reset(s), ops) ==>
              var t := Run(Reset(s), ops);
              && |s.blocks| <= |t.blocks|
              && (t.current == Some(0) || (t.current.Some? && t.current.value >= |s.blocks|))
              && t.blocks[0].base == s.blocks[0].base && t.blocks[0].size == s.blocks[0].size
              && (forall i :: 1 <= i < |s.blocks| ==> t.blocks[i] == s.blocks[i].(used := 0))
              && t.allocatedBytes >= s.allocatedBytes
              && (|t.blocks| > |s.blocks| ==> t.allocatedBytes >= s.allocatedBytes + s.blockSize)
              && t.blockSize == s.blockSize
    decreases |ops|
  {
    ResetValid(s);
    if LegalRun(Reset(s), ops) && ops != [] {
      BatchAfterReset(s, Front(ops));
      AllocStep(Run(Reset(s), Front(ops)), Last(ops));
    }
  }

  predicate MemoryNeverFails(ops: seq<Op>) {
    forall i :: 0 <= i < |ops| && ops[i].Alloc? ==> ops[i].mem.Some?
  }

  // A batch that does not fit the front block appends at least one block.
  lemma {:induction false} BatchOverflows(s: Arena, ops: seq<Op>)
    requires Valid(s) && OnlyAllocs(ops) && MemoryNeverFails(ops)
    requires s.blocks != [] && PlaceAll(s.blocks[0].(used := 0), ops).None?
    ensures Valid(Reset(s))
    ensures LegalRun(Reset(s), ops) ==> |Run(Reset(s), ops).blocks| > |s.blocks|
    decreases |ops|
  {
    ResetValid(s);
    if LegalRun(Reset(s), ops) {
      var before := Front(ops);
      BatchAfterReset(s, before);
      var front := s.blocks[0].(used := 0);
      var u := Run(Reset(s), before);
      if PlaceAll(front, before).Some? {
        BatchInFront(Reset(s), before);
        SpillStep(u, Last(ops));
      } else {
        BatchOverflows(s, before);
        AllocStep(u, Last(ops));
      }
    }
  }

  // ---- any number of replays

  predicate SameRequests(ops: seq<Op>, ops': seq<Op>) {
    && |ops| == |ops'|
    && OnlyAllocs(ops) && OnlyAllocs(ops')
    && forall i :: 0 <= i < |ops| ==> ops[i].request == ops'[i].request
  }

  ghost predicate LegalReplays(s: Arena, batches: seq<seq<Op>>)
    requires Valid(s)
    decreases |batches|, 0
  {
    batches != [] ==>
      && LegalReplays(s, Front(batches))
      && Valid(Reset(Replays(s, Front(batches))))
      && LegalRun(Reset(Replays(s, Front(batches))), Last(batches))
  }

  // Reset, then one batch; again for each batch.
  ghost function Replays(s: Arena, batches: seq<seq<Op>>): (t: Arena)
    requires Valid(s) && LegalReplays(s, batches)
    ensures Valid(t)
    decreases |batches|, 1
  {
    if batches == [] then s else Run(Reset(Replays(s, Front(batches))), Last(batches))
  }

  lemma {:induction false} PlaceDependsOnRequests(b: Block, ops: seq<Op>, ops': seq<Op>)
    requires SameRequests(ops, ops')
    ensures PlaceAll(b, ops) == PlaceAll(b, ops')
    ensures PlaceAll(b, ops).Some? ==> PlacedAt(b, ops) == PlacedAt(b, ops')
    decreases |ops|
  {
    hide Allocate;
    if ops != [] {
      PlaceDependsOnRequests(b, Front(ops), Front(ops'));
    }
  }

  // A batch that fits the front block gets the same addresses on every replay,
  // and no number of replays allocates a byte.
  lemma {:induction false} FittingReplaysAreFree(s: Arena, batch: seq<Op>, batches: seq<seq<Op>>)
    requires Valid(s) && s.blocks != [] && LegalReplays(s, batches) && OnlyAllocs(batch)
    requires forall i :: 0 <= i < |batches| ==> SameRequests(batch, batches[i])
    requires PlaceAll(s.blocks[0].(used := 0), batch).Some?
    ensures Replays(s, batches).allocatedBytes == s.allocatedBytes
    ensures |Replays(s, batches).blocks| == |s.blocks|
    ensures Replays(s, batches).blocks[0].(used := 0) == s.blocks[0].(used := 0)
    ensures batches != [] ==>
              Answers(Reset(Replays(s, Front(batches))), Last(batches))
              == PlacedAt(s.blocks[0].(used := 0), batch)
    decreases |batches|
  {
    if batches != [] {
      FittingReplaysAreFree(s, batch, Front(batches));
      PlaceDependsOnRequests(s.blocks[0].(used := 0), batch, Last(batches));
      BatchInFront(Reset(Replays(s, Front(batches))), Last(batches));
    }
  }

  lemma OneMore(n: nat, b: nat)
    requires n > 0
    ensures n * b == (n - 1) * b + b
  {
  }

  // A batch that does not fit it makes every replay append a block, so the
  // bytes held grow without bound although used bytes do not.
  lemma {:induction false} OverflowingReplaysGrow(s: Arena, batch: seq<Op>, batches: seq<seq<Op>>)
    requires Valid(s) && s.blocks != [] && LegalReplays(s, batches) && OnlyAllocs(batch)
    requires forall i :: 0 <= i < |batches| ==> SameRequests(batch, batches[i]) && MemoryNeverFails(batches[i])
    requires PlaceAll(s.blocks[0].(used := 0), batch).None?
    ensures |Replays(s, batches).blocks| >= |s.blocks| + |batches|
    ensures Replays(s, batches).allocatedBytes >= s.allocatedBytes + |batches| * s.blockSize
    ensures Replays(s, batches).blockSize == s.blockSize
    ensures Replays(s, batches).blocks[0].(used := 0) == s.blocks[0].(used := 0)
    decreases |batches|
  {
    hide PlaceAll;
    hide Place;
    hide Run;
    hide LegalRun;
    hide Reset;
    if batches != [] {
      OverflowingReplaysGrow(s, batch, Front(batches));
      var u := Replays(s, Front(batches));
      PlaceDependsOnRequests(s.blocks[0].(used := 0), batch, Last(batches));
      BatchAfterReset(u, Last(batches));
      BatchOverflows(u, Last(batches));
      OneMore(|batches|, s.blockSize);
    }
  }

  // Replays are free exactly when the batch fits the front block.
  lemma ReplaysFreeIffFits(s: Arena, batch: seq<Op>, batches: seq<seq<Op>>)
    requires Valid(s) && s.blocks != [] && batches != [] && LegalReplays(s, batches) && OnlyAllocs(batch)
    requires forall i :: 0 <= i < |batches| ==> SameRequests(batch, batches[i]) && MemoryNeverFails(batches[i])
    ensures |Replays(s, batches).blocks| == |s.blocks| <==> PlaceAll(s.blocks[0].(used := 0), batch).Some?
  {
    if PlaceAll(s.blocks[0].(used := 0), batch).Some? {
      FittingReplaysAreFree(s, batch, batches);
    } else {
      OverflowingReplaysGrow(s, batch, batches);
    }
  }

  // ---- a test by sizes alone

  function TotalSize(ops: seq<Op>): nat
    requires OnlyAllocs(ops)
  {
    if ops == [] then 0 else TotalSize(Front(ops)) + Last(ops).request.size
  }

  ghost function TotalAlignment(ops: seq<Op>): nat
    requires OnlyAllocs(ops)
  {
    if ops == [] then 0 else TotalAlignment(Front(ops)) + EffectiveAlignment(Last(ops).request.alignment)
  }

  ghost predicate LegalRequests(ops: seq<Op>) {
    forall i :: 0 <= i < |ops| && ops[i].Alloc? ==> LegalRequest(ops[i].request.size, ops[i].request.alignment)
  }

  lemma PlaceBySize(b: Block, request: Request)
    requires LegalRequest(request.size, request.alignment)
    requires b.used <= b.size && b.base + b.size <= ADDRESS_LIMIT
    ensures Place(b, request).Some? ==> b.used + request.size <= Place(b, request).value.used <= b.size
    ensures b.used + request.size + EffectiveAlignment(request.alignment) <= b.size ==>
              && Place(b, request).Some?
              && Place(b, request).value.used <= b.used + request.size + EffectiveAlignment(request.alignment)
  {
  }

  // A batch larger than the room in the block cannot fit it; one that leaves an
  // alignment's room per request always does.
  lemma {:induction false} FitsBySize(b: Block, ops: seq<Op>)
    requires OnlyAllocs(ops) && LegalRequests(ops)
    requires b.used <= b.size && b.base + b.size <= ADDRESS_LIMIT
    ensures PlaceAll(b, ops).Some? ==> b.used + TotalSize(ops) <= PlaceAll(b, ops).value.used <= b.size
    ensures b.used + TotalSize(ops) + TotalAlignment(ops) <= b.size ==>
              && PlaceAll(b, ops).Some?
              && PlaceAll(b, ops).value.used <= b.used + TotalSize(ops) + TotalAlignment(ops)
    decreases |ops|
  {
    hide Place;
    hide EffectiveAlignment;
    if ops != [] {
      FitsBySize(b, Front(ops));
      if PlaceAll(b, Front(ops)).Some? {
        PlaceBySize(PlaceAll(b, Front(ops)).value, Last(ops).request);
      }
    }
  }

  // ---- two arenas and moves between them

  datatype Pair = Pair(left: Arena, right: Arena)

  datatype PairOp = OnLeft(op: Op) | OnRight(op: Op) | MoveToLeft | MoveToRight

  ghost predicate LegalPairOp(p: Pair, op: PairOp) {
    match op
    case OnLeft(o) => LegalOp(p.left, o)
    case OnRight(o) => LegalOp(p.right, o)
    case MoveToLeft => true
    case MoveToRight => true
  }

  // A move hands over the whole state; what the target held is freed with it.
  ghost function ApplyPair(p: Pair, op: PairOp): (q: Pair)
    requires Valid(p.left) && Valid(p.right) && LegalPairOp(p, op)
    ensures Valid(q.left) && Valid(q.right)
  {
    match op
    case OnLeft(o) => p.(left := Apply(p.left, o).0)
    case OnRight(o) => p.(right := Apply(p.right, o).0)
    case MoveToLeft => ClearValid(p.right); Pair(p.right, MovedFrom(p.right))
    case MoveToRight => ClearValid(p.left); Pair(MovedFrom(p.left), p.left)
  }

  ghost predicate LegalPairRun(p: Pair, ops: seq<PairOp>)
    requires Valid(p.left) && Valid(p.right)
    decreases |ops|
  {
    ops == [] || (LegalPairOp(p, ops[0]) && LegalPairRun(ApplyPair(p, ops[0]), ops[1..]))
  }

  ghost function RunPair(p: Pair, ops: seq<PairOp>): Pair
    requires Valid(p.left) && Valid(p.right) && LegalPairRun(p, ops)
    decreases |ops|
  {
    if ops == [] then p else RunPair(ApplyPair(p, ops[0]), ops[1..])
  }

  // The books of one arena.
  ghost predicate BooksBalance(s: Arena) {
    && s.usedBytes == Sum(Used(s.blocks))
    && s.allocatedBytes == Sum(Sizes(s.blocks))
    && (forall i :: 0 <= i < |s.blocks| ==> s.blocks[i].used <= s.blocks[i].size)
    && (s.current.None? <==> s.blocks == [])
    && (s.current.Some? ==> s.current.value < |s.blocks|)
    && s.usedBytes <= s.peakUsage
  }

  // Over every run of allocations, resets, clears and moves of two arenas,
  // bad_alloc included, both sets of books balance.
  lemma {:induction false} AccountingOverRuns(p: Pair, ops: seq<PairOp>)
    requires Valid(p.left) && Valid(p.right) && LegalPairRun(p, ops)
    ensures BooksBalance(RunPair(p, ops).left) && BooksBalance(RunPair(p, ops).right)
    decreases |ops|
  {
    hide Apply;
    if ops != [] {
      AccountingOverRuns(ApplyPair(p, ops[0]), ops[1..]);
    }
  }

  // ---- the peak when arenas move

  // Two arenas with what their used bytes have been: along the lineage of what
  // each holds now, and of each object whatever it held.
  datatype Ledger = Ledger(pair: Pair, leftLine: seq<nat>, rightLine: seq<nat>, leftOwn: seq<nat>, rightOwn: seq<nat>)

  ghost predicate LegalLedger(l: Ledger) {
    Valid(l.pair.left) && Valid(l.pair.right)
  }

  function Opened(p: Pair): Ledger {
    Ledger(p, [p.left.usedBytes], [p.right.usedBytes], [p.left.usedBytes], [p.right.usedBytes])
  }

  // A move takes the lineage along; the object moved from goes on empty.
  ghost function Record(l: Ledger, op: PairOp): (m: Ledger)
    requires LegalLedger(l) && LegalPairOp(l.pair, op)
    ensures LegalLedger(m) && m.pair == ApplyPair(l.pair, op)
  {
    var q := ApplyPair(l.pair, op);
    var left, right := [q.left.usedBytes], [q.right.usedBytes];
    Ledger(q,
           (if op.MoveToLeft? then l.rightLine else l.leftLine) + left,
           (if op.MoveToRight? then l.leftLine else l.rightLine) + right,
           l.leftOwn + left,
           l.rightOwn + right)
  }

  ghost function RecordAll(l: Ledger, ops: seq<PairOp>): (m: Ledger)
    requires LegalLedger(l) && LegalPairRun(l.pair, ops)
    ensures LegalLedger(m) && m.pair == RunPair(l.pair, ops)
    decreases |ops|
  {
    if ops == [] then l else RecordAll(Record(l, ops[0]), ops[1..])
  }

  ghost predicate Bounds(m: nat, xs: seq<nat>) {
    forall i :: 0 <= i < |xs| ==> xs[i] <= m
  }

  ghost predicate IsMaximum(m: nat, xs: seq<nat>) {
    Bounds(m, xs) && m in xs
  }

  ghost predicate PeaksAreMaxima(l: Ledger) {
    IsMaximum(l.pair.left.peakUsage, l.leftLine) && IsMaximum(l.pair.right.peakUsage, l.rightLine)
  }

  lemma MaximumExtends(m: nat, xs: seq<nat>, x: nat)
    requires IsMaximum(m, xs)
    ensures IsMaximum(Max(m, x), xs + [x])
  {
    assert (xs + [x])[|xs|] == x;
    if x < m {
      var i :| 0 <= i < |xs| && xs[i] == m;
      assert (xs + [x])[i] == m;
    }
  }

  lemma RecordKeepsPeaks(l: Ledger, op: PairOp)
    requires LegalLedger(l) && LegalPairOp(l.pair, op) && PeaksAreMaxima(l)
    ensures PeaksAreMaxima(Record(l, op))
  {
    hide IsMaximum;
    hide Apply;
    var Pair(left, right) := l.pair;
    var q := ApplyPair(l.pair, op);
    match op
    case OnLeft(o) =>
      PeakStep(left, o);
      MaximumExtends(left.peakUsage, l.leftLine, q.left.usedBytes);
      MaximumExtends(right.peakUsage, l.rightLine, right.usedBytes);
    case OnRight(o) =>
      PeakStep(right, o);
      MaximumExtends(left.peakUsage, l.leftLine, left.usedBytes);
      MaximumExtends(right.peakUsage, l.rightLine, q.right.usedBytes);
    case MoveToLeft =>
      MaximumExtends(right.peakUsage, l.rightLine, right.usedBytes);
      MaximumExtends(right.peakUsage, l.rightLine, 0);
    case MoveToRight =>
      MaximumExtends(left.peakUsage, l.leftLine, left.usedBytes);
      MaximumExtends(left.peakUsage, l.leftLine, 0);
  }

  lemma {:induction false} RecordAllKeepsPeaks(l: Ledger, ops: seq<PairOp>)
    requires LegalLedger(l) && LegalPairRun(l.pair, ops) && PeaksAreMaxima(l)
    ensures PeaksAreMaxima(RecordAll(l, ops))
    decreases |ops|
  {
    hide PeaksAreMaxima;
    hide Record;
    hide ApplyPair;
    if ops != [] {
      RecordKeepsPeaks(l, ops[0]);
      RecordAllKeepsPeaks(Record(l, ops[0]), ops[1..]);
    }
  }

  // Over every run of two arenas, moves included, each peak is the maximum of
  // the used bytes along the lineage of what the arena now holds.
  lemma PeakIsMaximumOfLineage(p: Pair, ops: seq<PairOp>)
    requires Valid(p.left) && Valid(p.right) && LegalPairRun(p, ops)
    requires p.left.peakUsage == p.left.usedBytes && p.right.peakUsage == p.right.usedBytes
    ensures var l := RecordAll(Opened(p), ops);
      && l.pair == RunPair(p, ops)
      && IsMaximum(l.pair.left.peakUsage, l.leftLine)
      && IsMaximum(l.pair.right.peakUsage, l.rightLine)
  {
    RecordAllKeepsPeaks(Opened(p), ops);
  }

  // Each peak bounds what its own object has ever used.
  ghost predicate Covered(l: Ledger) {
    Bounds(l.pair.left.peakUsage, l.leftOwn) && Bounds(l.pair.right.peakUsage, l.rightOwn)
  }

  ghost predicate AlwaysCovered(l: Ledger, ops: seq<PairOp>)
    requires LegalLedger(l) && LegalPairRun(l.pair, ops)
    decreases |ops|
  {
    Covered(l) && (ops != [] ==> AlwaysCovered(Record(l, ops[0]), ops[1..]))
  }

  // A move that does not lower the target's peak below what the target has used.
  ghost predicate CoveringOp(l: Ledger, op: PairOp) {
    && (op.MoveToLeft? ==> Bounds(l.pair.right.peakUsage, l.leftOwn))
    && (op.MoveToRight? ==> Bounds(l.pair.left.peakUsage, l.rightOwn))
  }

  ghost predicate CoveringMoves(l: Ledger, ops: seq<PairOp>)
    requires LegalLedger(l) && LegalPairRun(l.pair, ops)
    decreases |ops|
  {
    ops != [] ==> CoveringOp(l, ops[0]) && CoveringMoves(Record(l, ops[0]), ops[1..])
  }

  lemma BoundsExtend(m: nat, n: nat, xs: seq<nat>, x: nat)
    requires m <= n && x <= n
    ensures Bounds(m, xs) ==> Bounds(n, xs + [x])
    ensures Bounds(n, xs + [x]) ==> Bounds(n, xs)
  {
    if Bounds(n, xs + [x]) {
      forall i | 0 <= i < |xs|
        ensures xs[i] <= n
      {
        assert (xs + [x])[i] == xs[i];
      }
    }
  }

  lemma RecordCoversIff(l: Ledger, op: PairOp)
    requires LegalLedger(l) && LegalPairOp(l.pair, op) && Covered(l)
    ensures Covered(Record(l, op)) <==> CoveringOp(l, op)
  {
    hide Bounds;
    hide Apply;
    var Pair(left, right) := l.pair;
    var q := ApplyPair(l.pair, op);
    match op
    case OnLeft(o) =>
      PeakStep(left, o);
      BoundsExtend(left.peakUsage, q.left.peakUsage, l.leftOwn, q.left.usedBytes);
      BoundsExtend(right.peakUsage, right.peakUsage, l.rightOwn, right.usedBytes);
    case OnRight(o) =>
      PeakStep(right, o);
      BoundsExtend(left.peakUsage, left.peakUsage, l.leftOwn, left.usedBytes);
      BoundsExtend(right.peakUsage, q.right.peakUsage, l.rightOwn, q.right.usedBytes);
    case MoveToLeft =>
      BoundsExtend(right.peakUsage, right.peakUsage, l.leftOwn, right.usedBytes);
      BoundsExtend(right.peakUsage, right.peakUsage, l.rightOwn, 0);
    case MoveToRight =>
      BoundsExtend(left.peakUsage, left.peakUsage, l.rightOwn, left.usedBytes);
      BoundsExtend(left.peakUsage, left.peakUsage, l.leftOwn, 0);
  }

  // Throughout a run, each peak bounds what its object has ever used exactly when
  // every move brings a peak at least as high as anything its target has used.
  lemma {:induction false} PeakBoundsOwnUseIff(l: Ledger, ops: seq<PairOp>)
    requires LegalLedger(l) && LegalPairRun(l.pair, ops) && Covered(l)
    ensures AlwaysCovered(l, ops) <==> CoveringMoves(l, ops)
    decreases |ops|
  {
    hide Covered;
    hide CoveringOp;
    hide Record;
    hide ApplyPair;
    if ops != [] {
      RecordCoversIff(l, ops[0]);
      if Covered(Record(l, ops[0])) {
        PeakBoundsOwnUseIff(Record(l, ops[0]), ops[1..]);
      }
    }
  }

  // A hundred bytes from an arena that is then assigned an unused one: its peak
  // reads zero.
  lemma MoveLowersPeak()
    ensures var p := Pair(New(1024, Some(4096)), New(1024, Some(8192)));
            var ops := [OnLeft(Alloc(Request(100, 1), None)), MoveToLeft];
      && Valid(p.left) && Valid(p.right) && LegalPairRun(p, ops)
      && RunPair(p, ops[..1]).left.usedBytes == 100
      && RunPair(p, ops).left.peakUsage == 0
  {
    var left, right := New(1024, Some(4096)), New(1024, Some(8192));
    NewValid(1024, Some(4096));
    NewValid(1024, Some(8192));
    var p := Pair(left, right);
    var op := OnLeft(Alloc(Request(100, 1), None));
    assert Pow2(0) == 1;
    assert RoundUp(4096, 1) == 4096;
    var q := ApplyPair(p, op);
    assert q.left.usedBytes == 100;
    var ops := [op, MoveToLeft];
    assert ops[1..] == [MoveToLeft] && ops[..1] == [op] && [op][1..] == [] && [MoveToLeft][1..] == [];
    assert LegalPairRun(q, [MoveToLeft]) && LegalPairRun(q, []);
  }
}
