// The bump allocator as a value: what each call does to the block list and the
// counters, and what every run of calls keeps.
//
// The address of a fresh block is an input: `mem` is what operator new answers,
// None standing for bad_alloc.
module ArenaModel {
  import opened Common
  import opened Bits

  const DEFAULT_ALIGNMENT: nat := 16

  // No object is larger, and no block ends higher, than PTRDIFF_MAX.
  const ADDRESS_LIMIT: nat := 0x8000_0000_0000_0000

  datatype Block = Block(base: nat, size: nat, used: nat)

  datatype Arena = Arena(
    blocks: seq<Block>,
    current: Option<nat>,
    blockSize: nat,
    allocatedBytes: nat,
    usedBytes: nat,
    totalAllocations: nat,
    resetCount: nat,
    peakUsage: nat)

  datatype Request = Request(size: nat, alignment: nat)

  // ---- the state invariant

  function Used(blocks: seq<Block>): seq<nat> {
    seq(|blocks|, i requires 0 <= i < |blocks| => blocks[i].used)
  }

  function Sizes(blocks: seq<Block>): seq<nat> {
    seq(|blocks|, i requires 0 <= i < |blocks| => blocks[i].size)
  }

  predicate Apart(lo: nat, size: nat, lo': nat, size': nat) {
    lo + size <= lo' || lo' + size' <= lo
  }

  ghost predicate BlocksOk(blocks: seq<Block>) {
    && (forall i :: 0 <= i < |blocks| ==>
          blocks[i].used <= blocks[i].size && blocks[i].base + blocks[i].size <= ADDRESS_LIMIT)
    && (forall i, j :: 0 <= i < j < |blocks| ==>
          Apart(blocks[i].base, blocks[i].size, blocks[j].base, blocks[j].size))
  }

  // Accounting: both byte counters are sums over the list, and the current
  // pointer is null exactly when there is no block.
  ghost predicate Valid(s: Arena) {
    && BlocksOk(s.blocks)
    && (s.current.None? <==> s.blocks == [])
    && (s.current.Some? ==> s.current.value < |s.blocks|)
    && s.usedBytes == Sum(Used(s.blocks))
    && s.allocatedBytes == Sum(Sizes(s.blocks))
    && s.usedBytes <= s.peakUsage
    && s.blockSize <= ADDRESS_LIMIT
  }

  // ---- the operations

  // An alignment that is not a power of two is replaced by the default.
  ghost function EffectiveAlignment(alignment: nat): (a: nat)
    ensures a > 0 && IsPow2(a)
  {
    assert Pow2(4) == DEFAULT_ALIGNMENT;
    if IsPow2(alignment) then alignment else DEFAULT_ALIGNMENT
  }

  ghost function FreshSize(s: Arena, size: nat, alignment: nat): nat {
    Max(size + EffectiveAlignment(alignment), s.blockSize)
  }

  // What a caller of allocate owes: a positive alignment and sums that do not wrap.
  ghost predicate LegalRequest(size: nat, alignment: nat) {
    && 0 < alignment < SIZE_MODULUS
    && size + EffectiveAlignment(alignment) <= ADDRESS_LIMIT
  }

  // What operator new owes: a block that fits the address space and overlaps no other.
  ghost predicate HonestMemory(s: Arena, minSize: nat, mem: Option<nat>) {
    mem.Some? ==>
      && mem.value + Max(minSize, s.blockSize) <= ADDRESS_LIMIT
      && forall i :: 0 <= i < |s.blocks| ==>
           Apart(s.blocks[i].base, s.blocks[i].size, mem.value, Max(minSize, s.blockSize))
  }

  // allocate_block: append a block and make it current; on bad_alloc nothing changes.
  function AllocateBlock(s: Arena, minSize: nat, mem: Option<nat>): Arena {
    match mem
    case None => s
    case Some(base) =>
      var size := Max(minSize, s.blockSize);
      s.(blocks := s.blocks + [Block(base, size, 0)],
         current := Some(|s.blocks|),
         allocatedBytes := s.allocatedBytes + size)
  }

  function New(blockSize: nat, mem: Option<nat>): Arena {
    AllocateBlock(Arena([], None, blockSize, 0, 0, 0, 0, 0), blockSize, mem)
  }

  // Bytes taken from a block whose cursor is at `cursor`: padding, then the object.
  function Taken(cursor: nat, size: nat, a: nat): (t: nat)
    requires a > 0
    ensures size <= t < size + a
  {
    RoundUp(cursor, a) - cursor + size
  }

  predicate FitsCurrent(s: Arena, size: nat, a: nat)
    requires a > 0
  {
    && s.current.Some?
    && s.current.value < |s.blocks|
    && var b := s.blocks[s.current.value];
       b.used + Taken(b.base + b.used, size, a) <= b.size
  }

  // Move the cursor of block i forward and account for it.
  function Bump(s: Arena, i: nat, size: nat, a: nat): (r: (Arena, Option<nat>))
    requires i < |s.blocks| && a > 0
  {
    var b := s.blocks[i];
    var total := Taken(b.base + b.used, size, a);
    var used := s.usedBytes + total;
    (s.(blocks := s.blocks[i := b.(used := b.used + total)],
        usedBytes := used,
        totalAllocations := s.totalAllocations + 1,
        peakUsage := Max(s.peakUsage, used)),
     Some(RoundUp(b.base + b.used, a)))
  }

  // allocate: the current block if the request fits it, else always a fresh block.
  ghost function Allocate(s: Arena, size: nat, alignment: nat, mem: Option<nat>): (r: (Arena, Option<nat>))
    requires Valid(s) && LegalRequest(size, alignment)
    requires HonestMemory(s, FreshSize(s, size, alignment), mem)
  {
    var a := EffectiveAlignment(alignment);
    if size == 0 then (s, None)
    else if FitsCurrent(s, size, a) then Bump(s, s.current.value, size, a)
    else if mem.None? then (s, None)
    else Bump(AllocateBlock(s, FreshSize(s, size, alignment), mem), |s.blocks|, size, a)
  }

  function Rewound(blocks: seq<Block>): seq<Block> {
    seq(|blocks|, i requires 0 <= i < |blocks| => blocks[i].(used := 0))
  }

  // reset: every block is emptied, but only the front one becomes current.
  function Reset(s: Arena): Arena {
    s.(blocks := Rewound(s.blocks),
       current := if s.blocks == [] then s.current else Some(0),
       usedBytes := 0,
       resetCount := s.resetCount + 1)
  }

  function Clear(s: Arena): Arena {
    s.(blocks := [], current := None, allocatedBytes := 0, usedBytes := 0)
  }

  // What a move leaves behind: no blocks, both byte counters at zero.
  function MovedFrom(s: Arena): Arena {
    s.(blocks := [], current := None, allocatedBytes := 0, usedBytes := 0)
  }

  // ---- each operation keeps the invariant

  lemma SumsAfterUpdate(blocks: seq<Block>, i: nat, b: Block)
    requires i < |blocks| && b.size == blocks[i].size
    ensures Sum(Used(blocks[i := b])) == Sum(Used(blocks)) - blocks[i].used + b.used
    ensures Sum(Sizes(blocks[i := b])) == Sum(Sizes(blocks))
  {
    assert Used(blocks[i := b]) == Used(blocks)[i := b.used];
    SumUpdate(Used(blocks), i, b.used);
    assert Sizes(blocks[i := b]) == Sizes(blocks);
  }

  lemma SumsAfterAppend(blocks: seq<Block>, b: Block)
    ensures Sum(Used(blocks + [b])) == Sum(Used(blocks)) + b.used
    ensures Sum(Sizes(blocks + [b])) == Sum(Sizes(blocks)) + b.size
  {
    assert Used(blocks + [b]) == Used(blocks) + [b.used];
    assert Sizes(blocks + [b]) == Sizes(blocks) + [b.size];
    SumAppend(Used(blocks), b.used);
    SumAppend(Sizes(blocks), b.size);
  }

  lemma AllocateBlockValid(s: Arena, minSize: nat, mem: Option<nat>)
    requires Valid(s) && HonestMemory(s, minSize, mem)
    ensures Valid(AllocateBlock(s, minSize, mem))
  {
    if mem.Some? {
      SumsAfterAppend(s.blocks, Block(mem.value, Max(minSize, s.blockSize), 0));
    }
  }

  lemma NewValid(blockSize: nat, mem: Option<nat>)
    requires blockSize <= ADDRESS_LIMIT
    requires mem.Some? ==> mem.value + blockSize <= ADDRESS_LIMIT
    ensures Valid(New(blockSize, mem))
  {
    AllocateBlockValid(Arena([], None, blockSize, 0, 0, 0, 0, 0), blockSize, mem);
  }

  lemma BumpValid(s: Arena, i: nat, size: nat, a: nat)
    requires Valid(s) && i < |s.blocks| && a > 0
    requires s.blocks[i].used + Taken(s.blocks[i].base + s.blocks[i].used, size, a) <= s.blocks[i].size
    ensures Valid(Bump(s, i, size, a).0)
  {
    var b := s.blocks[i];
    var b' := b.(used := b.used + Taken(b.base + b.used, size, a));
    SumsAfterUpdate(s.blocks, i, b');
  }

  // The slow path always fits its fresh block.
  lemma FreshBlockFits(s: Arena, size: nat, alignment: nat, mem: Option<nat>)
    requires mem.Some?
    ensures FitsCurrent(AllocateBlock(s, FreshSize(s, size, alignment), mem), size, EffectiveAlignment(alignment))
  {
  }

  lemma AllocateValid(s: Arena, size: nat, alignment: nat, mem: Option<nat>)
    requires Valid(s) && LegalRequest(size, alignment)
    requires HonestMemory(s, FreshSize(s, size, alignment), mem)
    ensures Valid(Allocate(s, size, alignment, mem).0)
  {
    var a := EffectiveAlignment(alignment);
    if size == 0 {
    } else if FitsCurrent(s, size, a) {
      BumpValid(s, s.current.value, size, a);
    } else if mem.Some? {
      AllocateBlockValid(s, FreshSize(s, size, alignment), mem);
      FreshBlockFits(s, size, alignment, mem);
      BumpValid(AllocateBlock(s, FreshSize(s, size, alignment), mem), |s.blocks|, size, a);
    }
  }

  // A call charges the object plus padding below the alignment, and fails only
  // for size zero or on bad_alloc.
  lemma AllocateCost(s: Arena, size: nat, alignment: nat, mem: Option<nat>)
    requires Valid(s) && LegalRequest(size, alignment)
    requires HonestMemory(s, FreshSize(s, size, alignment), mem)
    ensures var (t, p) := Allocate(s, size, alignment, mem);
      && (p.None? ==> t == s && (size == 0 || mem.None?))
      && (p.Some? ==>
            && size > 0
            && s.usedBytes + size <= t.usedBytes < s.usedBytes + size + EffectiveAlignment(alignment))
      && t.peakUsage == Max(s.peakUsage, t.usedBytes)
      && t.totalAllocations == s.totalAllocations + (if p.Some? then 1 else 0)
      && t.resetCount == s.resetCount && t.blockSize == s.blockSize
  {
  }

  lemma ResetValid(s: Arena)
    requires Valid(s)
    ensures Valid(Reset(s))
  {
    SumZero(Used(Rewound(s.blocks)));
    assert Sizes(Rewound(s.blocks)) == Sizes(s.blocks);
  }

  lemma ClearValid(s: Arena)
    requires Valid(s)
    ensures Valid(Clear(s)) && Valid(MovedFrom(s))
  {
  }
}
