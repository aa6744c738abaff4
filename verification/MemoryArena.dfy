// The arena object: its methods update the block list and counters in place and
// are proved against the operations of ArenaModel.
//
// The list of owned blocks is a sequence and the pointer to the current block is
// its index there.
module MemoryArenas {
  import opened Common
  import opened Bits
  import Model = ArenaModel

  class MemoryArena {
    var blocks: seq<Model.Block>
    var current: Option<nat>
    var blockSize: nat
    var allocatedBytes: nat
    var usedBytes: nat
    var totalAllocations: nat
    var resetCount: nat
    var peakUsage: nat

    function View(): Model.Arena
      reads this
    {
      Model.Arena(blocks, current, blockSize, allocatedBytes, usedBytes, totalAllocations, resetCount, peakUsage)
    }

    ghost predicate Valid()
      reads this
    {
      Model.Valid(View())
    }

    constructor (blockSize: nat, mem: Option<nat>)
      requires blockSize <= Model.ADDRESS_LIMIT
      requires mem.Some? ==> mem.value + blockSize <= Model.ADDRESS_LIMIT
      ensures Valid() && View() == Model.New(blockSize, mem)
    {
      blocks, current, this.blockSize := [], None, blockSize;
      allocatedBytes, usedBytes, totalAllocations, resetCount, peakUsage := 0, 0, 0, 0, 0;
      new;
      var _ := AllocateBlock(blockSize, mem);
    }

    // Move construction: the new arena is the old one, which is left empty.
    constructor MoveFrom(other: MemoryArena)
      requires other.Valid()
      modifies other
      ensures Valid() && other.Valid()
      ensures View() == old(other.View())
      ensures other.View() == Model.MovedFrom(old(other.View()))
    {
      blocks, current, blockSize := other.blocks, other.current, other.blockSize;
      allocatedBytes, usedBytes := other.allocatedBytes, other.usedBytes;
      totalAllocations, resetCount, peakUsage := other.totalAllocations, other.resetCount, other.peakUsage;
      new;
      other.blocks := [];
      other.current := None;
      other.allocatedBytes := 0;
      other.usedBytes := 0;
    }

    // Move assignment: as move construction, but a self-move changes nothing.
    method MoveAssign(other: MemoryArena)
      requires Valid() && other.Valid()
      modifies this, other
      ensures Valid() && other.Valid()
      ensures View() == old(other.View())
      ensures this != other ==> other.View() == Model.MovedFrom(old(other.View()))
    {
      if this != other {
        blocks := other.blocks;
        current := other.current;
        blockSize := other.blockSize;
        allocatedBytes := other.allocatedBytes;
        usedBytes := other.usedBytes;
        totalAllocations := other.totalAllocations;
        resetCount := other.resetCount;
        peakUsage := other.peakUsage;
        other.blocks := [];
        other.current := None;
        other.allocatedBytes := 0;
        other.usedBytes := 0;
      }
    }

    method AllocateBlock(minSize: nat, mem: Option<nat>) returns (ok: bool)
      requires Valid() && Model.HonestMemory(View(), minSize, mem)
      modifies this
      ensures Valid() && View() == Model.AllocateBlock(old(View()), minSize, mem)
      ensures ok == mem.Some?
    {
      Model.AllocateBlockValid(View(), minSize, mem);
      var size := Max(minSize, blockSize);
      match mem {
        case None =>
          ok := false;
        case Some(base) =>
          blocks := blocks + [Model.Block(base, size, 0)];
          current := Some(|blocks| - 1);
          allocatedBytes := allocatedBytes + size;
          ok := true;
      }
    }

    // Advance the cursor of block i over padding and object, and account for it.
    method Take(i: nat, size: nat, a: nat) returns (p: nat)
      requires i < |blocks| && a > 0 && IsPow2(a) && a < SIZE_MODULUS
      requires blocks[i].base + blocks[i].used + a <= SIZE_MODULUS
      modifies this
      ensures (View(), Some(p)) == Model.Bump(old(View()), i, size, a)
    {
      hide AlignUp;
      var b := blocks[i];
      var cursor := b.base + b.used;
      AlignUpIsRoundUp(cursor, a);
      p := AlignUp(cursor, a);
      var total := p - cursor + size;
      blocks := blocks[i := b.(used := b.used + total)];
      usedBytes := usedBytes + total;
      totalAllocations := totalAllocations + 1;
      peakUsage := Max(peakUsage, usedBytes);
    }

    method Allocate(size: nat, alignment: nat, mem: Option<nat>) returns (p: Option<nat>)
      requires Valid() && Model.LegalRequest(size, alignment)
      requires Model.HonestMemory(View(), Model.FreshSize(View(), size, alignment), mem)
      modifies this
      ensures Valid()
      ensures (View(), p) == Model.Allocate(old(View()), size, alignment, mem)
    {
      hide AlignUp;
      hide Model.Bump;
      ghost var s := View();
      Model.AllocateValid(s, size, alignment, mem);
      PowerTestExact(alignment);
      if size == 0 {
        return None;
      }
      var a := alignment;
      if And(alignment, Pred(alignment)) != 0 {
        a := Model.DEFAULT_ALIGNMENT;
      }
      assert a == Model.EffectiveAlignment(alignment);
      if current.Some? {
        var b := blocks[current.value];
        var cursor := b.base + b.used;
        AlignUpIsRoundUp(cursor, a);
        if b.used + (AlignUp(cursor, a) - cursor + size) <= b.size {
          var q := Take(current.value, size, a);
          return Some(q);
        }
      }
      assert !Model.FitsCurrent(s, size, a);
      var ok := AllocateBlock(Max(size + a, blockSize), mem);
      if !ok {
        return None;
      }
      var q := Take(|blocks| - 1, size, a);
      return Some(q);
    }

    method Reset()
      requires Valid()
      modifies this
      ensures Valid() && View() == Model.Reset(old(View()))
    {
      ghost var s := View();
      Model.ResetValid(s);
      var i := 0;
      while i < |blocks|
        invariant 0 <= i <= |blocks| == |s.blocks|
        invariant forall k :: 0 <= k < i ==> blocks[k] == s.blocks[k].(used := 0)
        invariant forall k :: i <= k < |blocks| ==> blocks[k] == s.blocks[k]
        invariant View() == s.(blocks := blocks)
      {
        blocks := blocks[i := blocks[i].(used := 0)];
        i := i + 1;
      }
      if blocks != [] {
        current := Some(0);
      }
      usedBytes := 0;
      resetCount := resetCount + 1;
      assert View() == Model.Reset(s);
    }

    method Clear()
      requires Valid()
      modifies this
      ensures Valid() && View() == Model.Clear(old(View()))
    {
      Model.ClearValid(View());
      blocks := [];
      current := None;
      allocatedBytes := 0;
      usedBytes := 0;
    }
  }
}
