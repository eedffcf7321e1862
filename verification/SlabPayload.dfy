/**
 What lwIP keeps in its heap blocks (port/amiga/netstack_mem.c): a longword of a
 block holds what its owner last stored there for as long as the block is out,
 whatever the heap, the other owners and the rest of the machine do meanwhile.
 */
module SlabPayload {

  import opened SlabHeap

  /** Longword a belongs to what block x may use. */
  predicate Payload(h: Heap, x: int, a: int) { x in h.live && x + HEADER <= a && a + 4 <= x + Extent(h.live[x]) }

  predicate Writes(op: Op, a: int) { op.UserWrite? && op.x + op.off == a }

  lemma {:induction false} InRegion(h: Heap, x: int, a: int) returns (base: int)
    requires Inv(h) && Payload(h, x, a)
    ensures base in h.regions && base <= a && a + 4 <= base + h.regions[base]
  {
    hide Total, RegionsApart, WorldOk, ListOk, SlotSize;
    assert BlockOk(h, x);
    if h.live[x].Slab? {
      SlotInArena(h, x);
      base := h.slots[x].arena;
    } else {
      base := x;
    }
  }

  lemma {:induction false} HdrMisses(m: Mem, y: int, v: int, w: int, a: int)
    requires a != y && a != y + 4
    ensures Rd(Hdr(m, y, v, w), a) == Rd(m, a)
  {
  }

  /** No block's payload holds the header of another block or of a free slot. */
  lemma {:induction false} HeaderElsewhere(h: Heap, x: int, a: int, y: int, n: nat)
    requires Inv(h) && Payload(h, x, a) && Occupies(h, y, n) && x != y
    ensures a != y && a != y + 4
  {
    hide Inv, Occupies;
    LiveOccupies(h, x);
    NoOverlap(h, x, Extent(h.live[x]), y, n);
    HeadersApart(h, x, Extent(h.live[x]), y, n);
  }

  lemma {:induction false} CarveMisses(h: Heap, p: nat, base: int, n: nat, a: int)
    requires p < |h.heads| && p < |h.lists| && n <= SlotCount(p) && (a < base || base + ArenaSize(p) <= a)
    ensures Rd(Carve(h, p, base, n).mem, a) == Rd(h.mem, a)
  {
    CarveStep(h, p, base, n);
    if n > 0 {
      Times(n - 1, SlotCount(p), SlotSize(p));
      assert (n - 1) * SlotSize(p) >= 0;
      hide Carve, SlotCount;
      CarveMisses(h, p, base, n - 1, a);
    }
  }

  lemma {:induction false} PopMisses(h: Heap, p: nat, x: int, a: int)
    requires Inv(h) && p < POOLS && h.lists[p] != [] && Payload(h, x, a)
    ensures Rd(Pop(h, p).mem, a) == Rd(h.mem, a) && Pop(h, p).live[x] == h.live[x]
  {
    PopKeeps(h, p);
    hide Inv, SlotSize, Origin, Hdr, Rd;
    HeaderElsewhere(h, x, a, h.heads[p], SlotSize(p));
    HdrMisses(h.mem, h.heads[p], SlotSize(p), Origin(p), a);
  }

  lemma {:induction false} FreedMisses(h: Heap, y: int, x: int, a: int)
    requires Inv(h) && Sound(h, y) && Payload(h, x, a) && x != y
    ensures Rd(Freed(h, y).mem, a) == Rd(h.mem, a) && x in Freed(h, y).live && Freed(h, y).live[x] == h.live[x]
  {
    InvLengths(h);
    hide Inv, Rd, Hdr, Freed;
    if y in h.live {
      FreedIsReleased(h, y);
      LiveOccupies(h, y);
      HeaderElsewhere(h, x, a, y, Extent(h.live[y]));
      HdrMisses(h.mem, y, if h.live[y].Slab? then h.heads[h.live[y].pool] else 0, ORIGIN_FREE, a);
    } else if Intact(h, y) {
      LostFreed(h, y);
    } else {
      Dropped(h, y);
    }
  }

  lemma {:induction false} Dropped(h: Heap, y: int)
    requires |h.heads| == |h.lists| == POOLS && Inert(Rd(h.mem, y + 4))
    ensures Freed(h, y) == h
  {
    OthersDropped(h, y);
  }

  /**
   One step of anybody, a release of the block itself apart: it stays the block it
   was, and of its longwords only the one its owner stores to changes, to the value stored.
   */
  lemma {:induction false} PayloadKept(h: Heap, op: Op, x: int, a: int)
    requires Inv(h) && Enabled(h, op) && Payload(h, x, a) && x in Next(h, op).live
    ensures Next(h, op).live[x] == h.live[x]
    ensures Rd(Next(h, op).mem, a) == if Writes(op, a) then op.v else Rd(h.mem, a)
    ensures op.ForeignWrite? ==> Rd(Next(h, op).mem, op.a) == op.v
  {
    InvLengths(h);
    match op
    case Grow(p, b) => GrowMisses(h, p, b, x, a);
    case Take(p) => PopMisses(h, p, x, a);
    case TakeOneOff(b, n) =>
      var base := InRegion(h, x, a);
      assert Apart(b, n, base, h.regions[base]);
      RegionKeeps(h, b, n);
    case Release(y) =>
      if y == x { GoneFreed(h, x); } else { FreedMisses(h, y, x, a); }
    case ForeignWrite(b, _) =>
      var base := InRegion(h, x, a);
      assert Apart(b, 4, base, h.regions[base]);
    case DetachOp => LiveOf(h.live, false, x);
    case _ =>
  }

  lemma {:induction false} GrowMisses(h: Heap, p: nat, b: int, x: int, a: int)
    requires Inv(h) && p < POOLS && Unused(h.regions, b, ArenaSize(p)) && Payload(h, x, a) && |h.heads| == |h.lists| == |h.arenas| == POOLS
    ensures var r := Carve(AddArena(h, p, b), p, b, SlotCount(p)); r.live == h.live && Rd(r.mem, a) == Rd(h.mem, a)
  {
    hide Carve, SlotCount, SlotSize, Inv;
    var base := InRegion(h, x, a);
    assert Apart(b, ArenaSize(p), base, h.regions[base]);
    CarveMisses(AddArena(h, p, b), p, b, SlotCount(p), a);
    CarveFrame(AddArena(h, p, b), p, b, SlotCount(p));
  }

  lemma {:induction false} GoneFreed(h: Heap, x: int)
    requires Inv(h) && x in h.live
    ensures |h.heads| == |h.lists| == POOLS && x !in Freed(h, x).live
  {
    InvLengths(h);
    FreedIsReleased(h, x);
    hide Inv, SlotSize, Freed;
  }

  /** Block x is out from step i to step j. */
  ghost predicate Out(hs: seq<Heap>, x: int, i: nat, j: nat) {
    i <= j < |hs| && forall k :: i <= k <= j ==> x in hs[k].live
  }

  lemma {:induction false} StepReads(hs: seq<Heap>, ops: seq<Op>, x: int, a: int, n: nat)
    requires Run(hs, ops) && n < |ops| && Payload(hs[n], x, a) && x in hs[n + 1].live
    ensures hs[n + 1].live[x] == hs[n].live[x]
    ensures Rd(hs[n + 1].mem, a) == if Writes(ops[n], a) then ops[n].v else Rd(hs[n].mem, a)
  {
    HeapSafe(hs, ops, n);
    hide Inv, Next, Enabled, Payload;
    PayloadKept(hs[n], ops[n], x, a);
  }

  /** The last store to a in ops[i..j], or was if there is none. */
  function LastStore(ops: seq<Op>, a: int, i: nat, j: nat, was: int): int
    requires i <= j <= |ops|
    decreases j - i
  {
    if i == j then was else if Writes(ops[j - 1], a) then ops[j - 1].v else LastStore(ops, a, i, j - 1, was)
  }

  /**
   In every run, a longword of a block that stays out reads as the last store of
   its owner left it, or as it was if there was none. Nothing else changes it.
   */
  lemma {:induction false} ReadsBack(hs: seq<Heap>, ops: seq<Op>, x: int, a: int, i: nat, j: nat)
    requires Run(hs, ops) && Out(hs, x, i, j) && Payload(hs[i], x, a)
    ensures hs[j].live[x] == hs[i].live[x] && Rd(hs[j].mem, a) == LastStore(ops, a, i, j, Rd(hs[i].mem, a))
    decreases j - i
  {
    if i < j {
      ReadsBack(hs, ops, x, a, i, j - 1);
      hide Run, Rd;
      StepReads(hs, ops, x, a, j - 1);
    }
  }
}
