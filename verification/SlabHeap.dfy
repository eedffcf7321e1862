/**
 The lwIP heap's slab front-end (port/amiga/netstack_mem.c): three size classes
 in two disjoint worlds, served from intrusive freelists inside arenas.

 Memory is a map from longword addresses. A block's header is the longword at
 its address (size, or the freelist link) and the one after it (origin stamp).
 lists, slots, live and regions are the abstract content the words encode;
 lost holds the DMA blocks that were still out when their arenas went back.
 */
module SlabHeap {

  const CLASSES := 3
  const POOLS := 6     // DMA world 0..2, exec world 3..5
  const ARENA_HDR := 64
  const HEADER := 8

  const ORIGIN_EXEC := 0x45584543
  const ORIGIN_DMA := 0x444d4120
  const ORIGIN_SLB0 := 0x534C4230
  const ORIGIN_XSL0 := 0x58534C30
  const ORIGIN_FREE := 0x46524545

  function SlotSize(p: nat): (n: nat) ensures n >= 128 && n % 64 == 0 {
    if p % 3 == 0 then 128 else if p % 3 == 1 then 1600 else 65600
  }

  function SlotCount(p: nat): (n: nat) ensures n >= 1 { if p % 3 == 2 then 2 else 64 }

  function ArenaSize(p: nat): nat { ARENA_HDR + SlotCount(p) * SlotSize(p) }

  function Origin(p: nat): int { if p < CLASSES then ORIGIN_SLB0 + p else ORIGIN_XSL0 + p - CLASSES }

  function SlotAddr(arena: int, p: nat, i: nat): int { arena + ARENA_HDR + i * SlotSize(p) }

  datatype Slot = Slot(pool: nat, arena: int, index: nat)
  datatype Block = Slab(pool: nat) | Big(dma: bool, size: nat)

  type Mem = map<int, int>

  function Rd(m: Mem, a: int): int { if a in m then m[a] else 0 }

  datatype Heap = Heap(
    mem: Mem, heads: seq<int>, arenas: seq<seq<int>>, inUse: int, attached: bool,
    lists: seq<seq<int>>, slots: map<int, Slot>, live: map<int, Block>, lost: map<int, Block>, regions: map<int, nat>)

  function Extent(b: Block): nat { match b case Slab(p) => SlotSize(p) case Big(_, n) => n }

  // ---- what the words say ----

  /** The words link list from head, in order, to the null link. */
  ghost predicate Linked(m: Mem, head: int, list: seq<int>) {
    head == Nth(list, 0) && forall i :: 0 <= i < |list| ==> LinkAt(m, list, i)
  }

  function Nth(list: seq<int>, i: nat): int { if i < |list| then list[i] else 0 }

  ghost predicate LinkAt(m: Mem, list: seq<int>, i: nat) { i < |list| && Rd(m, list[i]) == Nth(list, i + 1) }

  ghost predicate Distinct(list: seq<int>) {
    forall i, j :: 0 <= i < j < |list| ==> list[i] != list[j]
  }

  ghost predicate FreeSlot(h: Heap, p: nat, x: int) {
    x != 0 && x in h.slots && h.slots[x].pool == p && Rd(h.mem, x + 4) == ORIGIN_FREE && x !in h.live
  }

  ghost predicate ListOk(h: Heap, p: nat)
    requires p < |h.heads| && p < |h.lists|
  {
    && Linked(h.mem, h.heads[p], h.lists[p]) && Distinct(h.lists[p])
    && forall i :: 0 <= i < |h.lists[p]| ==> FreeSlot(h, p, h.lists[p][i])
  }

  /** A slot sits inside a whole arena its pool still lists. */
  ghost predicate SlotOk(h: Heap, x: int)
    requires x in h.slots
  {
    var s := h.slots[x];
    && s.pool < POOLS == |h.arenas| && s.arena in h.arenas[s.pool] && s.index < SlotCount(s.pool) && x == SlotAddr(s.arena, s.pool, s.index)
    && s.arena in h.regions && h.regions[s.arena] == ArenaSize(s.pool) && s.arena > 0
  }

  ghost predicate BlockOk(h: Heap, x: int)
    requires x in h.live
  {
    var b := h.live[x];
    && Rd(h.mem, x) == Extent(b)
    && Rd(h.mem, x + 4) == Stamp(b)
    && if b.Slab? then x in h.slots && h.slots[x].pool == b.pool else BigOk(h, x, b.size)
  }

  /** A one-off block is a whole region of its own. */
  ghost predicate BigOk(h: Heap, x: int, n: nat) {
    x > 0 && n >= HEADER && x in h.regions && h.regions[x] == n
  }

  function Stamp(b: Block): int {
    match b case Slab(p) => Origin(p) case Big(dma, _) => if dma then ORIGIN_DMA else ORIGIN_EXEC
  }

  predicate Apart(x: int, m: nat, y: int, n: nat) { x + m <= y || y + n <= x }

  ghost predicate RegionsApart(r: map<int, nat>) {
    && (forall a :: a in r ==> r[a] >= HEADER)
    && forall a, b :: a in r && b in r && a != b ==> Apart(a, r[a], b, r[b])
  }

  /** A listed arena is a region of its class's size; the driver aligns its own to 64. */
  ghost predicate ArenaAt(h: Heap, p: nat, a: int) {
    && a in h.regions && h.regions[a] == ArenaSize(p) && a > 0 && a !in h.live
    && (p < CLASSES ==> a % 64 == 0)
  }

  ghost predicate ArenasOk(h: Heap) {
    && |h.arenas| == POOLS
    && (forall p, a :: 0 <= p < POOLS && a in h.arenas[p] ==> ArenaAt(h, p, a))
    && forall p, q, a :: 0 <= p < POOLS && 0 <= q < POOLS && a in h.arenas[p] && a in h.arenas[q] ==> p == q
  }

  lemma {:induction false} ArenaIs(h: Heap, p: nat, a: int)
    requires ArenasOk(h) && p < POOLS
    ensures a in h.arenas[p] ==> ArenaAt(h, p, a)
  {
  }

  predicate Dma(b: Block) { match b case Slab(p) => p < CLASSES case Big(dma, _) => dma }

  /** DMA memory is held only while a netdev is attached, and blocks are lost only while none is. */
  ghost predicate WorldOk(h: Heap)
    requires |h.arenas| == POOLS
  {
    && (h.attached ==> h.lost == map[])
    && (!h.attached ==> forall p :: 0 <= p < CLASSES ==> h.arenas[p] == [])
    && (!h.attached ==> forall x :: x in h.live ==> !Dma(h.live[x]))
    && forall x :: x in h.lost ==> Dma(h.lost[x])
  }

  ghost predicate Inv(h: Heap) {
    && |h.heads| == POOLS && |h.lists| == POOLS
    && RegionsApart(h.regions) && ArenasOk(h) && WorldOk(h)
    && (forall x :: x in h.slots ==> SlotOk(h, x))
    && (forall p :: 0 <= p < POOLS ==> ListOk(h, p))
    && (forall x :: x in h.live ==> BlockOk(h, x))
    && h.inUse == Total(h.live) + Total(h.lost)
  }

  // ---- accounting ----

  ghost function Total(live: map<int, Block>): int
    decreases |live|
  {
    if forall x :: x !in live then 0 else
    var x :| x in live;
    Extent(live[x]) + Total(live - {x})
  }

  lemma {:induction false} TotalRemove(live: map<int, Block>, x: int)
    requires x in live
    ensures Total(live) == Extent(live[x]) + Total(live - {x})
    decreases |live|
  {
    hide Extent;
    var y :| y in live && Total(live) == Extent(live[y]) + Total(live - {y});
    if y != x {
      TotalRemove(live - {y}, x);
      TotalRemove(live - {x}, y);
      assert live - {y} - {x} == live - {x} - {y};
    }
  }

  lemma {:induction false} TotalAdd(live: map<int, Block>, x: int, b: Block)
    requires x !in live
    ensures Total(live[x := b]) == Total(live) + Extent(b)
  {
    TotalRemove(live[x := b], x);
    assert live[x := b] - {x} == live;
  }

  // ---- slots and blocks do not overlap ----

  lemma {:induction false} SlotInArena(h: Heap, x: int)
    requires x in h.slots && SlotOk(h, x)
    ensures var s := h.slots[x]; s.arena + ARENA_HDR <= x && x + SlotSize(s.pool) <= s.arena + h.regions[s.arena]
  {
    var s := h.slots[x];
    var n := SlotSize(s.pool);
    Times(s.index, SlotCount(s.pool), n);
  }

  lemma {:induction false} Times(i: nat, j: nat, n: nat)
    requires i < j
    ensures i * n + n <= j * n
  {
    assert (j - i) * n == j * n - i * n;
    assert (j - i - 1) * n >= 0;
  }

  lemma {:induction false} SlotsApart(h: Heap, x: int, y: int)
    requires RegionsApart(h.regions) && x in h.slots && y in h.slots && SlotOk(h, x) && SlotOk(h, y) && x != y
    ensures Apart(x, SlotSize(h.slots[x].pool), y, SlotSize(h.slots[y].pool))
  {
    var s, t := h.slots[x], h.slots[y];
    SlotInArena(h, x);
    SlotInArena(h, y);
    if s.arena == t.arena {
      assert SlotSize(s.pool) == SlotSize(t.pool);
      if s.index < t.index {
        Times(s.index, t.index, SlotSize(s.pool));
      } else if t.index < s.index {
        Times(t.index, s.index, SlotSize(s.pool));
      }
    } else {
      assert Apart(s.arena, h.regions[s.arena], t.arena, h.regions[t.arena]);
    }
  }

  /** Header or payload of a block: where it starts and how far it reaches. */
  ghost predicate Occupies(h: Heap, x: int, n: nat) {
    (x in h.slots && n == SlotSize(h.slots[x].pool)) || (x in h.live && h.live[x].Big? && n == h.live[x].size)
  }

  /** Blocks and free slots, of any class and world, never overlap. */
  lemma {:induction false} NoOverlap(h: Heap, x: int, m: nat, y: int, n: nat)
    requires Inv(h) && Occupies(h, x, m) && Occupies(h, y, n) && x != y
    ensures Apart(x, m, y, n)
  {
    hide Linked, Distinct, Total, FreeSlot, SlotSize;
    if x in h.slots && m == SlotSize(h.slots[x].pool) {
      SlotInArena(h, x);
      if y in h.slots && n == SlotSize(h.slots[y].pool) {
        SlotsApart(h, x, y);
      } else {
        assert BlockOk(h, y);
        assert Apart(h.slots[x].arena, h.regions[h.slots[x].arena], y, n);
      }
    } else {
      assert BlockOk(h, x);
      if y in h.slots && n == SlotSize(h.slots[y].pool) {
        SlotInArena(h, y);
        assert Apart(x, m, h.slots[y].arena, h.regions[h.slots[y].arena]);
      } else {
        assert BlockOk(h, y);
      }
    }
  }

  // ---- writing a word ----

  /** x is a free slot of pool p in r, linked as it was in h. */
  ghost predicate SameFree(h: Heap, r: Heap, p: nat, x: int) { FreeSlot(r, p, x) && Rd(r.mem, x) == Rd(h.mem, x) }

  lemma {:induction false} KeepList(h: Heap, r: Heap, p: nat)
    requires p < POOLS && |h.heads| == |r.heads| == |h.lists| == |r.lists| == POOLS
    requires ListOk(h, p) && r.heads[p] == h.heads[p] && r.lists[p] == h.lists[p]
    requires forall i :: 0 <= i < |h.lists[p]| ==> SameFree(h, r, p, h.lists[p][i])
    ensures ListOk(r, p)
  {
    var l := h.lists[p];
    forall i | 0 <= i < |l| ensures LinkAt(r.mem, l, i) {
      assert LinkAt(h.mem, l, i);
      assert SameFree(h, r, p, l[i]);
    }
    forall i | 0 <= i < |l| ensures FreeSlot(r, p, l[i]) {
      assert SameFree(h, r, p, l[i]);
    }
  }

  /** A header at x: the two longwords there belong to no other header. */
  lemma {:induction false} HeadersApart(h: Heap, x: int, m: nat, y: int, n: nat)
    requires Inv(h) && Occupies(h, x, m) && Occupies(h, y, n) && x != y
    ensures m >= HEADER && n >= HEADER && x != y + 4 && y != x + 4
  {
    NoOverlap(h, x, m, y, n);
    if h.live.Keys >= {x} && h.live[x].Big? { assert BlockOk(h, x); }
    if h.live.Keys >= {y} && h.live[y].Big? { assert BlockOk(h, y); }
  }

  /** A store that hits none of the headers leaves every freelist and block intact. */
  lemma {:induction false} StoreKeeps(h: Heap, a: int, v: int)
    requires Inv(h)
    requires forall x, n :: Occupies(h, x, n) ==> a != x && a != x + 4
    ensures Inv(h.(mem := h.mem[a := v]))
  {
    var r := h.(mem := h.mem[a := v]);
    forall p | 0 <= p < POOLS ensures ListOk(r, p) {
      assert ListOk(h, p);
      forall i | 0 <= i < |h.lists[p]| ensures SameFree(h, r, p, h.lists[p][i]) {
        assert FreeSlot(h, p, h.lists[p][i]);
        assert Occupies(h, h.lists[p][i], SlotSize(p));
      }
      KeepList(h, r, p);
    }
    forall x | x in h.slots ensures SlotOk(r, x) {
      assert SlotOk(h, x);
    }
    forall x | x in h.live ensures BlockOk(r, x) {
      assert BlockOk(h, x);
      assert Occupies(h, x, Extent(h.live[x]));
    }
  }

  /** lwIP writing inside a block it owns cannot disturb the heap. */
  lemma {:induction false} UserWriteKeeps(h: Heap, x: int, off: nat, v: int)
    requires Inv(h) && x in h.live && HEADER <= off && off + 4 <= Extent(h.live[x])
    ensures Inv(h.(mem := h.mem[x + off := v]))
  {
    hide Inv, SlotSize;
    var m := Extent(h.live[x]);
    assert Occupies(h, x, m) by { LiveOccupies(h, x); }
    forall y, n | Occupies(h, y, n) ensures x + off != y && x + off != y + 4 {
      if y != x {
        NoOverlap(h, x, m, y, n);
        HeadersApart(h, x, m, y, n);
      }
    }
    StoreKeeps(h, x + off, v);
  }

  lemma {:induction false} LiveOccupies(h: Heap, x: int)
    requires Inv(h) && x in h.live
    ensures Occupies(h, x, Extent(h.live[x]))
  {
    assert BlockOk(h, x);
  }

  // ---- freelist operations ----

  function Hdr(m: Mem, x: int, v: int, w: int): Mem { m[x := v][x + 4 := w] }

  /** Rewriting one header leaves all others alone. */
  lemma {:induction false} HdrElsewhere(h: Heap, x: int, m: nat, y: int, n: nat, v: int, w: int)
    requires Inv(h) && Occupies(h, x, m) && Occupies(h, y, n) && x != y
    ensures var r := Hdr(h.mem, x, v, w); Rd(r, y) == Rd(h.mem, y) && Rd(r, y + 4) == Rd(h.mem, y + 4)
  {
    hide Inv, Occupies;
    HeadersApart(h, x, m, y, n);
  }

  /** Changes that leave the words, the lists and the arenas alone keep the invariant. */
  lemma {:induction false} Reframe(h: Heap, r: Heap)
    requires Inv(h) && r.mem == h.mem && r.heads == h.heads && r.lists == h.lists
    requires r.arenas == h.arenas && r.attached == h.attached && r.lost == h.lost
    requires RegionsApart(r.regions) && r.inUse == Total(r.live) + Total(r.lost)
    requires forall p, a :: 0 <= p < POOLS && a in h.arenas[p] ==> KeptRegion(h, r, a)
    requires forall y :: y in h.slots ==> y in r.slots && r.slots[y] == h.slots[y]
    requires forall y :: y in r.slots && y !in h.slots ==> SlotOk(r, y)
    requires forall y :: y in r.live && y in h.live ==> r.live[y] == h.live[y] && (r.live[y].Big? ==> KeptRegion(h, r, y))
    requires forall y :: y in r.live && y !in h.live ==> NewBlock(h, r, y)
    ensures Inv(r)
  {
    hide Total;
    forall y | y in r.slots ensures SlotOk(r, y) {
      if y in h.slots {
        assert SlotOk(h, y);
        assert KeptRegion(h, r, h.slots[y].arena);
      }
    }
    forall y | y in r.live ensures BlockOk(r, y) {
      assert if y in h.live then BlockOk(h, y) else NewBlock(h, r, y);
    }
    forall p | 0 <= p < POOLS ensures ListOk(r, p) {
      assert ListOk(h, p);
      forall i | 0 <= i < |h.lists[p]| ensures SameFree(h, r, p, h.lists[p][i]) {
        assert FreeSlot(h, p, h.lists[p][i]);
      }
      KeepList(h, r, p);
    }
    forall p, a | 0 <= p < POOLS && a in h.arenas[p] ensures ArenaAt(r, p, a) {
      assert ArenaAt(h, p, a) && KeptRegion(h, r, a);
      assert a in r.live ==> NewBlock(h, r, a);
    }
  }

  /** A block that appears at y: not a slot, not an arena, of the active world. */
  ghost predicate NewBlock(h: Heap, r: Heap, y: int) {
    && y in r.live && y !in h.slots && BlockOk(r, y) && (Dma(r.live[y]) ==> r.attached)
    && forall p :: 0 <= p < |h.arenas| ==> y !in h.arenas[p]
  }

  ghost predicate KeptRegion(h: Heap, r: Heap, a: int) { a in h.regions ==> a in r.regions && r.regions[a] == h.regions[a] }

  function PushFree(h: Heap, p: nat, x: int): Heap
    requires p < |h.heads| && p < |h.lists|
  {
    h.(mem := Hdr(h.mem, x, h.heads[p], ORIGIN_FREE), heads := h.heads[p := x], lists := h.lists[p := [x] + h.lists[p]])
  }

  /** Everything that lies elsewhere survives a header rewrite at x. */
  lemma {:induction false} OthersSurvive(h: Heap, r: Heap, x: int, v: int, w: int)
    requires Inv(h) && x in h.slots
    requires r.mem == Hdr(h.mem, x, v, w) && r.slots == h.slots && r.regions == h.regions && r.arenas == h.arenas
    ensures forall y :: y in r.slots ==> SlotOk(r, y)
    ensures forall y :: y in h.live && y != x && y in r.live && r.live[y] == h.live[y] ==> BlockOk(r, y)
    ensures forall p, i :: 0 <= p < POOLS && 0 <= i < |h.lists[p]| && h.lists[p][i] != x && h.lists[p][i] !in r.live ==>
              SameFree(h, r, p, h.lists[p][i])
  {
    var m := SlotSize(h.slots[x].pool);
    hide Linked, Distinct, Total, Hdr, SlotSize;
    forall y | y in r.slots ensures SlotOk(r, y) {
      assert SlotOk(h, y);
    }
    forall y | y in h.live && y != x && y in r.live && r.live[y] == h.live[y] ensures BlockOk(r, y) {
      assert BlockOk(h, y);
      LiveOccupies(h, y);
      HdrElsewhere(h, x, m, y, Extent(h.live[y]), v, w);
    }
    forall p, i | 0 <= p < POOLS && 0 <= i < |h.lists[p]| && h.lists[p][i] != x && h.lists[p][i] !in r.live
      ensures SameFree(h, r, p, h.lists[p][i])
    {
      assert ListOk(h, p);
      assert FreeSlot(h, p, h.lists[p][i]);
      HdrElsewhere(h, x, m, h.lists[p][i], SlotSize(p), v, w);
    }
  }

  /** A slot that is neither live nor on its list can go onto the list. */
  lemma {:induction false} PushKeeps(h: Heap, x: int)
    requires Inv(h) && x in h.slots && x !in h.live && x !in h.lists[h.slots[x].pool]
    ensures Inv(PushFree(h, h.slots[x].pool, x))
  {
    var q := h.slots[x].pool;
    assert SlotOk(h, x) && SlotAddr(h.slots[x].arena, q, h.slots[x].index) > 0;
    var r := PushFree(h, q, x);
    OthersSurvive(h, r, x, h.heads[q], ORIGIN_FREE);
    hide Total, SlotOk, BlockOk, SlotAddr;
    forall p | 0 <= p < POOLS ensures ListOk(r, p) {
      assert ListOk(h, p);
      if p == q {
        assert FreeSlot(r, q, x) by { assert Rd(r.mem, x + 4) == ORIGIN_FREE; }
        ConsList(h, r, q, x);
      } else {
        forall i | 0 <= i < |h.lists[p]| ensures h.lists[p][i] != x {
          assert FreeSlot(h, p, h.lists[p][i]);
        }
        KeepList(h, r, p);
      }
    }
  }

  lemma {:induction false} ConsList(h: Heap, r: Heap, q: nat, x: int)
    requires q < POOLS && |h.heads| == |r.heads| == |h.lists| == |r.lists| == POOLS
    requires ListOk(h, q) && x !in h.lists[q] && FreeSlot(r, q, x) && Rd(r.mem, x) == h.heads[q]
    requires r.heads[q] == x && r.lists[q] == [x] + h.lists[q]
    requires forall i :: 0 <= i < |h.lists[q]| ==> SameFree(h, r, q, h.lists[q][i])
    ensures ListOk(r, q)
  {
    var l, k := h.lists[q], r.lists[q];
    forall i | 0 <= i < |k| ensures FreeSlot(r, q, k[i]) && LinkAt(r.mem, k, i) {
      if i > 0 {
        assert k[i] == l[i - 1] && Nth(k, i + 1) == Nth(l, i);
        assert LinkAt(h.mem, l, i - 1) && SameFree(h, r, q, l[i - 1]);
      } else {
        assert Nth(k, 1) == Nth(l, 0);
      }
    }
  }

  lemma {:induction false} TailList(h: Heap, r: Heap, q: nat)
    requires q < POOLS && |h.heads| == |r.heads| == |h.lists| == |r.lists| == POOLS
    requires ListOk(h, q) && h.lists[q] != [] && r.lists[q] == h.lists[q][1..] && r.heads[q] == Rd(h.mem, h.heads[q])
    requires forall i :: 0 < i < |h.lists[q]| ==> SameFree(h, r, q, h.lists[q][i])
    ensures ListOk(r, q)
  {
    var l, k := h.lists[q], r.lists[q];
    forall i | 0 <= i < |k| ensures FreeSlot(r, q, k[i]) && LinkAt(r.mem, k, i) {
      assert k[i] == l[i + 1] && Nth(k, i + 1) == Nth(l, i + 2);
      assert LinkAt(h.mem, l, i + 1) && SameFree(h, r, q, l[i + 1]);
    }
    assert LinkAt(h.mem, l, 0) && Nth(k, 0) == Nth(l, 1);
  }

  /** Taking the head slot off a list for a caller. */
  function Pop(h: Heap, p: nat): Heap
    requires p < |h.heads| && p < |h.lists| && h.lists[p] != []
  {
    var x := h.heads[p];
    h.(mem := Hdr(h.mem, x, SlotSize(p), Origin(p)), heads := h.heads[p := Rd(h.mem, x)],
       lists := h.lists[p := h.lists[p][1..]], live := h.live[x := Slab(p)], inUse := h.inUse + SlotSize(p))
  }

  lemma {:induction false} PopFrame(h: Heap, p: nat)
    requires p < |h.heads| && p < |h.lists| && h.lists[p] != []
    ensures var r := Pop(h, p);
      r.live == h.live[h.heads[p] := Slab(p)] && r.inUse == h.inUse + SlotSize(p) && r.attached == h.attached
  {
    hide SlotSize;
  }

  lemma {:induction false} PopKeeps(h: Heap, q: nat)
    requires Inv(h) && q < POOLS && h.lists[q] != []
    ensures Inv(Pop(h, q)) && h.heads[q] in h.slots && h.heads[q] !in h.live && h.slots[h.heads[q]].pool == q
  {
    assert ListOk(h, q);
    var x := h.heads[q];
    assert FreeSlot(h, q, h.lists[q][0]) && x == h.lists[q][0];
    var r := Pop(h, q);
    OthersSurvive(h, r, x, SlotSize(q), Origin(q));
    TotalAdd(h.live, x, Slab(q));
    hide Total, SlotOk, SlotSize, Origin;
    assert BlockOk(r, x);
    forall p | 0 <= p < POOLS ensures ListOk(r, p) {
      assert ListOk(h, p);
      forall i | 0 <= i < |h.lists[p]| ensures h.lists[p][i] != x || (p == q && i == 0) {
        assert FreeSlot(h, p, h.lists[p][i]);
      }
      if p == q {
        TailList(h, r, q);
      } else {
        KeepList(h, r, p);
      }
    }
  }

  /** Returning a live slot to the pool its origin names. */
  function FreeSlab(h: Heap, x: int): Heap
    requires x in h.live && h.live[x].Slab? && h.live[x].pool < |h.heads| && h.live[x].pool < |h.lists|
  {
    var p := h.live[x].pool;
    PushFree(h.(live := h.live - {x}, inUse := h.inUse - SlotSize(p)), p, x)
  }

  lemma {:induction false} ForgetKeeps(h: Heap, x: int)
    requires Inv(h) && x in h.live
    ensures Inv(h.(live := h.live - {x}, inUse := h.inUse - Extent(h.live[x])))
  {
    TotalRemove(h.live, x);
    hide Total, Extent;
    Reframe(h, h.(live := h.live - {x}, inUse := h.inUse - Extent(h.live[x])));
  }

  lemma {:induction false} FreeSlabKeeps(h: Heap, x: int)
    requires Inv(h) && x in h.live && h.live[x].Slab?
    ensures h.live[x].pool < POOLS && Inv(FreeSlab(h, x))
  {
    hide Total, RegionsApart, ArenasOk, WorldOk, SlotSize;
    var p := h.live[x].pool;
    assert BlockOk(h, x) && SlotOk(h, x) && ListOk(h, p);
    forall i | 0 <= i < |h.lists[p]| ensures h.lists[p][i] != x {
      assert FreeSlot(h, p, h.lists[p][i]);
    }
    ForgetKeeps(h, x);
    hide Inv, BlockOk, SlotOk, ListOk;
    PushKeeps(h.(live := h.live - {x}, inUse := h.inUse - SlotSize(p)), x);
  }

  // ---- arenas and one-off blocks ----

  lemma {:induction false} ArenaSizes(p: nat)
    requires p < POOLS
    ensures ArenaSize(p) == if p % 3 == 0 then 8256 else if p % 3 == 1 then 102464 else 131264
  {
  }

  /** What a foreign allocator may hand out: memory that overlaps nothing we own. */
  predicate Unused(r: map<int, nat>, a: int, n: nat) { a > 0 && forall b :: b in r ==> Apart(a, n, b, r[b]) }

  function AddArena(h: Heap, p: nat, a: int): Heap
    requires p < |h.arenas|
  {
    h.(regions := h.regions[a := ArenaSize(p)], arenas := h.arenas[p := [a] + h.arenas[p]])
  }

  function AddSlot(h: Heap, p: nat, a: int, i: nat): Heap
    requires p < |h.heads| && p < |h.lists|
  {
    var x := SlotAddr(a, p, i);
    PushFree(h.(slots := h.slots[x := Slot(p, a, i)]), p, x)
  }

  /** The first n slots of a new arena, pushed one by one. */
  function Carve(h: Heap, p: nat, a: int, n: nat): (r: Heap)
    requires p < |h.heads| && p < |h.lists|
    ensures |r.heads| == |h.heads| && |r.lists| == |h.lists|
  {
    if n == 0 then h else AddSlot(Carve(h, p, a, n - 1), p, a, n - 1)
  }

  lemma {:induction false} RegionKeeps(h: Heap, a: int, n: nat)
    requires Inv(h) && Unused(h.regions, a, n) && n >= HEADER
    ensures a !in h.regions && a !in h.live && (forall p :: 0 <= p < POOLS ==> a !in h.arenas[p])
    ensures Inv(h.(regions := h.regions[a := n]))
  {
    hide Total, WorldOk, ListOk;
    forall p | 0 <= p < POOLS ensures a !in h.arenas[p] {
      ArenaIs(h, p, a);
    }
    if a in h.live {
      assert BlockOk(h, a);
      SlotInArena(h, a);
    }
    Reframe(h, h.(regions := h.regions[a := n]));
  }

  /** Arena a is being carved: its slots so far are the first n, and no one-off block sits there. */
  ghost predicate Carving(h: Heap, p: nat, a: int, n: nat) {
    && p < POOLS == |h.arenas| && a in h.arenas[p] && ArenaAt(h, p, a)
    && forall y :: y in h.slots && h.slots[y].arena == a ==> h.slots[y].pool == p && h.slots[y].index < n
  }

  lemma {:induction false} NewSlot(h: Heap, p: nat, a: int, i: nat)
    requires Inv(h) && Carving(h, p, a, i) && i < SlotCount(p)
    ensures var x := SlotAddr(a, p, i); x !in h.slots && x !in h.live
  {
    var x := SlotAddr(a, p, i);
    Times(i, SlotCount(p), SlotSize(p));
    if x in h.slots {
      var s := h.slots[x];
      assert SlotOk(h, x);
      SlotInArena(h, x);
      if s.arena == a {
        Times(s.index, i, SlotSize(p));
      }
    }
  }

  lemma {:induction false} AddSlotKeeps(h: Heap, p: nat, a: int, i: nat)
    requires Inv(h) && Carving(h, p, a, i) && i < SlotCount(p)
    ensures Inv(AddSlot(h, p, a, i)) && Carving(AddSlot(h, p, a, i), p, a, i + 1)
    ensures AddSlot(h, p, a, i).lists[p] != []
  {
    var x := SlotAddr(a, p, i);
    NewSlot(h, p, a, i);
    var g := h.(slots := h.slots[x := Slot(p, a, i)]);
    Reframe(h, g);
    assert ListOk(h, p);
    forall k | 0 <= k < |h.lists[p]| ensures h.lists[p][k] != x {
      assert FreeSlot(h, p, h.lists[p][k]);
    }
    PushKeeps(g, x);
  }

  lemma {:induction false} CarveKeeps(h: Heap, p: nat, a: int, n: nat)
    requires Inv(h) && Carving(h, p, a, 0) && n <= SlotCount(p)
    ensures Inv(Carve(h, p, a, n)) && Carving(Carve(h, p, a, n), p, a, n)
    ensures n > 0 ==> Carve(h, p, a, n).lists[p] != []
  {
    hide SlotCount, AddSlot, SlotSize;
    if n > 0 {
      var g := Carve(h, p, a, n - 1);
      CarveStep(h, p, a, n);
      hide *;
      CarveKeeps(h, p, a, n - 1);
      AddSlotKeeps(g, p, a, n - 1);
    }
  }

  lemma {:induction false} CarveFrame(h: Heap, p: nat, a: int, n: nat)
    requires p < |h.heads| && p < |h.lists|
    ensures var r := Carve(h, p, a, n); r.live == h.live && r.lost == h.lost && r.inUse == h.inUse && r.attached == h.attached
  {
    if n > 0 {
      var g := Carve(h, p, a, n - 1);
      CarveStep(h, p, a, n);
      hide Carve, AddSlot;
      CarveFrame(h, p, a, n - 1);
      AddSlotFrame(g, p, a, n - 1);
    }
  }

  lemma {:induction false} CarveStep(h: Heap, p: nat, a: int, n: nat)
    requires p < |h.heads| && p < |h.lists|
    ensures Carve(h, p, a, n) == if n == 0 then h else AddSlot(Carve(h, p, a, n - 1), p, a, n - 1)
  {
  }

  lemma {:induction false} AddSlotFrame(h: Heap, p: nat, a: int, i: nat)
    requires p < |h.heads| && p < |h.lists|
    ensures var r := AddSlot(h, p, a, i); r.live == h.live && r.lost == h.lost && r.inUse == h.inUse && r.attached == h.attached
  {
  }

  lemma {:induction false} GrowKeeps(h: Heap, p: nat, a: int)
    requires Inv(h) && p < POOLS && Unused(h.regions, a, ArenaSize(p))
    requires p < CLASSES ==> h.attached && a % 64 == 0
    ensures Inv(AddArena(h, p, a)) && Carving(AddArena(h, p, a), p, a, 0)
  {
    var g := h.(regions := h.regions[a := ArenaSize(p)]);
    Times(0, SlotCount(p), SlotSize(p));
    RegionKeeps(h, a, ArenaSize(p));
    forall y | y in h.slots ensures h.slots[y].arena != a {
      assert SlotOk(h, y);
    }
    hide SlotSize, SlotCount;
    ListArena(g, p, a);
    assert AddArena(h, p, a) == g.(arenas := g.arenas[p := [a] + g.arenas[p]]);
  }

  lemma {:induction false} ListArena(h: Heap, p: nat, a: int)
    requires Inv(h) && p < POOLS && ArenaAt(h, p, a) && (forall q :: 0 <= q < POOLS ==> a !in h.arenas[q])
    requires p < CLASSES ==> h.attached
    ensures Inv(h.(arenas := h.arenas[p := [a] + h.arenas[p]]))
  {
    var r := h.(arenas := h.arenas[p := [a] + h.arenas[p]]);
    hide Total, SlotSize, SlotCount, ArenaSize;
    forall q, b | 0 <= q < POOLS && b in r.arenas[q] ensures ArenaAt(r, q, b) {
      assert b in h.arenas[q] ==> ArenaAt(h, q, b);
    }
    forall y | y in h.slots ensures SlotOk(r, y) {
      assert SlotOk(h, y);
    }
    forall y | y in h.live ensures BlockOk(r, y) {
      assert BlockOk(h, y);
    }
    forall q | 0 <= q < POOLS ensures ListOk(r, q) {
      assert ListOk(h, q);
      forall i | 0 <= i < |h.lists[q]| ensures SameFree(h, r, q, h.lists[q][i]) {
        assert FreeSlot(h, q, h.lists[q][i]);
      }
      KeepList(h, r, q);
    }
  }

  /** A one-off block at a fresh region. */
  function TakeBig(h: Heap, a: int, dma: bool, n: nat): Heap {
    h.(regions := h.regions[a := n], mem := Hdr(h.mem, a, n, if dma then ORIGIN_DMA else ORIGIN_EXEC),
       live := h.live[a := Big(dma, n)], inUse := h.inUse + n)
  }

  lemma {:induction false} TakeBigKeeps(h: Heap, a: int, dma: bool, n: nat)
    requires Inv(h) && Unused(h.regions, a, n) && n >= HEADER && (dma ==> h.attached)
    ensures Inv(TakeBig(h, a, dma, n)) && a !in h.live
  {
    var g, w := h.(regions := h.regions[a := n]), if dma then ORIGIN_DMA else ORIGIN_EXEC;
    RegionKeeps(h, a, n);
    StampKeeps(g, a, n, w);
    hide Inv;
    ClaimKeeps(g.(mem := Hdr(g.mem, a, n, w)), a, dma, n);
  }

  lemma {:induction false} StampKeeps(h: Heap, a: int, n: nat, w: int)
    requires Inv(h) && a in h.regions && h.regions[a] == n >= HEADER && a !in h.live
    requires forall p :: 0 <= p < POOLS ==> a !in h.arenas[p]
    ensures Inv(h.(mem := Hdr(h.mem, a, n, w))) && a !in h.slots
  {
    forall y, k | Occupies(h, y, k) ensures a != y && a != y + 4 && a + 4 != y {
      FreshHeader(h, a, n, y, k);
    }
    assert a in h.slots ==> Occupies(h, a, SlotSize(h.slots[a].pool));
    hide Inv, SlotSize;
    StoreKeeps(h, a, n);
    var g := h.(mem := h.mem[a := n]);
    forall y, k | Occupies(g, y, k) ensures a + 4 != y && a + 4 != y + 4 {
      assert Occupies(h, y, k);
    }
    StoreKeeps(g, a + 4, w);
  }

  lemma {:induction false} FreshHeader(h: Heap, a: int, n: nat, y: int, k: nat)
    requires Inv(h) && a in h.regions && h.regions[a] == n >= HEADER && a !in h.live
    requires forall p :: 0 <= p < POOLS ==> a !in h.arenas[p]
    requires Occupies(h, y, k)
    ensures a != y && a != y + 4 && a + 4 != y
  {
    if y in h.slots {
      assert SlotOk(h, y);
      SlotInArena(h, y);
      assert Apart(a, n, h.slots[y].arena, h.regions[h.slots[y].arena]);
    } else {
      assert BlockOk(h, y);
      assert Apart(a, n, y, h.regions[y]);
    }
  }

  lemma {:induction false} ClaimKeeps(h: Heap, a: int, dma: bool, n: nat)
    requires Inv(h) && a !in h.live && a !in h.slots && BigOk(h, a, n) && (dma ==> h.attached)
    requires forall p :: 0 <= p < POOLS ==> a !in h.arenas[p]
    requires Rd(h.mem, a) == n && Rd(h.mem, a + 4) == if dma then ORIGIN_DMA else ORIGIN_EXEC
    ensures Inv(h.(live := h.live[a := Big(dma, n)], inUse := h.inUse + n))
  {
    TotalAdd(h.live, a, Big(dma, n));
    hide Total;
    Reframe(h, h.(live := h.live[a := Big(dma, n)], inUse := h.inUse + n));
  }

  lemma {:induction false} DropRegionKeeps(h: Heap, a: int)
    requires Inv(h) && a !in h.live && forall p :: 0 <= p < POOLS ==> a !in h.arenas[p]
    ensures Inv(h.(regions := h.regions - {a}))
  {
    Reframe(h, h.(regions := h.regions - {a}));
  }

  // ---- detach ----

  function Elems(s: seq<int>): set<int> { set a | a in s }

  /** The regions left when the arenas of the first n pools went back. */
  function Returned(r: map<int, nat>, arenas: seq<seq<int>>, n: nat): map<int, nat>
    requires n <= |arenas|
  {
    if n == 0 then r else Returned(r, arenas, n - 1) - Elems(arenas[n - 1])
  }

  lemma {:induction false} ReturnedIs(r: map<int, nat>, arenas: seq<seq<int>>, n: nat, a: int)
    requires n <= |arenas|
    ensures var q := Returned(r, arenas, n);
      && (a in q <==> a in r && forall p :: 0 <= p < n ==> a !in arenas[p])
      && (a in q ==> q[a] == r[a])
  {
    if n > 0 {
      ReturnedIs(r, arenas, n - 1, a);
    }
  }

  function Of(live: map<int, Block>, dma: bool): map<int, Block> { map x | x in live && Dma(live[x]) == dma :: live[x] }

  /**
   netstack_slab_detach and the cleared ns_ActiveNetdev: every DMA arena goes
   back to the driver with all its slots. DMA blocks still out own nothing any
   more; they stay on the books only.
   */
  function Detach(h: Heap): Heap
    requires |h.heads| == POOLS && |h.lists| == POOLS && |h.arenas| == POOLS
  {
    h.(heads := [0, 0, 0] + h.heads[CLASSES..], lists := [[], [], []] + h.lists[CLASSES..],
       arenas := [[], [], []] + h.arenas[CLASSES..], attached := false,
       slots := map x | x in h.slots && h.slots[x].pool >= CLASSES :: h.slots[x],
       live := Of(h.live, false), lost := Of(h.live, true), regions := Returned(h.regions, h.arenas, CLASSES))
  }

  lemma {:induction false} TotalSplit(live: map<int, Block>)
    ensures Total(live) == Total(Of(live, false)) + Total(Of(live, true))
    decreases |live|
  {
    if x :| x in live {
      var rest, dma := live - {x}, Dma(live[x]);
      TotalRemove(live, x);
      TotalSplit(rest);
      TotalRemove(Of(live, dma), x);
      assert Of(live, dma) - {x} == Of(rest, dma);
      assert Of(live, !dma) == Of(rest, !dma);
    } else {
      assert forall y :: y !in Of(live, false) && y !in Of(live, true);
    }
  }

  lemma {:induction false} DetachRegion(h: Heap, a: int)
    requires Inv(h) && a in h.regions && forall p :: 0 <= p < CLASSES ==> a !in h.arenas[p]
    ensures KeptRegion(h, Detach(h), a)
  {
    ReturnedIs(h.regions, h.arenas, CLASSES, a);
  }

  lemma {:induction false} DetachArenas(h: Heap)
    requires Inv(h)
    ensures RegionsApart(Detach(h).regions) && ArenasOk(Detach(h))
  {
    hide Total, ListOk, BlockOk, SlotOk, Returned, Of, WorldOk;
    var r := Detach(h);
    forall a | a in r.regions ensures a in h.regions && r.regions[a] == h.regions[a] {
      ReturnedIs(h.regions, h.arenas, CLASSES, a);
    }
    forall p, a | 0 <= p < POOLS && a in r.arenas[p] ensures ArenaAt(r, p, a) {
      assert a in h.arenas[p] && ArenaAt(h, p, a);
      DetachRegion(h, a);
      assert a !in r.live by { LiveOf(h.live, false, a); }
    }
  }

  lemma {:induction false} LiveOf(live: map<int, Block>, dma: bool, x: int)
    ensures x in Of(live, dma) <==> x in live && Dma(live[x]) == dma
    ensures x in Of(live, dma) ==> Of(live, dma)[x] == live[x]
  {
  }

  lemma {:induction false} DetachSlot(h: Heap, x: int)
    requires Inv(h) && x in h.slots && h.slots[x].pool >= CLASSES
    ensures x in Detach(h).slots && SlotOk(Detach(h), x)
  {
    hide Total, ListOk, BlockOk, Returned, Of, WorldOk, RegionsApart;
    assert SlotOk(h, x);
    DetachRegion(h, h.slots[x].arena);
  }

  lemma {:induction false} DetachBlock(h: Heap, x: int)
    requires Inv(h) && x in h.live && !Dma(h.live[x])
    ensures x in Detach(h).live && BlockOk(Detach(h), x)
  {
    hide Total, ListOk, Returned, Of, WorldOk, RegionsApart;
    assert BlockOk(h, x);
    LiveOf(h.live, false, x);
    if h.live[x].Slab? {
      DetachSlot(h, x);
    } else {
      forall p | 0 <= p < CLASSES ensures x !in h.arenas[p] {
        ArenaIs(h, p, x);
      }
      DetachRegion(h, x);
    }
  }

  lemma {:induction false} DetachList(h: Heap, q: nat)
    requires Inv(h) && q < POOLS
    ensures ListOk(Detach(h), q)
  {
    var r := Detach(h);
    hide Total, BlockOk, Returned, Of, WorldOk, RegionsApart, ArenasOk, SlotOk;
    assert ListOk(h, q);
    if q >= CLASSES {
      forall k | 0 <= k < |h.lists[q]| ensures SameFree(h, r, q, h.lists[q][k]) {
        assert FreeSlot(h, q, h.lists[q][k]);
        LiveOf(h.live, false, h.lists[q][k]);
      }
      KeepList(h, r, q);
    }
  }

  lemma {:induction false} DetachKeeps(h: Heap)
    requires Inv(h) && h.attached
    ensures Inv(Detach(h)) && Detach(h).inUse == h.inUse
    ensures forall p, a :: 0 <= p < CLASSES && a in h.arenas[p] ==> a !in Detach(h).regions
    ensures forall x :: x in Detach(h).slots ==> Detach(h).slots[x].pool >= CLASSES
  {
    var r := Detach(h);
    DetachArenas(h);
    TotalSplit(h.live);
    assert Total(map[]) == 0;
    hide Total, Returned, RegionsApart, ArenasOk, ListOk;
    forall p, a | 0 <= p < CLASSES && a in h.arenas[p] ensures a !in r.regions {
      ReturnedIs(h.regions, h.arenas, CLASSES, a);
    }
    forall y | y in r.slots ensures SlotOk(r, y) {
      DetachSlot(h, y);
    }
    forall y | y in r.live ensures BlockOk(r, y) {
      DetachBlock(h, y);
    }
    forall q | 0 <= q < POOLS ensures ListOk(r, q) {
      DetachList(h, q);
    }
    assert WorldOk(r) by { hide SlotOk, BlockOk; }
  }

  // ---- the allocator, in place ----

  /** A request with its header, rounded up to longwords. */
  function Need(size: nat): (n: nat)
    ensures n % 4 == 0 && size + HEADER <= n < size + HEADER + 4
  {
    (size + 3) / 4 * 4 + HEADER
  }

  /** The pool that serves n bytes: of the selected world, the one with the smallest slots that hold them. */
  function PoolFor(n: nat, attached: bool): (p: nat)
    requires n <= 65600
    ensures p < POOLS && (p < CLASSES <==> attached) && n <= SlotSize(p)
    ensures forall q: nat :: q < POOLS && (q < CLASSES <==> attached) && n <= SlotSize(q) ==> SlotSize(p) <= SlotSize(q)
    ensures SlotSize(p) == if n <= 128 then 128 else if n <= 1600 then 1600 else 65600
  {
    (if n <= SlotSize(0) then 0 else if n <= SlotSize(1) then 1 else 2) + if attached then 0 else CLASSES
  }

  /** What AllocMem or the driver's allocator was asked, and what it answered. */
  datatype Ask = Ask(size: nat, align: nat, answer: int)

  function Align(p: nat): nat { if p < CLASSES then 64 else 1 }

  /** The first slot a pool that was empty hands out of new arena a: the last one carved. */
  function TopSlot(a: int, p: nat): int { a + ARENA_HDR + (SlotCount(p) - 1) * SlotSize(p) }

  lemma {:induction false} CarveHead(h: Heap, p: nat, a: int)
    requires p < |h.heads| && p < |h.lists|
    ensures Carve(h, p, a, SlotCount(p)).heads[p] == TopSlot(a, p)
  {
    CarveStep(h, p, a, SlotCount(p));
    hide Carve, SlotSize, SlotCount;
  }

  /** The request became a block of its own, or was refused one. */
  ghost predicate AsBlock(h: Heap, r: Heap, n: nat, ptr: int, asks: seq<Ask>) {
    && |asks| == 1 && asks[0] == Ask(n, if h.attached then 4 else 1, asks[0].answer)
    && var b := asks[0].answer;
       if b == 0 then ptr == 0 && r == h else ptr == b + HEADER && r == TakeBig(h, b, h.attached, n)
  }

  /** An empty pool was asked: a new arena's top slot, or no arena. */
  ghost predicate Grown(h: Heap, r: Heap, p: nat, ptr: int, asks: seq<Ask>)
    requires p < |h.arenas| && p < |h.heads| && p < |h.lists|
  {
    && |asks| == 1 && asks[0] == Ask(ArenaSize(p), Align(p), asks[0].answer)
    && var a := asks[0].answer;
       if a == 0 then ptr == 0 && r == h
       else
         var g := Carve(AddArena(h, p, a), p, a, SlotCount(p));
         ptr == TopSlot(a, p) + HEADER && p < |g.heads| && p < |g.lists| && g.lists[p] != [] && r == Pop(g, p)
  }

  /** The request was served by the smallest pool that can, or by a block of its own when that has nothing. */
  ghost predicate FromSlab(h: Heap, r: Heap, n: nat, ptr: int, asks: seq<Ask>)
    requires n <= 65600 && |h.heads| == |h.lists| == |h.arenas| == POOLS
  {
    var p := PoolFor(n, h.attached);
    if h.lists[p] != [] then asks == [] && ptr == h.heads[p] + HEADER && r == Pop(h, p)
    else
      && asks != [] && asks[0] == Ask(ArenaSize(p), Align(p), asks[0].answer)
      && if asks[0].answer != 0 then Grown(h, r, p, ptr, asks) else AsBlock(h, r, n, ptr, asks[1..])
  }

  /** Block b was handed out at ptr, fresh, and put on the books; or nothing changed. */
  ghost predicate Booked(h: Heap, r: Heap, ptr: int, b: Block) {
    if ptr == 0 then r == h
    else ptr - HEADER !in h.live && r.live == h.live[ptr - HEADER := b] && r.inUse == h.inUse + Extent(b)
  }

  lemma {:induction false} NotBooked(h: Heap, b: Block)
    ensures Booked(h, h, 0, b)
  {
  }

  lemma {:induction false} BookedSince(h: Heap, g: Heap, r: Heap, ptr: int, b: Block)
    requires g.live == h.live && g.inUse == h.inUse && ptr != 0 && Booked(g, r, ptr, b)
    ensures Booked(h, r, ptr, b)
  {
  }

  lemma {:induction false} OneAsk(h: Heap, r: Heap, n: nat, ptr: int, asks: seq<Ask>)
    requires asks == [Ask(n, if h.attached then 4 else 1, if ptr == 0 then 0 else ptr - HEADER)] && ptr != HEADER
    requires if ptr == 0 then r == h else r == TakeBig(h, ptr - HEADER, h.attached, n)
    ensures AsBlock(h, r, n, ptr, asks)
  {
    hide TakeBig;
  }

  lemma {:induction false} FellThrough(h: Heap, r: Heap, n: nat, ptr: int, first: seq<Ask>, second: seq<Ask>)
    requires n <= 65600 && |h.heads| == |h.lists| == |h.arenas| == POOLS && h.lists[PoolFor(n, h.attached)] == []
    requires Grown(h, h, PoolFor(n, h.attached), 0, first) && first[0].answer == 0 && AsBlock(h, r, n, ptr, second)
    ensures FromSlab(h, r, n, ptr, first + second)
  {
    hide AsBlock, PoolFor, ArenaSize, Carve, AddArena, Pop;
    assert (first + second)[0] == first[0] && (first + second)[1..] == second;
  }

  lemma {:induction false} BigFrame(h: Heap, a: int, dma: bool, n: nat)
    ensures var r := TakeBig(h, a, dma, n); r.live == h.live[a := Big(dma, n)] && r.inUse == h.inUse + n
  {
  }

  lemma {:induction false} GrewOne(h: Heap, r: Heap, p: nat, ptr: int, asks: seq<Ask>)
    requires p < |h.arenas| && p < |h.heads| && p < |h.lists|
    requires |asks| == 1 && asks[0] == Ask(ArenaSize(p), Align(p), asks[0].answer)
    requires
      var a := asks[0].answer;
      if a == 0 then ptr == 0 && r == h
      else
        var g := Carve(AddArena(h, p, a), p, a, SlotCount(p));
        ptr == TopSlot(a, p) + HEADER && p < |g.heads| && p < |g.lists| && g.lists[p] != [] && r == Pop(g, p)
    ensures Grown(h, r, p, ptr, asks)
  {
  }

  lemma {:induction false} ArenaFrame(h: Heap, p: nat, a: int)
    requires p < |h.arenas|
    ensures AddArena(h, p, a).heads == h.heads && AddArena(h, p, a).lists == h.lists
  {
  }

  class NetstackMem {
    var mem: Mem
    var heads: seq<int>
    var arenas: seq<seq<int>>
    var inUse: int
    var attached: bool
    var regions: map<int, nat>
    ghost var lists: seq<seq<int>>
    ghost var slots: map<int, Slot>
    ghost var live: map<int, Block>
    ghost var lost: map<int, Block>
    ghost var asked: seq<Ask>

    ghost function View(): Heap reads this { Heap(mem, heads, arenas, inUse, attached, lists, slots, live, lost, regions) }

    ghost predicate Valid() reads this { Inv(View()) }

    constructor ()
      ensures Valid() && live == map[] && inUse == 0 && !attached
    {
      mem, heads, arenas, inUse := map[], [0, 0, 0, 0, 0, 0], [[], [], [], [], [], []], 0;
      attached, regions, asked := false, map[], [];
      lists, slots, live, lost := [[], [], [], [], [], []], map[], map[], map[];
      new;
      forall p | 0 <= p < POOLS ensures ListOk(View(), p) {
        assert lists[p] == [] && heads[p] == 0;
      }
    }

    /** AllocMem or the driver's DMA allocator: fails, or hands out memory nobody holds. */
    method AllocMem(n: nat, align: nat) returns (a: int)
      requires align > 0
      modifies `asked
      ensures a == 0 || (Unused(regions, a, n) && a % align == 0)
      ensures asked == old(asked) + [Ask(n, align, a)]
    {
      a := *;
      if !Unused(regions, a, n) || a % align != 0 {
        a := 0;
      }
      asked := asked + [Ask(n, align, a)];
    }

    /** nslab_grow: a new arena of pool p, its slots linked and stamped one by one. */
    method Grow(p: nat) returns (ok: bool, ghost a: int)
      requires Valid() && p < POOLS && (p < CLASSES ==> attached)
      modifies this
      ensures Valid() && (if ok then lists[p] != [] else View() == old(View()))
      ensures ok ==> View() == Carve(AddArena(old(View()), p, a), p, a, SlotCount(p))
      ensures live == old(live) && lost == old(lost) && inUse == old(inUse) && attached == old(attached)
      ensures asked == old(asked) + [Ask(ArenaSize(p), Align(p), a)] && (ok <==> a != 0) && Align(p) == if p < 3 then 64 else 1
      ensures ArenaSize(p) == if p % 3 == 0 then 8256 else if p % 3 == 1 then 102464 else 131264
    {
      hide SlotSize, SlotCount, Carve;
      var base := AllocMem(ArenaSize(p), Align(p));
      ArenaSizes(p);
      a := base;
      if base == 0 {
        return false, a;
      }
      InvLengths(View());
      hide Inv, Unused;
      GrowKeeps(View(), p, base);
      ghost var h := AddArena(View(), p, base);
      regions, arenas := regions[base := ArenaSize(p)], arenas[p := [base] + arenas[p]];
      hide AddArena, ArenaSize;
      CarveKeeps(h, p, base, SlotCount(p));
      CarveFrame(h, p, base, SlotCount(p));
      CarveArena(p, base);
      return true, a;
    }

    method CarveArena(p: nat, base: int)
      requires p < POOLS && |heads| == |lists| == POOLS
      modifies `mem, `heads, `lists, `slots
      ensures View() == Carve(old(View()), p, base, SlotCount(p))
    {
      var s, slot := base + ARENA_HDR, SlotSize(p);
      FirstSlot(base, p);
      hide SlotSize, SlotCount, SlotAddr;
      for i := 0 to SlotCount(p)
        invariant s == SlotAddr(base, p, i) && |heads| == |lists| == POOLS
        invariant View() == Carve(old(View()), p, base, i)
      {
        LinkSlot(p, base, s, i);
        NextSlot(base, p, i);
        s := s + slot;
      }
    }

    /** Link at offset 0, stamp at offset 4, then the list head. */
    method LinkSlot(p: nat, ghost base: int, s: int, ghost i: nat)
      requires p < POOLS && |heads| == |lists| == POOLS && s == SlotAddr(base, p, i)
      modifies `mem, `heads, `lists, `slots
      ensures View() == AddSlot(old(View()), p, base, i)
    {
      mem := mem[s := heads[p]][s + 4 := ORIGIN_FREE];
      heads := heads[p := s];
      lists, slots := lists[p := [s] + lists[p]], slots[s := Slot(p, base, i)];
    }

    /**
     netstack_malloc. A request no larger than the largest slot goes to the pool
     with the smallest slots that hold it: its list's head, or the top slot of a
     new arena. A larger one, or one that finds the list empty and no arena to be
     had, is a block of its own; it is refused only if that is refused too.
     */
    method Malloc(size: nat) returns (ptr: int)
      requires Valid()
      modifies this
      ensures Valid() && attached == old(attached) && old(asked) <= asked
      ensures var n, asks := Need(size), asked[|old(asked)|..];
        if n > 65600 then AsBlock(old(View()), View(), n, ptr, asks) else FromSlab(old(View()), View(), n, ptr, asks)
      ensures ptr == 0 ==>
        var n, asks := Need(size), asked[|old(asked)|..];
        && asks != [] && asks[|asks| - 1].size == n && asks[|asks| - 1].answer == 0
        && (n <= 65600 ==> |asks| == 2 && asks[0].answer == 0 && old(lists[PoolFor(n, attached)]) == [])
      ensures
        || Booked(old(View()), View(), ptr, Big(attached, Need(size)))
        || (Need(size) <= 65600 && Booked(old(View()), View(), ptr, Slab(PoolFor(Need(size), attached))))
    {
      InvLengths(View());
      hide Inv, SlotSize, PoolFor, AsBlock, FromSlab, Booked;
      var total := Need(size);
      if total <= 65600 {
        ptr := SmallBlock(total);
      } else {
        ptr := OneOff(total);
        OneAsk(old(View()), View(), total, ptr, asked[|old(asked)|..]);
      }
    }

    method SmallBlock(n: nat) returns (ptr: int)
      requires Valid() && HEADER <= n <= 65600 && |heads| == |lists| == |arenas| == POOLS
      modifies this
      ensures Valid() && attached == old(attached) && old(asked) <= asked
      ensures FromSlab(old(View()), View(), n, ptr, asked[|old(asked)|..])
      ensures ptr == 0 ==>
        var asks := asked[|old(asked)|..];
        |asks| == 2 && asks[1].size == n && asks[0].answer == asks[1].answer == 0 && old(lists[PoolFor(n, attached)]) == []
      ensures
        || Booked(old(View()), View(), ptr, Big(attached, n))
        || Booked(old(View()), View(), ptr, Slab(PoolFor(n, attached)))
    {
      hide Inv, Pop, Carve, AddArena, SlotCount, SlotSize, TakeBig, TopSlot, ArenaSize;
      var p := PoolFor(n, attached);
      hide PoolFor;
      ptr := FromPool(p);
      if ptr != 0 {
        assert Booked(old(View()), View(), ptr, Slab(p));
        return;
      }
      ghost var first := asked[|old(asked)|..];
      assert View() == old(View()) && asked == old(asked) + first;
      ptr := OneOff(n);
      ghost var second := asked[|old(asked)| + 1..];
      assert asked[|old(asked)|..] == first + second;
      OneAsk(old(View()), View(), n, ptr, second);
      FellThrough(old(View()), View(), n, ptr, first, second);
    }

    /** The slab path: pop the head slot, growing an empty pool first. */
    method FromPool(p: nat) returns (ptr: int)
      requires Valid() && p < POOLS && (p < CLASSES ==> attached)
      modifies this
      ensures Valid() && attached == old(attached)
      ensures if old(lists[p]) != []
        then asked == old(asked) && ptr == old(heads[p]) + HEADER && ptr != 0 && View() == old(Pop(View(), p))
        else old(asked) < asked && Grown(old(View()), View(), p, ptr, asked[|old(asked)|..])
             && (ptr == 0 <==> asked[|old(asked)|].answer == 0)
      ensures Booked(old(View()), View(), ptr, Slab(p))
    {
      InvLengths(View());
      hide Inv, SlotSize, Pop, Carve, AddArena, SlotCount, TopSlot, ArenaSize, Align, Booked, Grown;
      var ok := Stock(p);
      ptr := 0;
      if ok {
        InvLengths(View());
        ghost var h := View();
        ptr := TakeStocked(p);
        BookedSince(old(View()), h, View(), ptr, Slab(p));
      } else {
        NotBooked(View(), Slab(p));
      }
      if old(lists[p]) == [] {
        GrewOne(old(View()), View(), p, ptr, asked[|old(asked)|..]);
      }
    }

    method TakeStocked(p: nat) returns (ptr: int)
      requires Valid() && p < POOLS && lists[p] != []
      modifies `heads, `mem, `inUse, `lists, `live
      ensures Valid() && ptr != 0 && ptr == old(heads[p]) + HEADER && View() == old(Pop(View(), p))
      ensures Booked(old(View()), View(), ptr, Slab(p))
    {
      InvLengths(View());
      StampIntact(View(), p);
      hide Inv, SlotSize, Pop;
      if Rd(mem, heads[p] + 4) != ORIGIN_FREE {
        assert false; // no well-behaved user can damage the stamp of a freelist head
      }
      PopFrame(View(), p);
      ptr := PopHead(p);
    }

    /** A non-empty list for pool p, growing it if need be. */
    method Stock(p: nat) returns (ok: bool)
      requires Valid() && p < POOLS && (p < CLASSES ==> attached)
      modifies this
      ensures Valid() && live == old(live) && inUse == old(inUse) && attached == old(attached)
      ensures if ok then lists[p] != [] else View() == old(View())
      ensures old(lists[p]) != [] ==> ok && View() == old(View()) && asked == old(asked)
      ensures old(lists[p]) == [] ==>
        && old(asked) <= asked && |asked| == |old(asked)| + 1
        && var a := asked[|old(asked)|];
           && a == Ask(ArenaSize(p), Align(p), a.answer) && (ok <==> a.answer != 0)
           && (ok ==> View() == Carve(AddArena(old(View()), p, a.answer), p, a.answer, SlotCount(p))
                      && heads[p] == TopSlot(a.answer, p))
    {
      InvLengths(View());
      hide Inv, Carve, AddArena, SlotCount, SlotSize, TopSlot;
      HeadIsNull(View(), p);
      if heads[p] != 0 {
        return true;
      }
      ghost var a, h := 0, View();
      ok, a := Grow(p);
      if ok {
        assert p < |AddArena(h, p, a).heads| && p < |AddArena(h, p, a).lists| by { ArenaFrame(h, p, a); }
        CarveHead(AddArena(h, p, a), p, a);
      }
    }

    method PopHead(p: nat) returns (ptr: int)
      requires Valid() && p < POOLS && lists[p] != []
      modifies `heads, `mem, `inUse, `lists, `live
      ensures Valid() && ptr != 0 && ptr - HEADER == old(heads[p]) && ptr - HEADER !in old(live) && View() == old(Pop(View(), p))
    {
      hide Inv, SlotSize, Pop;
      InvLengths(View());
      PopKeeps(View(), p);
      HeadPositive(View(), p);
      ptr := heads[p] + HEADER;
      TakeHead(p);
    }

    method TakeHead(p: nat)
      requires p < |heads| && p < |lists| && lists[p] != []
      modifies `heads, `mem, `inUse, `lists, `live
      ensures View() == old(Pop(View(), p))
    {
      hide SlotSize, Origin;
      var x := heads[p];
      heads := heads[p := Rd(mem, x)];
      mem := mem[x := SlotSize(p)][x + 4 := Origin(p)];
      inUse := inUse + SlotSize(p);
      lists, live := lists[p := lists[p][1..]], live[x := Slab(p)];
    }

    method OneOff(total: nat) returns (ptr: int)
      requires Valid() && total >= HEADER
      modifies this
      ensures Valid() && attached == old(attached)
      ensures ptr == 0 ==> View() == old(View())
      ensures ptr != 0 ==> ptr - HEADER !in old(live) && View() == TakeBig(old(View()), ptr - HEADER, attached, total)
      ensures asked == old(asked) + [Ask(total, if attached then 4 else 1, if ptr == 0 then 0 else ptr - HEADER)]
      ensures Booked(old(View()), View(), ptr, Big(attached, total)) && ptr != HEADER
    {
      var a := AllocMem(total, if attached then 4 else 1);
      if a == 0 {
        return 0;
      }
      assert a > 0;
      hide Inv, Unused, TakeBig;
      TakeBigKeeps(View(), a, attached, total);
      StampOneOff(a, total);
      BigFrame(old(View()), a, attached, total);
      ptr := a + HEADER;
    }

    method StampOneOff(a: int, total: nat)
      modifies `mem, `inUse, `regions, `live
      ensures View() == TakeBig(old(View()), a, old(attached), total) && attached == old(attached)
    {
      mem := mem[a := total][a + 4 := if attached then ORIGIN_DMA else ORIGIN_EXEC];
      inUse := inUse + total;
      regions, live := regions[a := total], live[a := Big(attached, total)];
    }

    /** netstack_free: the stamp alone decides, for whatever pointer it is given. */
    method Free(ptr: int)
      requires Valid()
      modifies this
      ensures View() == if ptr == 0 then old(View()) else old(Freed(View(), ptr - HEADER))
      ensures ptr == 0 || old(Sound(View(), ptr - HEADER)) ==> Valid()
    {
      if ptr == 0 {
        return;
      }
      var x := ptr - HEADER;
      InvLengths(View());
      if Sound(View(), x) {
        FreedKeeps(View(), x);
      }
      hide Inv, Sound, Freed;
      FreeByStamp(x);
    }

    method FreeByStamp(x: int)
      requires |heads| == |lists| == POOLS
      modifies this
      ensures View() == old(Freed(View(), x))
    {
      hide SlotSize, PushFree;
      var origin := Rd(mem, x + 4);
      if ORIGIN_SLB0 <= origin < ORIGIN_SLB0 + CLASSES {
        FreeToPool(origin - ORIGIN_SLB0, x);
      } else if ORIGIN_XSL0 <= origin < ORIGIN_XSL0 + CLASSES {
        FreeToPool(origin - ORIGIN_XSL0 + CLASSES, x);
      } else if origin == ORIGIN_DMA || origin == ORIGIN_EXEC {
        FreeOneOff(origin == ORIGIN_DMA, x);
      }
    }

    method FreeToPool(p: nat, x: int)
      requires p < POOLS && |heads| == |lists| == POOLS
      modifies this
      ensures var r := old(Forgotten(View(), x, SlotSize(p)));
        View() == if p < CLASSES && !r.attached then r else PushFree(r, p, x)
    {
      hide SlotSize;
      Forget(x, SlotSize(p));
      if p < CLASSES && !attached {
        return; // the arena went back at detach: the block is not touched
      }
      PushSlot(p, x);
    }

    /** netdevif_dma_free, which needs its netdev, or FreeMem. */
    method FreeOneOff(dma: bool, x: int)
      modifies this
      ensures var r := old(Forgotten(View(), x, Rd(mem, x)));
        View() == if dma && !r.attached then r else r.(regions := r.regions - {x})
    {
      Forget(x, Rd(mem, x));
      if !dma || attached {
        regions := regions - {x};
      }
    }

    /** Take n bytes off the books; whoever owned x does so no longer. */
    method Forget(x: int, n: int)
      modifies `inUse, `live, `lost
      ensures View() == old(Forgotten(View(), x, n))
    {
      inUse := inUse - n;
      if x in live {
        live := live - {x};
      } else {
        lost := lost - {x};
      }
    }

    method PushSlot(p: nat, x: int)
      requires p < |heads| && p < |lists|
      modifies `mem, `heads, `lists
      ensures View() == old(PushFree(View(), p, x))
    {
      mem := mem[x := heads[p]][x + 4 := ORIGIN_FREE];
      heads, lists := heads[p := x], lists[p := [x] + lists[p]];
    }

    /** A netdev became active: new blocks come from the DMA world. */
    method Attach()
      requires Valid() && lost == map[]
      modifies this
      ensures Valid() && View() == old(View()).(attached := true)
    {
      AttachKeeps(View());
      hide Inv;
      attached := true;
    }

    /** netstack_slab_detach, then ns_ActiveNetdev cleared: class by class, every arena goes back. */
    method SlabDetach()
      requires Valid() && attached
      modifies this
      ensures Valid() && View() == old(Detach(View()))
    {
      DetachKeeps(View());
      assert |heads| == |lists| == |arenas| == POOLS;
      hide Inv, Of, Returned;
      ForgetPools();
      attached := false;
      live, lost := Of(live, false), Of(live, true);
      slots := map x | x in slots && slots[x].pool >= CLASSES :: slots[x];
    }

    method ForgetPools()
      requires |heads| == |lists| == |arenas| == POOLS
      modifies `heads, `lists, `arenas, `regions
      ensures regions == Returned(old(regions), old(arenas), CLASSES)
      ensures heads == [0, 0, 0] + old(heads)[CLASSES..] && lists == [[], [], []] + old(lists)[CLASSES..]
      ensures arenas == [[], [], []] + old(arenas)[CLASSES..]
    {
      for cls := 0 to CLASSES
        invariant |heads| == |lists| == |arenas| == POOLS
        invariant regions == Returned(old(regions), old(arenas), cls)
        invariant forall p :: 0 <= p < POOLS ==> heads[p] == if p < cls then 0 else old(heads)[p]
        invariant forall p :: 0 <= p < POOLS ==> lists[p] == if p < cls then [] else old(lists)[p]
        invariant forall p :: 0 <= p < POOLS ==> arenas[p] == if p < cls then [] else old(arenas)[p]
      {
        ReturnArenas(arenas[cls]);
        arenas, heads, lists := arenas[cls := []], heads[cls := 0], lists[cls := []];
      }
    }

    /** netdevif_dma_free of each arena of a class. */
    method ReturnArenas(list: seq<int>)
      modifies `regions
      ensures regions == old(regions) - Elems(list)
    {
      for i := 0 to |list|
        invariant regions == old(regions) - Elems(list[..i])
      {
        assert Elems(list[..i + 1]) == Elems(list[..i]) + {list[i]};
        regions := regions - {list[i]};
      }
      assert list[..|list|] == list;
    }
  }

  /** An origin word no allocator of ours writes. */
  predicate Foreign(w: int) {
    && !(ORIGIN_SLB0 <= w < ORIGIN_SLB0 + CLASSES) && !(ORIGIN_XSL0 <= w < ORIGIN_XSL0 + CLASSES)
    && w != ORIGIN_DMA && w != ORIGIN_EXEC && w != ORIGIN_FREE
  }

  /** The origin stamp of a live block names its pool, and the header its extent. */
  lemma {:induction false} OriginTells(h: Heap, x: int)
    requires Inv(h)
    ensures x in h.live ==> Rd(h.mem, x + 4) == Stamp(h.live[x]) && Rd(h.mem, x) == Extent(h.live[x])
    ensures x in h.live && h.live[x].Slab? ==> h.live[x].pool < POOLS
  {
    if x in h.live {
      assert BlockOk(h, x);
      if h.live[x].Slab? {
        assert SlotOk(h, x);
      }
    }
  }

  /** Off the books: n bytes less, and x owned by nobody. */
  ghost function Forgotten(h: Heap, x: int, n: int): Heap {
    if x in h.live then h.(live := h.live - {x}, inUse := h.inUse - n) else h.(lost := h.lost - {x}, inUse := h.inUse - n)
  }

  /** What netstack_free makes of pointer x + HEADER, by its origin stamp. */
  ghost function Freed(h: Heap, x: int): Heap
    requires |h.heads| == |h.lists| == POOLS
  {
    var w := Rd(h.mem, x + 4);
    if ORIGIN_SLB0 <= w < ORIGIN_SLB0 + CLASSES then
      var p := w - ORIGIN_SLB0;
      var r := Forgotten(h, x, SlotSize(p));
      if h.attached then PushFree(r, p, x) else r
    else if ORIGIN_XSL0 <= w < ORIGIN_XSL0 + CLASSES then
      var p := w - ORIGIN_XSL0 + CLASSES;
      PushFree(Forgotten(h, x, SlotSize(p)), p, x)
    else if w == ORIGIN_DMA then
      var r := Forgotten(h, x, Rd(h.mem, x));
      if h.attached then r.(regions := h.regions - {x}) else r
    else if w == ORIGIN_EXEC then Forgotten(h, x, Rd(h.mem, x)).(regions := h.regions - {x})
    else h
  }

  /** A live block goes back to where it came from. */
  ghost function Released(h: Heap, x: int): Heap
    requires x in h.live && |h.heads| == |h.lists| == POOLS && (h.live[x].Slab? ==> h.live[x].pool < POOLS)
  {
    var gone := h.(live := h.live - {x}, inUse := h.inUse - Extent(h.live[x]));
    match h.live[x]
    case Slab(p) => PushFree(gone, p, x)
    case Big(_, _) => gone.(regions := h.regions - {x})
  }

  lemma {:induction false} ReleasedKeeps(h: Heap, x: int)
    requires Inv(h) && x in h.live
    ensures (h.live[x].Slab? ==> h.live[x].pool < POOLS) && Inv(Released(h, x))
  {
    hide Total, RegionsApart, WorldOk, ListOk, BlockOk, SlotOk, SlotSize;
    OriginTells(h, x);
    if h.live[x].Slab? {
      FreeSlabKeeps(h, x);
    } else {
      forall p | 0 <= p < POOLS ensures x !in h.arenas[p] {
        ArenaIs(h, p, x);
      }
      hide Inv;
      ForgetKeeps(h, x);
      DropRegionKeeps(h.(live := h.live - {x}, inUse := h.inUse - Extent(h.live[x])), x);
    }
  }

  /** Dispatch by stamp returns a live block to its own pool, with its own size. */
  lemma {:induction false} FreedIsReleased(h: Heap, x: int)
    requires Inv(h) && x in h.live
    ensures (h.live[x].Slab? ==> h.live[x].pool < POOLS) && Freed(h, x) == Released(h, x)
  {
    OriginTells(h, x);
    hide Total, RegionsApart, ArenasOk, ListOk, BlockOk, SlotOk, PushFree, SlotSize;
    assert Dma(h.live[x]) ==> h.attached;
  }

  /** The header of lost block x still says what it said. */
  ghost predicate Intact(h: Heap, x: int) {
    && x in h.lost && Rd(h.mem, x + 4) == Stamp(h.lost[x])
    && (h.lost[x].Big? ==> Rd(h.mem, x) == h.lost[x].size)
  }

  /** A stamp netstack_free leaves alone: already free, or not one of ours. */
  predicate Inert(w: int) { Foreign(w) || w == ORIGIN_FREE }

  /** Frees that do no harm: a live block, a block lost at detach, or nothing of ours. */
  ghost predicate Sound(h: Heap, x: int) { x in h.live || Inert(Rd(h.mem, x + 4)) || Intact(h, x) }

  /** Any stamp but the eight a block can carry, the FREE stamp included, is dropped without a trace. */
  lemma {:induction false} OthersDropped(h: Heap, x: int)
    requires |h.heads| == |h.lists| == POOLS
    requires Rd(h.mem, x + 4) !in {0x534C4230, 0x534C4231, 0x534C4232, 0x58534C30, 0x58534C31, 0x58534C32, 0x444d4120, 0x45584543}
    ensures Sound(h, x) && Freed(h, x) == h
  {
  }

  lemma {:induction false} LostKeeps(h: Heap, x: int)
    requires Inv(h) && x in h.lost
    ensures !h.attached && Dma(h.lost[x]) && Inv(h.(lost := h.lost - {x}, inUse := h.inUse - Extent(h.lost[x])))
  {
    TotalRemove(h.lost, x);
    var r := h.(lost := h.lost - {x}, inUse := h.inUse - Extent(h.lost[x]));
    hide Total, Extent, SlotSize;
    SameHeap(h, r);
  }

  /** The parts of the invariant that do not concern the books. */
  lemma {:induction false} SameHeap(h: Heap, r: Heap)
    requires Inv(h) && r == h.(lost := r.lost, inUse := r.inUse, attached := r.attached)
    ensures ArenasOk(r) && (forall y :: y in r.slots ==> SlotOk(r, y)) && (forall y :: y in r.live ==> BlockOk(r, y))
    ensures |r.heads| == |r.lists| == POOLS && forall p :: 0 <= p < POOLS ==> ListOk(r, p)
  {
    hide Total, SlotSize, RegionsApart, WorldOk;
    forall y | y in h.slots ensures SlotOk(r, y) {
      assert SlotOk(h, y);
    }
    forall y | y in h.live ensures BlockOk(r, y) {
      assert BlockOk(h, y);
    }
    forall p | 0 <= p < POOLS ensures ListOk(r, p) {
      assert ListOk(h, p);
      forall i | 0 <= i < |h.lists[p]| ensures SameFree(h, r, p, h.lists[p][i]) {
        assert FreeSlot(h, p, h.lists[p][i]);
      }
      KeepList(h, r, p);
    }
    forall p, a | 0 <= p < POOLS && a in h.arenas[p] ensures ArenaAt(r, p, a) {
      assert ArenaAt(h, p, a);
    }
  }

  /** A block lost at detach only leaves the books; its memory is not touched. */
  lemma {:induction false} LostFreed(h: Heap, x: int)
    requires Inv(h) && x !in h.live && Intact(h, x)
    ensures Freed(h, x) == h.(lost := h.lost - {x}, inUse := h.inUse - Extent(h.lost[x]))
    ensures Inv(Freed(h, x))
  {
    LostKeeps(h, x);
    hide Inv, PushFree, SlotSize;
  }

  lemma {:induction false} FreedKeeps(h: Heap, x: int)
    requires Inv(h) && Sound(h, x)
    ensures Inv(Freed(h, x))
  {
    hide Total, RegionsApart, ArenasOk, ListOk, SlotSize, PushFree, Inv;
    if x in h.live {
      FreedIsReleased(h, x);
      ReleasedKeeps(h, x);
    } else if Intact(h, x) {
      LostFreed(h, x);
    }
  }

  /**
   Exactly which frees of a pointer with a DMA slab stamp keep the heap and its
   books in order: those of a live block, or of one lost at detach whose size the
   stamp still names. The code also takes a second free of a dropped block, and
   then counts its bytes off twice.
   */
  lemma {:induction false} StaleFreeExact(h: Heap, x: int)
    requires Inv(h) && ORIGIN_SLB0 <= Rd(h.mem, x + 4) < ORIGIN_SLB0 + CLASSES
    ensures Inv(Freed(h, x)) <==>
      x in h.live || (x in h.lost && Extent(h.lost[x]) == SlotSize(Rd(h.mem, x + 4) - ORIGIN_SLB0))
  {
    var p, r := Rd(h.mem, x + 4) - ORIGIN_SLB0, Freed(h, x);
    if x in h.live {
      FreedKeeps(h, x);
    } else if x in h.lost {
      LostKeeps(h, x);
      TotalRemove(h.lost, x);
      assert r == h.(lost := h.lost - {x}, inUse := h.inUse - SlotSize(p));
    } else {
      assert h.lost - {x} == h.lost;
      assert r.inUse == h.inUse - SlotSize(p) && r.live == h.live && r.lost == h.lost;
    }
  }

  /** A second free of a slab block dropped after a detach breaks the books. */
  lemma {:induction false} SecondFreeMiscounts(h: Heap, x: int)
    requires Inv(h) && x !in h.live && Intact(h, x) && h.lost[x].Slab?
    ensures var r := Freed(h, x); Inv(r) && r.inUse < h.inUse && !Inv(Freed(r, x))
  {
    LostFreed(h, x);
    assert Dma(h.lost[x]);
    hide Inv, Freed, PushFree;
    StaleFreeExact(Freed(h, x), x);
  }

  // ---- the second attach ----

  /** Every freelist is a chain of free slots of the pool's own arenas. */
  ghost predicate ListsOwned(h: Heap) { |h.heads| == |h.lists| == POOLS && forall p :: 0 <= p < POOLS ==> ListOk(h, p) }

  /** The free of x is passed on to the attached netdev's allocator. */
  predicate HandsOver(h: Heap, x: int) { h.attached && Rd(h.mem, x + 4) == ORIGIN_DMA }

  /**
   What a second attach makes of the blocks lost at the detach. Their later
   frees leave the freelists owned iff none of them is a slab's; and they touch
   neither the freelists nor the new netdev's allocator iff none is out at all.
   */
  lemma {:induction false} ReattachExact(h: Heap)
    requires Inv(h) && !h.attached
    ensures (forall x :: x !in h.live && Intact(h, x) ==> ListsOwned(Freed(h.(attached := true), x)))
       <==> (forall x :: x !in h.live && Intact(h, x) ==> h.lost[x].Big?)
    ensures (forall x :: x !in h.live && Intact(h, x) ==>
               ListsOwned(Freed(h.(attached := true), x)) && !HandsOver(h.(attached := true), x))
       <==> (forall x :: x !in h.live ==> !Intact(h, x))
  {
    forall x | x !in h.live && Intact(h, x)
      ensures ListsOwned(Freed(h.(attached := true), x)) <==> h.lost[x].Big?
      ensures HandsOver(h.(attached := true), x) <==> h.lost[x].Big?
    {
      ReattachOne(h, x);
      assert Dma(h.lost[x]);
    }
    hide Inv, Freed, ListsOwned, HandsOver, Intact;
  }

  lemma {:induction false} ReattachOne(h: Heap, x: int)
    requires Inv(h) && !h.attached && x !in h.live && Intact(h, x)
    ensures ListsOwned(Freed(h.(attached := true), x)) <==> h.lost[x].Big?
    ensures h.lost[x].Slab? ==>
      var p, r := h.lost[x].pool, Freed(h.(attached := true), x);
      p < CLASSES && r.lists[p] == [x] && r.heads[p] == x && r.arenas[p] == [] && (x in r.slots ==> r.slots[x].pool >= CLASSES)
  {
    var g := h.(attached := true);
    var r := Freed(g, x);
    assert Dma(h.lost[x]);
    hide Total, RegionsApart;
    if h.lost[x].Slab? {
      var p := h.lost[x].pool;
      DmaAttached(h, x, p);
      assert r.lists[p] == [x] && r.slots == h.slots;
      assert !FreeSlot(r, p, r.lists[p][0]);
      assert !ListOk(r, p);
    } else {
      forall p | 0 <= p < POOLS ensures ListOk(r, p) {
        assert ListOk(h, p);
        forall i | 0 <= i < |h.lists[p]| ensures SameFree(h, r, p, h.lists[p][i]) {
          assert FreeSlot(h, p, h.lists[p][i]);
        }
        KeepList(h, r, p);
      }
    }
  }

  lemma {:induction false} DmaAttached(h: Heap, x: int, p: nat)
    requires Inv(h) && p < CLASSES
    ensures x in h.slots && h.slots[x].pool < CLASSES ==> h.attached
    ensures h.lists[p] != [] ==> h.attached
  {
    hide Total, RegionsApart, BlockOk;
    if x in h.slots {
      assert SlotOk(h, x);
    }
    if h.lists[p] != [] {
      assert ListOk(h, p);
      assert FreeSlot(h, p, h.lists[p][0]);
      assert SlotOk(h, h.lists[p][0]);
    }
  }

  lemma {:induction false} FirstSlot(a: int, p: nat)
    ensures SlotAddr(a, p, 0) == a + ARENA_HDR
  {
  }

  lemma {:induction false} NextSlot(a: int, p: nat, i: nat)
    ensures SlotAddr(a, p, i + 1) == SlotAddr(a, p, i) + SlotSize(p)
  {
    hide SlotSize;
  }

  lemma {:induction false} HeadIsNull(h: Heap, p: nat)
    requires Inv(h) && p < POOLS
    ensures h.heads[p] == 0 <==> h.lists[p] == []
  {
    assert ListOk(h, p);
    if h.lists[p] != [] {
      assert FreeSlot(h, p, h.lists[p][0]);
    }
  }

  lemma {:induction false} HeadPositive(h: Heap, p: nat)
    requires Inv(h) && p < POOLS && h.lists[p] != []
    ensures h.heads[p] > 0
  {
    hide Total, RegionsApart, WorldOk, BlockOk, SlotSize;
    assert ListOk(h, p);
    assert FreeSlot(h, p, h.lists[p][0]);
    assert SlotOk(h, h.heads[p]);
    SlotInArena(h, h.heads[p]);
  }

  lemma {:induction false} StampIntact(h: Heap, p: nat)
    requires Inv(h) && p < POOLS && h.lists[p] != []
    ensures Rd(h.mem, h.heads[p] + 4) == ORIGIN_FREE
  {
    assert ListOk(h, p);
    assert FreeSlot(h, p, h.lists[p][0]);
  }

  lemma {:induction false} AttachKeeps(h: Heap)
    requires Inv(h) && h.lost == map[]
    ensures Inv(h.(attached := true))
  {
    hide Total;
    SameHeap(h, h.(attached := true));
  }

  // ---- whole runs ----

  datatype Op =
    | Grow(p: nat, a: int)
    | Take(p: nat)
    | TakeOneOff(a: int, n: nat)
    | Release(x: int)
    | UserWrite(x: int, off: nat, v: int)
    | ForeignWrite(a: int, v: int) // somebody else's memory, arenas given back included
    | AttachOp
    | DetachOp

  ghost predicate Enabled(h: Heap, op: Op) {
    && |h.heads| == |h.lists| == |h.arenas| == POOLS
    && match op
       case Grow(p, a) => p < POOLS && (p < CLASSES <==> h.attached) && Unused(h.regions, a, ArenaSize(p)) && (h.attached ==> a % 64 == 0)
       case Take(p) => p < POOLS && (p < CLASSES <==> h.attached) && h.lists[p] != []
       case TakeOneOff(a, n) => Unused(h.regions, a, n) && n >= HEADER
       case Release(x) => Sound(h, x)
       case UserWrite(x, off, _) => x in h.live && HEADER <= off && off + 4 <= Extent(h.live[x])
       case ForeignWrite(a, _) => Unused(h.regions, a, 4)
       case AttachOp => !h.attached && h.lost == map[]
       case DetachOp => h.attached
  }

  ghost function Next(h: Heap, op: Op): Heap
    requires Enabled(h, op)
  {
    match op
    case Grow(p, a) => Carve(AddArena(h, p, a), p, a, SlotCount(p))
    case Take(p) => Pop(h, p)
    case TakeOneOff(a, n) => TakeBig(h, a, h.attached, n)
    case Release(x) => Freed(h, x)
    case UserWrite(x, off, v) => h.(mem := h.mem[x + off := v])
    case ForeignWrite(a, v) => h.(mem := h.mem[a := v])
    case AttachOp => h.(attached := true)
    case DetachOp => Detach(h)
  }

  lemma {:induction false} ForeignWriteKeeps(h: Heap, a: int, v: int)
    requires Inv(h) && Unused(h.regions, a, 4)
    ensures Inv(h.(mem := h.mem[a := v]))
  {
    forall x, n | Occupies(h, x, n) ensures a != x && a != x + 4 {
      if x in h.slots {
        SlotInArena(h, x);
        assert Apart(a, 4, h.slots[x].arena, h.regions[h.slots[x].arena]);
      } else {
        assert BlockOk(h, x);
      }
    }
    StoreKeeps(h, a, v);
  }

  lemma {:induction false} NextKeeps(h: Heap, op: Op)
    requires Inv(h) && Enabled(h, op)
    ensures Inv(Next(h, op))
  {
    hide Inv, SlotSize, Carve, Freed, Sound;
    match op
    case Grow(p, a) =>
      GrowKeeps(h, p, a);
      CarveKeeps(AddArena(h, p, a), p, a, SlotCount(p));
    case Take(p) => PopKeeps(h, p);
    case TakeOneOff(a, n) => TakeBigKeeps(h, a, h.attached, n);
    case Release(x) => FreedKeeps(h, x);
    case UserWrite(x, off, v) => UserWriteKeeps(h, x, off, v);
    case ForeignWrite(a, v) => ForeignWriteKeeps(h, a, v);
    case AttachOp => AttachKeeps(h);
    case DetachOp => DetachKeeps(h);
  }

  const EMPTY := Heap(map[], [0, 0, 0, 0, 0, 0], [[], [], [], [], [], []], 0, false,
                      [[], [], [], [], [], []], map[], map[], map[], map[])

  ghost predicate Run(hs: seq<Heap>, ops: seq<Op>) {
    && |hs| == |ops| + 1 && hs[0] == EMPTY
    && forall i :: 0 <= i < |ops| ==> Enabled(hs[i], ops[i]) && hs[i + 1] == Next(hs[i], ops[i])
  }

  /**
   After any run of allocations, frees, growth, attach, detach, writes by the
   blocks' owners and writes by others to memory that is not ours: every
   freelist is a chain of distinct stamped free slots of arenas its pool still
   lists, no slot is on two lists, blocks and free slots never overlap, DMA
   memory is held only while attached, and the in-use count is the sum of the
   blocks outstanding, those lost at a detach included.
   */
  lemma {:induction false} HeapSafe(hs: seq<Heap>, ops: seq<Op>, i: nat)
    requires Run(hs, ops) && i < |hs|
    ensures Inv(hs[i])
    decreases i
  {
    if i > 0 {
      hide Inv, Enabled, Next;
      HeapSafe(hs, ops, i - 1);
      NextKeeps(hs[i - 1], ops[i - 1]);
    } else {
      EmptyOk();
    }
  }

  lemma {:induction false} EmptyOk()
    ensures Inv(EMPTY)
  {
    forall p | 0 <= p < POOLS ensures ListOk(EMPTY, p) {
      assert EMPTY.lists[p] == [] && EMPTY.heads[p] == 0;
    }
    assert Total(map[]) == 0;
  }

  /** Detaching with a slab block of pool q out loses that block, header intact. */
  lemma {:induction false} TakenIsLost(h: Heap, q: nat)
    requires Inv(h) && h.attached && q < CLASSES && h.lists[q] != []
    ensures var g, x := Pop(h, q), h.heads[q];
      Inv(g) && g.attached && x !in Detach(g).live && Intact(Detach(g), x) && Detach(g).lost[x] == Slab(q)
  {
    PopKeeps(h, q);
    hide Inv, SlotSize, Returned;
    LiveOf(Pop(h, q).live, true, h.heads[q]);
    LiveOf(Pop(h, q).live, false, h.heads[q]);
  }

  lemma {:induction false} FirstAttach()
    ensures var h := EMPTY.(attached := true); Inv(h) && h.attached && h.regions == map[]
  {
    hide Inv;
    EmptyOk();
    AttachKeeps(EMPTY);
  }

  lemma {:induction false} FirstArena(h: Heap, a: int)
    requires Inv(h) && h.attached && h.regions == map[] && a > 0 && a % 64 == 0
    ensures Enabled(h, Grow(0, a))
    ensures var g := Next(h, Grow(0, a)); Inv(g) && g.attached && |g.heads| > 0 && |g.lists| == POOLS && g.lists[0] != []
  {
    GrowKeeps(h, 0, a);
    hide Carve, Inv, SlotSize, SlotCount;
    CarveKeeps(AddArena(h, 0, a), 0, a, SlotCount(0));
    CarveFrame(AddArena(h, 0, a), 0, a, SlotCount(0));
    assert |Next(h, Grow(0, a)).lists| == POOLS by { InvLengths(AddArena(h, 0, a)); }
  }

  lemma {:induction false} InvLengths(h: Heap)
    requires Inv(h)
    ensures |h.heads| == |h.lists| == |h.arenas| == POOLS
  {
  }

  /** x was lost at the detach; freed after another attach, it heads a list of a pool without arenas. */
  ghost predicate ForeignHead(h: Heap, x: int) {
    && Inv(h) && !h.attached && x !in h.live && Intact(h, x)
    && var r := Freed(h.(attached := true), x);
       !ListsOwned(r) && r.lists[0] == [x] && r.heads[0] == x && r.arenas[0] == []
  }

  lemma {:induction false} LostIsForeign(h: Heap)
    requires Inv(h) && h.attached && h.lists[0] != []
    ensures var g := Pop(h, 0);
      |g.heads| == |g.lists| == |g.arenas| == POOLS && ForeignHead(Detach(g), h.heads[0])
  {
    TakenIsLost(h, 0);
    var g := Pop(h, 0);
    DetachKeeps(g);
    ReattachOne(Detach(g), h.heads[0]);
    hide Inv, Pop, Freed, Intact, ListsOwned;
  }

  /**
   The hazard of a second attach, on the shortest run: one block out at the
   detach. After another attach its free puts memory the driver took back at
   the head of a freelist.
   */
  lemma {:induction false} ReattachHazard(a: int) returns (hs: seq<Heap>, x: int)
    requires a > 0 && a % 64 == 0
    ensures |hs| == 5 && ForeignHead(hs[4], x) && Run(hs, [AttachOp, Grow(0, a), Take(0), DetachOp])
  {
    hide *;
    FirstAttach();
    var h1 := EMPTY.(attached := true);
    FirstArena(h1, a);
    var h2 := Next(h1, Grow(0, a));
    InvLengths(h2);
    LostIsForeign(h2);
    x := h2.heads[0];
    hs := [EMPTY, h1, h2, Pop(h2, 0), Detach(Pop(h2, 0))];
    HazardRun(hs, a);
  }

  lemma {:induction false} HazardRun(hs: seq<Heap>, a: int)
    requires |hs| == 5 && hs[0] == EMPTY && hs[1] == EMPTY.(attached := true)
    requires Enabled(hs[1], Grow(0, a)) && hs[2] == Next(hs[1], Grow(0, a))
    requires hs[2].attached && |hs[2].heads| == |hs[2].lists| == |hs[2].arenas| == POOLS && hs[2].lists[0] != []
    requires hs[3] == Pop(hs[2], 0) && hs[4] == Detach(hs[3])
    ensures Run(hs, [AttachOp, Grow(0, a), Take(0), DetachOp])
  {
    hide Carve, SlotSize, SlotCount, AddArena, Detach;
    var ops := [AttachOp, Grow(0, a), Take(0), DetachOp];
    assert Enabled(hs[0], ops[0]) && hs[1] == Next(hs[0], ops[0]);
    assert Enabled(hs[2], ops[2]) && hs[3] == Next(hs[2], ops[2]);
    assert Enabled(hs[3], ops[3]) && hs[4] == Next(hs[3], ops[3]);
  }

  // ---- no slot goes missing ----

  /** Slot x is handed out under its own pool, or waits on that pool's list. */
  ghost predicate Kept(h: Heap, x: int)
    requires x in h.slots
  {
    var p := h.slots[x].pool;
    (x in h.live && h.live[x] == Slab(p)) || (p < |h.lists| && x in h.lists[p])
  }

  ghost predicate Complete(h: Heap) { forall x :: x in h.slots ==> Kept(h, x) }

  lemma {:induction false} AddSlotComplete(h: Heap, p: nat, a: int, i: nat)
    requires p < |h.heads| && p < |h.lists| && Complete(h)
    ensures Complete(AddSlot(h, p, a, i))
  {
    hide SlotSize, SlotAddr;
    var r, x := AddSlot(h, p, a, i), SlotAddr(a, p, i);
    assert r.lists[p][0] == x;
    forall y | y in r.slots ensures Kept(r, y) {
      if y != x {
        assert Kept(h, y);
        Behind(h.lists[p], x, y);
      }
    }
  }

  lemma {:induction false} Behind(l: seq<int>, x: int, y: int)
    ensures y in [x] + l <==> y == x || y in l
  {
  }

  lemma {:induction false} CarveComplete(h: Heap, p: nat, a: int, n: nat)
    requires p < |h.heads| && p < |h.lists| && Complete(h)
    ensures Complete(Carve(h, p, a, n))
  {
    CarveStep(h, p, a, n);
    if n > 0 {
      hide Complete, AddSlot;
      CarveComplete(h, p, a, n - 1);
      AddSlotComplete(Carve(h, p, a, n - 1), p, a, n - 1);
    }
  }

  lemma {:induction false} PopComplete(h: Heap, q: nat)
    requires Inv(h) && Complete(h) && q < POOLS && h.lists[q] != []
    ensures Complete(Pop(h, q))
  {
    PopKeeps(h, q);
    assert ListOk(h, q);
    hide Inv, SlotSize, ListOk;
    var r, x := Pop(h, q), h.heads[q];
    forall y | y in r.slots ensures Kept(r, y) {
      if y != x {
        assert Kept(h, y);
        assert h.lists[q] == [x] + h.lists[q][1..];
        Behind(h.lists[q][1..], x, y);
      }
    }
  }

  lemma {:induction false} ReleasedComplete(h: Heap, x: int)
    requires Inv(h) && Complete(h) && x in h.live && (h.live[x].Slab? ==> h.live[x].pool < POOLS)
    ensures Complete(Released(h, x))
  {
    assert BlockOk(h, x);
    hide Inv, SlotSize, BlockOk;
    var r := Released(h, x);
    if h.live[x].Slab? {
      assert r.lists[h.live[x].pool] == [x] + h.lists[h.live[x].pool];
      forall y | y in r.slots ensures Kept(r, y) {
        assert Kept(h, y);
        Behind(h.lists[h.live[x].pool], x, y);
      }
    } else {
      forall y | y in r.slots ensures Kept(r, y) {
        assert Kept(h, y);
      }
    }
  }

  lemma {:induction false} FreedComplete(h: Heap, x: int)
    requires Inv(h) && Complete(h) && Sound(h, x)
    ensures Complete(Freed(h, x))
  {
    hide Inv, SlotSize, PushFree, Released;
    InvLengths(h);
    if x in h.live {
      FreedIsReleased(h, x);
      ReleasedComplete(h, x);
    } else if Intact(h, x) {
      LostFreed(h, x);
      hide Freed, Sound, Intact;
      forall y | y in h.slots ensures Kept(Freed(h, x), y) {
        assert Kept(h, y);
      }
    }
  }

  lemma {:induction false} DetachComplete(h: Heap)
    requires Inv(h) && Complete(h)
    ensures Complete(Detach(h))
  {
    var r := Detach(h);
    hide Inv, Of, Returned;
    forall y | y in r.slots ensures Kept(r, y) {
      assert Kept(h, y);
      LiveOf(h.live, false, y);
    }
  }

  lemma {:induction false} NextComplete(h: Heap, op: Op)
    requires Inv(h) && Complete(h) && Enabled(h, op)
    ensures Complete(Next(h, op))
  {
    match op
    case Grow(p, a) =>
      var g := AddArena(h, p, a);
      hide Inv, Carve;
      assert Complete(g) by {
        forall y | y in g.slots ensures Kept(g, y) { assert Kept(h, y); }
      }
      CarveComplete(g, p, a, SlotCount(p));
    case Take(p) => PopComplete(h, p);
    case TakeOneOff(a, n) =>
      RegionKeeps(h, a, n);
      hide Inv;
      forall y | y in h.slots ensures Kept(Next(h, op), y) { assert Kept(h, y); }
    case Release(x) => FreedComplete(h, x);
    case DetachOp => DetachComplete(h);
    case _ =>
      hide Inv;
      forall y | y in h.slots ensures Kept(Next(h, op), y) { assert Kept(h, y); }
  }

  /** In every run, every slot of every arena still held is handed out or on its list. */
  lemma {:induction false} NoSlotMissing(hs: seq<Heap>, ops: seq<Op>, i: nat)
    requires Run(hs, ops) && i < |hs|
    ensures Complete(hs[i])
    decreases i
  {
    if i > 0 {
      hide Inv, Enabled, Next, Complete;
      NoSlotMissing(hs, ops, i - 1);
      HeapSafe(hs, ops, i - 1);
      NextComplete(hs[i - 1], ops[i - 1]);
    }
  }

  /** A slot is on at most one freelist, at most once, and lies inside an arena of that pool. */
  lemma {:induction false} ListsDisjoint(h: Heap, p: nat, i: nat, q: nat, j: nat)
    requires Inv(h) && p < POOLS && q < POOLS && i < |h.lists[p]| && j < |h.lists[q]|
    ensures h.lists[p][i] == h.lists[q][j] ==> p == q && i == j
    ensures var x := h.lists[p][i]; x in h.slots && x !in h.live && InArena(h, p, x) && (p < CLASSES ==> x % 64 == 0)
  {
    hide Total, RegionsApart, WorldOk, BlockOk, Linked, SlotCount;
    var x := h.lists[p][i];
    assert ListOk(h, p) && ListOk(h, q);
    assert FreeSlot(h, p, x) && FreeSlot(h, q, h.lists[q][j]);
    hide SlotSize, ListOk;
    SlotPlace(h, p, x);
  }

  lemma {:induction false} SlotPlace(h: Heap, p: nat, x: int)
    requires Inv(h) && p < POOLS && x in h.slots && h.slots[x].pool == p
    ensures InArena(h, p, x) && (p < CLASSES ==> x % 64 == 0)
  {
    hide Total, RegionsApart, WorldOk, BlockOk, ListOk, SlotSize, SlotCount;
    assert SlotOk(h, x) && ArenaAt(h, p, h.slots[x].arena);
    SlotInArena(h, x);
    Aligned(h.slots[x].index, p);
    assert x == h.slots[x].arena + (ARENA_HDR + h.slots[x].index * SlotSize(p));
  }

  /** x is a whole slot of an arena pool p lists, a multiple of 64 bytes from its base. */
  ghost predicate InArena(h: Heap, p: nat, x: int) {
    && x in h.slots && h.slots[x].pool == p < |h.arenas| && h.slots[x].arena in h.regions
    && var a := h.slots[x].arena;
       a in h.arenas[p] && a + ARENA_HDR <= x && x + SlotSize(p) <= a + h.regions[a] && (x - a) % 64 == 0
  }

  lemma {:induction false} Aligned(i: nat, p: nat)
    ensures (ARENA_HDR + i * SlotSize(p)) % 64 == 0
  {
    var k := SlotSize(p) / 64;
    assert i * SlotSize(p) == 64 * (i * k);
  }
}
