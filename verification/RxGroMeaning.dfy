/**
 Receive merging keeps the meaning of every flow: for any frame sequence, any
 flush pattern and any collision of flows in the context table, a flow's
 delivered packets say what its frames said, in arrival order. Only a pure ACK
 directly followed by a strictly newer one of the same flow may be missing.
 */
module RxGroMeaning {
  import opened Words
  import opened TcpFrame
  import opened RxGro
  import opened RxGroPackets

  /** What a packet says to its flow, in order. */
  datatype Item =
    | Octet(seqno: u32, b: byte)
    | Whole(bytes: Bytes)
    | Ack(ackno: u32, bytes: Bytes)

  function Octets(q: u32, d: Bytes): (r: seq<Item>)
    ensures |r| == |d| && forall i :: 0 <= i < |d| ==> r[i] == Octet(Add32(q, i), d[i])
  {
    seq(|d|, i requires 0 <= i < |d| => Octet(Add32(q, i), d[i]))
  }

  lemma {:induction false} OctetsAppend(q: u32, a: Bytes, b: Bytes)
    ensures Octets(q, a + b) == Octets(q, a) + Octets(Add32(q, |a|), b)
  {
    forall i | 0 <= i < |b| ensures Add32(Add32(q, |a|), i) == Add32(q, |a| + i) {
      Add32Assoc(q, |a|, i);
    }
  }

  /** The meaning of one packet for flow k, from its bytes alone. */
  function FlowItems(f: Bytes, k: FlowKey): seq<Item> {
    match Classify(f)
    case NotTcp => []
    case NoMerge(key) => if key == k then [Whole(f)] else []
    case PureAck(key, ackno) => if key == k then [Ack(ackno, f)] else []
    case Data(key, q, off, _, _) => if key == k && off <= |f| then Octets(q, f[off..]) else []
  }

  function OutItems(out: seq<Packet>, k: FlowKey): seq<Item> {
    if out == [] then [] else OutItems(out[..|out| - 1], k) + FlowItems(Flat(out[|out| - 1]), k)
  }

  lemma {:induction false} OutSnoc(out: seq<Packet>, p: Packet, k: FlowKey)
    ensures OutItems(out + [p], k) == OutItems(out, k) + FlowItems(Flat(p), k)
  {
    assert (out + [p])[..|out|] == out;
  }

  /** a is ahead of b by 1 to 2^31 in 32-bit sequence space: strictly newer. */
  predicate Newer(a: u32, b: u32) { 0 < (a - b) % M32 <= 0x8000_0000 }

  lemma {:induction false} SeqGtIsNewer(a: u32, b: u32)
    ensures SeqGt(a, b) <==> Newer(a, b)
  {
    var d := a - b;
    if d >= 0 {
      assert d % M32 == d;
      assert Sub32(b, a) == if d == 0 then 0 else M32 - d;
    } else {
      assert d % M32 == d + M32;
      assert Sub32(b, a) == -d;
    }
  }

  /** The wrap-safe test: an ackno n ahead is the newer one exactly for n from 1 to 2^31. */
  lemma {:induction false} SeqGtDistance(b: u32, n: nat)
    requires n < M32
    ensures SeqGt(Add32(b, n), b) <==> 0 < n <= 0x8000_0000
  {
    var a := Add32(b, n);
    SeqGtIsNewer(a, b);
    assert a == if b + n < M32 then b + n else b + n - M32;
    assert (a - b) % M32 == n;
  }

  predicate Classified(s: Frame) { s.m == Classify(s.f) }

  // ---- meaning of one packet ----

  lemma {:induction false} SingleItems(s: Frame)
    ensures Flat(Single(s)) == s.f
  {
    var p := Single(s);
    assert p[1..] == [] && s.f + [] == s.f;
  }

  lemma {:induction false} MergedClass(p: Packet, run: seq<Frame>, k: FlowKey)
    requires Merged(p, run, k) && Classified(run[0])
    ensures var m := Classify(Flat(p));
      m.Data? && m.key == k && m.seqno == run[0].m.seqno && m.payOff == run[0].m.payOff
  {
    hide Classify, Verifies, RunBytes, IpSum, Flat;
    var head, first, g, l3 := p[0].data, run[0].f, Flat(p), L3(run[0]);
    forall j | 0 <= j < l3 + HLEN ensures B(g, j) == B(head, j) {
    }
    RunBounded(run, k);
    assert IpLen(g, l3) == IpLen(head, l3) == |g| - l3;
    PshBit(run[0]);
    MergedFlags(B(first, l3 + 33), PshAdd(AnyPsh(run), Psh(run[0])), run[0].m.flags);
    assert SameHeader(first, g, l3) by {
      forall j | 0 <= j < l3 + HLEN && Stable(j, l3) ensures B(g, j) == B(first, j) {
        assert B(head, j) == B(first, j);
      }
    }
    SameShape(first, g);
  }

  lemma {:induction false} MergedFlags(b: byte, add: nat, flags: nat)
    requires b % 64 == flags && (flags == TCP_ACK + TCP_PSH ==> add == 0)
    requires flags in {TCP_ACK, TCP_ACK + TCP_PSH} && add in {0, TCP_PSH}
    ensures (b + add) % 64 in {TCP_ACK, TCP_ACK + TCP_PSH}
  {
  }

  lemma {:induction false} MergedItems(p: Packet, run: seq<Frame>, k: FlowKey, k': FlowKey)
    requires Merged(p, run, k) && Classified(run[0])
    ensures FlowItems(Flat(p), k') == if k' == k then Octets(run[0].m.seqno, RunBytes(run)) else []
  {
    hide Classify, Verifies, RunBytes, IpSum, Flat;
    MergedClass(p, run, k);
    var off, head := run[0].m.payOff, p[0].data;
    assert |head| == |run[0].f| && off <= |head|;
    hide HeadOf;
    assert Flat(p)[off..] == RunBytes(run);
  }

  // ---- what arrived ----

  predicate OfFlow(s: Frame, k: FlowKey) { !s.m.NotTcp? && s.m.key == k }

  /** The frames of flow k among those that arrived, in order. */
  function FlowFrames(arr: seq<Frame>, k: FlowKey): seq<Frame> {
    if arr == [] then [] else
    FlowFrames(arr[..|arr| - 1], k) + if OfFlow(arr[|arr| - 1], k) then [arr[|arr| - 1]] else []
  }

  lemma {:induction false} FlowSnoc(arr: seq<Frame>, s: Frame, k: FlowKey)
    ensures FlowFrames(arr + [s], k) == FlowFrames(arr, k) + if OfFlow(s, k) then [s] else []
  {
    hide Located;
    assert (arr + [s])[..|arr|] == arr;
  }

  lemma {:induction false} FlowFramesIn(arr: seq<Frame>, k: FlowKey, i: nat)
    requires i < |FlowFrames(arr, k)|
    ensures FlowFrames(arr, k)[i] in arr
    decreases |arr|
  {
    var n := |arr| - 1;
    if i < |FlowFrames(arr[..n], k)| {
      FlowFramesIn(arr[..n], k, i);
    }
  }

  ghost predicate StretchAt(run: seq<Frame>, q: seq<Frame>, i: nat) { i + |run| <= |q| && q[i..i + |run|] == run }

  /** run is a contiguous stretch of q, or the one that ends it. */
  ghost predicate Within(run: seq<Frame>, q: seq<Frame>) { exists i :: StretchAt(run, q, i) }

  ghost predicate Ends(run: seq<Frame>, q: seq<Frame>) { |run| <= |q| && StretchAt(run, q, |q| - |run|) }

  /** p is a frame as it arrived, or a well-formed merge of consecutive arrivals of one flow. */
  ghost predicate Delivered(p: Packet, arr: seq<Frame>) {
    || (exists s: Frame :: s in arr && p == Single(s))
    || (exists run, k :: MergeOf(p, run, k, arr))
  }

  ghost predicate MergeOf(p: Packet, run: seq<Frame>, k: FlowKey, arr: seq<Frame>) {
    Merged(p, run, k) && Within(run, FlowFrames(arr, k))
  }

  /** p splices consecutive arrivals of flow k, and soundly iff it fits its 16-bit total. */
  ghost predicate SpliceOf(p: Packet, run: seq<Frame>, k: FlowKey, arr: seq<Frame>) {
    && Run(run, k) && |p| == |run| > 1 && Within(run, FlowFrames(arr, k))
    && |Flat(p)| == RunTotal(run) && (Merged(p, run, k) <==> RunTotal(run) < 0x1_0000)
  }

  /** What the engine delivers, whatever the lengths: an arrival, or consecutive arrivals spliced. */
  ghost predicate Spliced(p: Packet, arr: seq<Frame>) {
    || (exists s: Frame :: s in arr && p == Single(s))
    || (exists run, k :: SpliceOf(p, run, k, arr))
  }

  /** Exactly when a delivered packet is sound: iff its bytes fit the 16-bit total. */
  lemma {:induction false} SplicedExact(p: Packet, arr: seq<Frame>)
    requires Spliced(p, arr)
    ensures Delivered(p, arr) <==> |Flat(p)| < 0x1_0000
  {
    hide Merged, RunTotal, Flat, Within, FlowFrames;
    if s: Frame :| s in arr && p == Single(s) {
      SingleItems(s);
    } else {
      var run: seq<Frame>, k :| SpliceOf(p, run, k, arr);
      if RunTotal(run) < 0x1_0000 {
        assert MergeOf(p, run, k, arr);
      }
      if Delivered(p, arr) {
        if s: Frame :| s in arr && p == Single(s) {
          SingleItems(s);
        } else {
          var r: seq<Frame>, k' :| MergeOf(p, r, k', arr);
          MergedFits(p, r, k');
        }
      }
    }
  }

  // ---- contexts ----

  ghost predicate HoldsRun(c: Ctx, run: seq<Frame>, arr: seq<Frame>) {
    Holds(c, run) && Classified(run[0]) && Ends(run, FlowFrames(arr, c.key))
  }

  ghost predicate HoldsAck(c: Ctx, s: Frame, arr: seq<Frame>) {
    Classified(s) && s.m.PureAck? && c == HoldAck(s) && s in arr
  }

  ghost predicate SlotOk(c: Ctx, i: nat, arr: seq<Frame>) {
    c.Held? ==> Slot(c.key) == i && ((exists s :: HoldsAck(c, s, arr)) || (exists run :: HoldsRun(c, run, arr)))
  }

  /** Held runs end the arrivals of their flow; delivered packets are arrivals or splices of them. */
  ghost predicate Inv(g: Gro, arr: seq<Frame>) {
    && Ready(g)
    && (forall i :: 0 <= i < FLOWS ==> SlotOk(g.flows[i], i, arr))
    && forall p :: p in g.out ==> Spliced(p, arr)
  }

  /** Every packet still to be flushed fits its 16-bit total. */
  predicate Fit(g: Gro) { |g.flows| == FLOWS && forall i :: 0 <= i < FLOWS ==> CtxFits(g.flows[i]) }

  function HeldItems(c: Ctx, k: FlowKey): seq<Item>
    requires Shape(c)
  {
    if c.Idle? then [] else FlowItems(Flat(FlushPacket(c)), k)
  }

  lemma {:induction false} AckHeld(c: Ctx, s: Frame, arr: seq<Frame>, k: FlowKey)
    requires HoldsAck(c, s, arr)
    ensures Shape(c) && HeldItems(c, k) == (if k == c.key then [Ack(c.mark, s.f)] else [])
    ensures Spliced(FlushPacket(c), arr) && CtxFits(c)
  {
    SingleItems(s);
    assert FlushPacket(c) == Single(s);
  }

  lemma {:induction false} RunHeld(c: Ctx, run: seq<Frame>, k: FlowKey)
    requires Holds(c, run) && Classified(run[0]) && CtxFits(c)
    ensures HeldItems(c, k) == if k == c.key then Octets(run[0].m.seqno, RunBytes(run)) else []
    ensures |run| > 1 ==> Merged(FlushPacket(c), run, c.key)
  {
    hide Classify, HeadOf, Flat;
    if |run| == 1 {
      SingleItems(run[0]);
      assert FlushPacket(c) == Single(run[0]);
      assert run[..0] == [];
      assert RunBytes(run) == Payload(run[0]);
    } else {
      FitsIff(c, run);
      FlushMerged(c, run);
      MergedItems(FlushPacket(c), run, c.key, k);
    }
  }

  lemma {:induction false} EndsIn(run: seq<Frame>, arr: seq<Frame>, k: FlowKey)
    requires Ends(run, FlowFrames(arr, k)) && run != []
    ensures run[|run| - 1] in arr && Within(run, FlowFrames(arr, k))
  {
    hide Located;
    var q := FlowFrames(arr, k);
    hide FlowFrames;
    assert StretchAt(run, q, |q| - |run|);
    assert q[|q| - 1] == run[|run| - 1];
    FlowFramesIn(arr, k, |q| - 1);
  }

  lemma {:induction false} RunSpliced(c: Ctx, run: seq<Frame>, arr: seq<Frame>)
    requires HoldsRun(c, run, arr)
    ensures Spliced(FlushPacket(c), arr)
  {
    EndsIn(run, arr, c.key);
    hide HeadOf, Classified, FlowFrames, Ends, Within, RunBytes, Merged, IpLen, IpChk, RunTotal, Flat;
    if |run| == 1 {
      assert FlushPacket(c) == Single(run[0]);
    } else {
      FlushMerged(c, run);
      assert SpliceOf(FlushPacket(c), run, c.key, arr);
    }
  }

  lemma {:induction false} HeldSpliced(c: Ctx, i: nat, arr: seq<Frame>)
    requires SlotOk(c, i, arr) && Shape(c)
    ensures c.Held? ==> Spliced(FlushPacket(c), arr)
  {
    hide HeldItems, FlushPacket, Holds, HoldAck, Spliced, Classified, Ends, FlowFrames;
    if c.Held? {
      if s :| HoldsAck(c, s, arr) {
        AckHeld(c, s, arr, c.key);
      } else {
        var run: seq<Frame> :| HoldsRun(c, run, arr);
        RunSpliced(c, run, arr);
      }
    }
  }

  /** A context speaks only for the flow it holds. */
  lemma {:induction false} HeldFacts(c: Ctx, i: nat, arr: seq<Frame>, k: FlowKey)
    requires SlotOk(c, i, arr) && CtxFits(c)
    ensures c.Held? && c.key != k ==> HeldItems(c, k) == []
  {
    hide HeldItems, FlushPacket, Holds, HoldAck, Spliced, Classified, Ends, FlowFrames, CtxFits;
    if c.Held? {
      if s :| HoldsAck(c, s, arr) {
        AckHeld(c, s, arr, k);
      } else {
        var run: seq<Frame> :| HoldsRun(c, run, arr);
        RunHeld(c, run, k);
      }
    }
  }

  /** What a flow has been told so far, the held part included. */
  function Stream(g: Gro, k: FlowKey): seq<Item>
    requires Ready(g)
  {
    OutItems(g.out, k) + HeldItems(g.flows[Slot(k)], k)
  }

  lemma {:induction false} FlushInv(g: Gro, i: nat, arr: seq<Frame>)
    requires Inv(g, arr) && i < FLOWS
    ensures Inv(FlushAt(g, i), arr)
  {
    hide FlushPacket, Spliced, Slot;
    if g.flows[i].Held? {
      HeldSpliced(g.flows[i], i, arr);
      assert SlotOk(Idle, i, arr);
      hide SlotOk;
    }
  }

  lemma {:induction false} FlushStream(g: Gro, i: nat, arr: seq<Frame>, k: FlowKey)
    requires Inv(g, arr) && i < FLOWS && CtxFits(g.flows[i])
    ensures Stream(FlushAt(g, i), k) == Stream(g, k)
  {
    hide FlushPacket, FlowItems, Flat, Spliced, CtxFits, OutItems, HoldsRun, HoldsAck, Slot;
    var c := g.flows[i];
    if c.Held? {
      assert SlotOk(c, i, arr);
      HeldFacts(c, i, arr, k);
      OutSnoc(g.out, FlushPacket(c), k);
      hide SlotOk, Inv;
      IdleSilent(k);
      if i == Slot(k) {
        HeldIsFlushed(c, k);
      } else {
        hide HeldItems;
        assert FlowItems(Flat(FlushPacket(c)), k) == [] by { HeldIsFlushed(c, k); }
      }
    }
  }

  lemma {:induction false} HeldIsFlushed(c: Ctx, k: FlowKey)
    requires Shape(c) && c.Held?
    ensures HeldItems(c, k) == FlowItems(Flat(FlushPacket(c)), k)
  {
  }

  /** Replacing the context of slot i changes only what that slot says. */
  lemma {:induction false} StoreStream(g: Gro, i: nat, c: Ctx, k: FlowKey)
    requires Ready(g) && i < FLOWS && Shape(c)
    ensures var r := g.(flows := g.flows[i := c]);
      Ready(r) && Stream(r, k) == if Slot(k) == i then OutItems(g.out, k) + HeldItems(c, k) else Stream(g, k)
  {
  }

  lemma {:induction false} StoreInv(g: Gro, i: nat, c: Ctx, arr: seq<Frame>)
    requires Inv(g, arr) && i < FLOWS && Shape(c) && SlotOk(c, i, arr)
    ensures Inv(g.(flows := g.flows[i := c]), arr)
  {
    hide SlotOk, Spliced;
  }

  lemma {:induction false} DeliverStream(g: Gro, s: Frame, k: FlowKey)
    requires Ready(g)
    requires FlowItems(s.f, k) == [] || HeldItems(g.flows[Slot(k)], k) == []
    ensures Stream(g.(out := g.out + [Single(s)]), k) == Stream(g, k) + FlowItems(s.f, k)
  {
    hide FlowItems, HeldItems, Flat;
    SingleItems(s);
    OutSnoc(g.out, Single(s), k);
  }

  lemma {:induction false} DeliverInv(g: Gro, s: Frame, arr: seq<Frame>)
    requires Inv(g, arr) && s in arr
    ensures Inv(g.(out := g.out + [Single(s)]), arr)
  {
    hide SlotOk;
    assert Spliced(Single(s), arr);
    hide Spliced;
  }

  // ---- an arrival ----

  lemma {:induction false} SplicedLater(p: Packet, arr: seq<Frame>, s: Frame)
    requires Spliced(p, arr)
    ensures Spliced(p, arr + [s])
  {
    hide Merged, FlowFrames, Single, Run, RunTotal, Flat;
    if s0: Frame :| s0 in arr && p == Single(s0) {
      assert s0 in arr + [s];
    } else {
      var run: seq<Frame>, k :| SpliceOf(p, run, k, arr);
      FlowSnoc(arr, s, k);
      var i :| StretchAt(run, FlowFrames(arr, k), i);
      assert StretchAt(run, FlowFrames(arr + [s], k), i);
      assert SpliceOf(p, run, k, arr + [s]);
    }
  }

  lemma {:induction false} SlotLater(c: Ctx, i: nat, arr: seq<Frame>, s: Frame)
    requires SlotOk(c, i, arr) && (c.Held? ==> !OfFlow(s, c.key))
    ensures SlotOk(c, i, arr + [s])
  {
    hide Holds, Classified, FlowFrames, HoldAck, Slot, OfFlow;
    if c.Held? {
      FlowSnoc(arr, s, c.key);
      assert FlowFrames(arr + [s], c.key) == FlowFrames(arr, c.key);
      if s0 :| HoldsAck(c, s0, arr) {
        assert HoldsAck(c, s0, arr + [s]);
      } else {
        var run: seq<Frame> :| HoldsRun(c, run, arr);
        assert HoldsRun(c, run, arr + [s]);
      }
    }
  }

  /** A frame whose flow no context holds leaves contexts and deliveries as they are. */
  lemma {:induction false} ArriveInv(g: Gro, s: Frame, arr: seq<Frame>)
    requires Inv(g, arr) && (s.m.NotTcp? || !SameFlow(g.flows[Slot(s.m.key)], s.m.key))
    ensures Inv(g, arr + [s])
  {
    forall i | 0 <= i < FLOWS ensures SlotOk(g.flows[i], i, arr + [s]) {
      assert SlotOk(g.flows[i], i, arr);
      hide HoldsRun, HoldsAck, Slot;
      SlotLater(g.flows[i], i, arr, s);
    }
    hide SlotOk, Slot;
    forall p | p in g.out ensures Spliced(p, arr + [s]) {
      SplicedLater(p, arr, s);
    }
  }

  // ---- one step ----

  /** The step that discards: the last item is an ACK and a strictly newer one takes its place. */
  ghost predicate Replaces(was: seq<Item>, now: seq<Item>, items: seq<Item>) {
    && |items| == 1 && items[0].Ack?
    && |was| > 0 && was[|was| - 1].Ack? && Newer(items[0].ackno, was[|was| - 1].ackno)
    && now == was[..|was| - 1] + items
  }

  /** One arriving frame adds its items to its flow, or replaces the flow's last ACK. */
  ghost predicate Tells(g: Gro, s: Frame, k: FlowKey)
    requires Ready(g)
  {
    var was, now, items := Stream(g, k), Stream(Rx(g, s), k), FlowItems(s.f, k);
    now == was + items || Replaces(was, now, items)
  }

  lemma {:induction false} TellsNoMerge(g: Gro, s: Frame, arr: seq<Frame>, k: FlowKey)
    requires Inv(g, arr) && Fit(g) && Classified(s) && (s.m.NotTcp? || s.m.NoMerge?)
    ensures Tells(g, s, k)
  {
    hide OutItems, HeldItems, FlushPacket, Spliced, Flat, HoldsRun, HoldsAck, CtxFits;
    if s.m.NotTcp? {
      DeliverStream(g, s, k);
    } else {
      var i := Slot(s.m.key);
      var c := g.flows[i];
      if SameFlow(c, s.m.key) {
        FlushStream(g, i, arr, k);
        assert HeldItems(Idle, k) == [] by { IdleSilent(k); }
        DeliverStream(FlushAt(g, i), s, k);
      } else {
        HeldFacts(c, i, arr, k);
        IdleSilent(k);
        DeliverStream(g, s, k);
      }
    }
  }

  lemma {:induction false} IdleSilent(k: FlowKey)
    ensures HeldItems(Idle, k) == []
  {
  }

  lemma {:induction false} TellsSupersede(g: Gro, s: Frame, arr: seq<Frame>, k: FlowKey)
    requires Inv(g, arr) && Classified(s) && s.m.PureAck? && Supersedes(g.flows[Slot(s.m.key)], s.m)
    ensures Inv(Rx(g, s), arr + [s]) && Tells(g, s, k)
  {
    hide OutItems, HeldItems, FlushPacket, Spliced, Flat;
    var i := Slot(s.m.key);
    var c := g.flows[i];
    assert exists s0 :: HoldsAck(c, s0, arr);
    var s0 :| HoldsAck(c, s0, arr);
    var c' := c.(chain := Single(s), mark := s.m.ackno);
    assert HoldsAck(c', s, arr + [s]);
    SeqGtIsNewer(s.m.ackno, c.mark);
    hide SeqGt, Newer;
    AckHeld(c, s0, arr, k);
    AckHeld(c', s, arr + [s], k);
    StoreStream(g, i, c', k);
    ReplaceInv(g, i, c', s, arr);
    if k == s.m.key {
      var was := Stream(g, k);
      assert was == OutItems(g.out, k) + [Ack(c.mark, s0.f)];
      assert was[..|was| - 1] == OutItems(g.out, k);
    }
  }

  /** The context of s's flow, replaced by one that is right once s has arrived. */
  lemma {:induction false} ReplaceInv(g: Gro, i: nat, c: Ctx, s: Frame, arr: seq<Frame>)
    requires Inv(g, arr) && !s.m.NotTcp? && i == Slot(s.m.key) && Shape(c) && SlotOk(c, i, arr + [s])
    ensures Inv(g.(flows := g.flows[i := c]), arr + [s])
  {
    hide Slot, Spliced, HoldsRun, HoldsAck;
    var g' := g.(flows := g.flows[i := Idle]);
    StoreInv(g, i, Idle, arr);
    ArriveInv(g', s, arr);
    StoreInv(g', i, c, arr + [s]);
    assert g'.flows[i := c] == g.flows[i := c];
  }

  lemma {:induction false} ExtendHolds(c: Ctx, run: seq<Frame>, s: Frame, arr: seq<Frame>)
    requires HoldsRun(c, run, arr) && Classified(s) && s.m.Data? && Extends(c, s.m)
    ensures Absorb(c, s).key == c.key && HoldsRun(Absorb(c, s), run + [s], arr + [s])
    ensures CtxFits(Absorb(c, s)) ==> CtxFits(c)
  {
    hide FlushPacket, Flat, Classify, HeadOf, HeldItems, RunBytes, FlowFrames;
    AbsorbHolds(c, run, s);
    assert (run + [s])[0] == run[0];
    FlowSnoc(arr, s, c.key);
    EndsSnoc(run, FlowFrames(arr, c.key), s);
  }

  lemma {:induction false} ExtendItems(c: Ctx, run: seq<Frame>, s: Frame, arr: seq<Frame>, k: FlowKey)
    requires HoldsRun(c, run, arr) && Classified(s) && s.m.Data? && Extends(c, s.m) && CtxFits(Absorb(c, s))
    ensures HeldItems(Absorb(c, s), k) == HeldItems(c, k) + FlowItems(s.f, k)
  {
    hide FlushPacket, Flat, Classify, HeadOf, HeldItems, RunBytes, FlowFrames, Absorb, CtxFits;
    var q, d := run[0].m.seqno, RunBytes(run);
    ExtendHolds(c, run, s, arr);
    assert (run + [s])[0] == run[0];
    RunHeld(c, run, k);
    RunHeld(Absorb(c, s), run + [s], k);
    RunSnoc(run, s, c.key);
    OctetsAppend(q, d, Payload(s));
    hide *;
    assert s.m.seqno == Add32(q, |d|);
    DataItems(s, k);
  }

  lemma {:induction false} EndsSnoc(run: seq<Frame>, q: seq<Frame>, s: Frame)
    requires Ends(run, q)
    ensures Ends(run + [s], q + [s])
  {
    hide Located;
    var i := |q| - |run|;
    assert (q + [s])[i..] == q[i..] + [s];
    assert q[i..] == run;
  }

  lemma {:induction false} DataItems(s: Frame, k: FlowKey)
    requires Classified(s) && s.m.Data?
    ensures FlowItems(s.f, k) == if k == s.m.key then Octets(s.m.seqno, Payload(s)) else []
  {
    hide Classify;
  }

  lemma {:induction false} RunOf(c: Ctx, i: nat, arr: seq<Frame>) returns (run: seq<Frame>)
    requires SlotOk(c, i, arr) && c.Held? && !c.isAck
    ensures HoldsRun(c, run, arr)
  {
    run :| HoldsRun(c, run, arr);
  }

  lemma {:induction false} ExtendInv(g: Gro, s: Frame, arr: seq<Frame>)
    requires Inv(g, arr) && Classified(s) && s.m.Data? && Extends(g.flows[Slot(s.m.key)], s.m)
    ensures Inv(Rx(g, s), arr + [s])
  {
    hide FlushPacket, Spliced, Absorb, HoldAck, Slot, Holds, Classify, FlowFrames, Ends, CtxFits;
    var i := Slot(s.m.key);
    var c := g.flows[i];
    assert SlotOk(c, i, arr);
    var run := RunOf(c, i, arr);
    ExtendHolds(c, run, s, arr);
    assert SlotOk(Absorb(c, s), i, arr + [s]);
    hide HoldsRun, HoldsAck, SlotOk;
    ReplaceInv(g, i, Absorb(c, s), s, arr);
  }

  lemma {:induction false} TellsExtend(g: Gro, s: Frame, arr: seq<Frame>, k: FlowKey)
    requires Inv(g, arr) && Classified(s) && s.m.Data? && Extends(g.flows[Slot(s.m.key)], s.m)
    requires Fit(Rx(g, s))
    ensures Tells(g, s, k)
  {
    hide OutItems, HeldItems, FlushPacket, Spliced, Flat, Absorb, HoldAck, Slot, FlowItems, Holds, Classify, FlowFrames, Ends, CtxFits;
    var i := Slot(s.m.key);
    var c := g.flows[i];
    assert SlotOk(c, i, arr) && CtxFits(Rx(g, s).flows[i]);
    var run := RunOf(c, i, arr);
    ExtendItems(c, run, s, arr, k);
    hide HoldsRun, HoldsAck, SlotOk, Inv;
    StoreStream(g, i, Absorb(c, s), k);
    if k != s.m.key {
      DataItems(s, k);
    }
  }

  lemma {:induction false} TellsHold(g: Gro, s: Frame, arr: seq<Frame>, k: FlowKey)
    requires Inv(g, arr) && Classified(s) && (s.m.PureAck? || s.m.Data?)
    requires var c := g.flows[Slot(s.m.key)]; !Supersedes(c, s.m) && !Extends(c, s.m)
    ensures Inv(Rx(g, s), arr + [s]) && (Fit(g) ==> Tells(g, s, k))
  {
    hide OutItems, HeldItems, FlushPacket, Spliced, Flat, Slot, FlowItems, Classify, FlowFrames, HoldsRun, HoldsAck, CtxFits;
    var i := Slot(s.m.key);
    var c := if s.m.PureAck? then HoldAck(s) else HoldData(s);
    FlushInv(g, i, arr);
    HoldItems(s, arr, k);
    hide SlotOk;
    ReplaceInv(FlushAt(g, i), i, c, s, arr);
    if Fit(g) {
      FlushStream(g, i, arr, k);
      IdleSilent(k);
      StoreStream(FlushAt(g, i), i, c, k);
      if Slot(k) != i {
        OtherFlow(s, k);
      }
    }
  }

  lemma {:induction false} OtherFlow(s: Frame, k: FlowKey)
    requires Classified(s) && !s.m.NotTcp? && s.m.key != k
    ensures FlowItems(s.f, k) == []
  {
  }

  lemma {:induction false} HoldItems(s: Frame, arr: seq<Frame>, k: FlowKey)
    requires Classified(s) && (s.m.PureAck? || s.m.Data?)
    ensures var c := if s.m.PureAck? then HoldAck(s) else HoldData(s);
      Shape(c) && SlotOk(c, Slot(s.m.key), arr + [s]) && HeldItems(c, k) == FlowItems(s.f, k)
  {
    hide FlushPacket, Flat, Classify, Slot, HeldItems, FlowFrames;
    if s.m.PureAck? {
      assert HoldsAck(HoldAck(s), s, arr + [s]);
      AckHeld(HoldAck(s), s, arr + [s], k);
    } else {
      HoldDataHolds(s);
      FlowSnoc(arr, s, s.m.key);
      assert HoldsRun(HoldData(s), [s], arr + [s]);
      RunHeld(HoldData(s), [s], k);
      assert [s][..0] == [];
      assert RunBytes([s]) == Payload(s);
      DataItems(s, k);
      hide Holds;
    }
  }

  lemma {:induction false} NoMergeInv(g: Gro, s: Frame, arr: seq<Frame>)
    requires Inv(g, arr) && (s.m.NotTcp? || s.m.NoMerge?)
    ensures Inv(Rx(g, s), arr + [s])
  {
    hide FlushPacket, Spliced, Slot, SlotOk;
    if s.m.NoMerge? && SameFlow(g.flows[Slot(s.m.key)], s.m.key) {
      var r := FlushAt(g, Slot(s.m.key));
      FlushInv(g, Slot(s.m.key), arr);
      ArriveInv(r, s, arr);
      DeliverInv(r, s, arr + [s]);
    } else {
      ArriveInv(g, s, arr);
      DeliverInv(g, s, arr + [s]);
    }
  }

  /** Dispatch keeps contexts and deliveries what they are, whatever the frame's length. */
  lemma {:induction false} RxInv(g: Gro, s: Frame, arr: seq<Frame>)
    requires Inv(g, arr) && Classified(s)
    ensures Inv(Rx(g, s), arr + [s])
  {
    hide Rx;
    assert Slot(if s.m.NotTcp? then FlowKey(0, 0, 0) else s.m.key) < FLOWS;
    if s.m.NotTcp? || s.m.NoMerge? {
      NoMergeInv(g, s, arr);
    } else if Supersedes(g.flows[Slot(s.m.key)], s.m) {
      TellsSupersede(g, s, arr, s.m.key);
    } else if Extends(g.flows[Slot(s.m.key)], s.m) {
      ExtendInv(g, s, arr);
    } else {
      TellsHold(g, s, arr, s.m.key);
    }
  }

  lemma {:induction false} RxTells(g: Gro, s: Frame, arr: seq<Frame>, k: FlowKey)
    requires Inv(g, arr) && Classified(s) && Fit(g) && Fit(Rx(g, s))
    ensures Inv(Rx(g, s), arr + [s]) && Tells(g, s, k)
  {
    RxInv(g, s, arr);
    hide Rx, Stream, FlowItems, Fit;
    assert Slot(if s.m.NotTcp? then FlowKey(0, 0, 0) else s.m.key) < FLOWS;
    if s.m.NotTcp? || s.m.NoMerge? {
      TellsNoMerge(g, s, arr, k);
    } else if Supersedes(g.flows[Slot(s.m.key)], s.m) {
      TellsSupersede(g, s, arr, k);
    } else if Extends(g.flows[Slot(s.m.key)], s.m) {
      TellsExtend(g, s, arr, k);
    } else {
      TellsHold(g, s, arr, k);
    }
  }

  // ---- whole runs ----

  /**
   out is what may be delivered of a flow's items: everything, in order,
   except ACKs whose direct successor in the flow is a strictly newer ACK.
   next is the item that follows, if any.
   */
  ghost predicate Thins(items: seq<Item>, out: seq<Item>, next: seq<Item>)
    requires |next| <= 1
  {
    var n, o := |items|, |out|;
    if n == 0 then o == 0 else
    var last := items[n - 1];
    || (o > 0 && out[o - 1] == last && Thins(items[..n - 1], out[..o - 1], [last]))
    || (last.Ack? && next != [] && next[0].Ack? && Newer(next[0].ackno, last.ackno)
        && Thins(items[..n - 1], out, [last]))
  }

  lemma {:induction false} ThinsNext(items: seq<Item>, out: seq<Item>, next: seq<Item>)
    requires |next| <= 1 && Thins(items, out, [])
    ensures Thins(items, out, next)
  {
  }

  lemma {:induction false} ThinsAppend(items: seq<Item>, out: seq<Item>, more: seq<Item>)
    requires Thins(items, out, [])
    ensures Thins(items + more, out + more, [])
    decreases |more|
  {
    if more == [] {
      assert items + more == items && out + more == out;
    } else {
      var m := |more| - 1;
      ThinsAppend(items, out, more[..m]);
      var i', o' := items + more, out + more;
      assert i'[..|i'| - 1] == items + more[..m] && o'[..|o'| - 1] == out + more[..m];
      ThinsNext(items + more[..m], out + more[..m], [more[m]]);
    }
  }

  lemma {:induction false} ThinsReplace(items: seq<Item>, was: seq<Item>, now: seq<Item>, more: seq<Item>)
    requires Thins(items, was, []) && Replaces(was, now, more)
    ensures Thins(items + more, now, [])
  {
    var i' := items + more;
    assert i'[..|i'| - 1] == items && now[..|now| - 1] == was[..|was| - 1];
    assert Thins(items, was[..|was| - 1], more);
  }

  /** Data octets and unmergeable segments all survive, in order. */
  function NonAcks(items: seq<Item>): seq<Item> {
    if items == [] then [] else
    NonAcks(items[..|items| - 1]) + if items[|items| - 1].Ack? then [] else [items[|items| - 1]]
  }

  lemma {:induction false} ThinsKeepsData(items: seq<Item>, out: seq<Item>, next: seq<Item>)
    requires |next| <= 1 && Thins(items, out, next)
    ensures NonAcks(items) == NonAcks(out)
    decreases |items|
  {
    if items != [] {
      var n, o := |items|, |out|;
      var last := items[n - 1];
      if o > 0 && out[o - 1] == last && Thins(items[..n - 1], out[..o - 1], [last]) {
        ThinsKeepsData(items[..n - 1], out[..o - 1], [last]);
      } else {
        ThinsKeepsData(items[..n - 1], out, [last]);
      }
    }
  }

  /** What the receive loop does: dispatch a frame, or flush before the lock is released. */
  datatype Event = Arrive(s: Frame) | FlushAll

  function Arrived(evs: seq<Event>): seq<Frame> {
    if evs == [] then []
    else Arrived(evs[..|evs| - 1]) + match evs[|evs| - 1] case Arrive(s) => [s] case FlushAll => []
  }

  ghost predicate AllClassified(evs: seq<Event>) {
    forall i :: 0 <= i < |evs| && evs[i].Arrive? ==> Classified(evs[i].s)
  }

  function Exec(evs: seq<Event>): (g: Gro)
    ensures Ready(g)
  {
    if evs == [] then START else
    var g := Exec(evs[..|evs| - 1]);
    match evs[|evs| - 1]
    case Arrive(s) => Rx(g, s)
    case FlushAll => FlushFrom(g, 0)
  }

  function InItems(evs: seq<Event>, k: FlowKey): seq<Item> {
    if evs == [] then [] else
    InItems(evs[..|evs| - 1], k)
    + match evs[|evs| - 1] case Arrive(s) => FlowItems(s.f, k) case FlushAll => []
  }

  lemma {:induction false} FlushFromInv(g: Gro, i: nat, arr: seq<Frame>)
    requires Inv(g, arr) && i <= FLOWS
    ensures var r := FlushFrom(g, i);
      Inv(r, arr) && forall j :: 0 <= j < FLOWS ==> r.flows[j] == if j < i then g.flows[j] else Idle
    decreases FLOWS - i
  {
    hide SlotOk, Spliced, FlushPacket;
    if i < FLOWS {
      FlushInv(g, i, arr);
      FlushFromInv(FlushAt(g, i), i + 1, arr);
    }
  }

  lemma {:induction false} FlushFromStream(g: Gro, i: nat, arr: seq<Frame>, k: FlowKey)
    requires Inv(g, arr) && i <= FLOWS && Fit(g)
    ensures Stream(FlushFrom(g, i), k) == Stream(g, k)
    decreases FLOWS - i
  {
    hide Stream, SlotOk, Spliced;
    if i < FLOWS {
      FlushInv(g, i, arr);
      FlushStream(g, i, arr, k);
      FlushFromStream(FlushAt(g, i), i + 1, arr, k);
    }
  }

  lemma {:induction false} StartSilent(k: FlowKey)
    ensures Inv(START, []) && Stream(START, k) == []
  {
    hide FlowItems, Spliced, HoldsRun, HoldsAck, FlushPacket, Slot;
    assert START.flows[Slot(k)] == Idle;
  }

  lemma {:induction false} ArriveThins(items: seq<Item>, g: Gro, s: Frame, arr: seq<Frame>, k: FlowKey)
    requires Inv(g, arr) && Classified(s) && Fit(g) && Fit(Rx(g, s)) && Thins(items, Stream(g, k), [])
    ensures Thins(items + FlowItems(s.f, k), Stream(Rx(g, s), k), [])
  {
    hide Stream, Rx, FlowItems, Thins, Fit;
    RxTells(g, s, arr, k);
    var was, now, more := Stream(g, k), Stream(Rx(g, s), k), FlowItems(s.f, k);
    if now == was + more {
      ThinsAppend(items, was, more);
    } else {
      ThinsReplace(items, was, now, more);
    }
  }

  /**
   For frames of every length: what is held ends its flow's arrivals, and every
   delivered packet is an arrival or splices consecutive ones of one flow. It is
   a sound delivery exactly when its bytes fit the 16-bit total.
   */
  lemma {:induction false} RunSplices(evs: seq<Event>)
    requires AllClassified(evs)
    ensures Inv(Exec(evs), Arrived(evs))
    ensures forall p :: p in Exec(evs).out ==> (Delivered(p, Arrived(evs)) <==> |Flat(p)| < 0x1_0000)
    decreases |evs|
  {
    if evs == [] {
      StartSilent(FlowKey(0, 0, 0));
    } else {
      var n := |evs| - 1;
      hide Rx, FlushFrom, SlotOk, Spliced;
      RunSplices(evs[..n]);
      var arr := Arrived(evs[..n]);
      match evs[n]
      case Arrive(s) => RxInv(Exec(evs[..n]), s, arr);
      case FlushAll =>
        FlushFromInv(Exec(evs[..n]), 0, arr);
        assert arr + [] == arr;
    }
    hide Spliced, Delivered, Flat, Exec, Arrived;
    forall p | p in Exec(evs).out ensures Delivered(p, Arrived(evs)) <==> |Flat(p)| < 0x1_0000 {
      SplicedExact(p, Arrived(evs));
    }
  }

  /** No run held at any point of evs outgrows the 16-bit total. */
  ghost predicate AllFit(evs: seq<Event>)
    decreases |evs|
  {
    Fit(Exec(evs)) && (evs != [] ==> AllFit(evs[..|evs| - 1]))
  }

  // ---- exactly when every delivery is sound ----

  /** A packet already delivered, or still to be flushed, outgrows its total. */
  ghost predicate Outgrown(g: Gro) {
    Ready(g) && ((exists i :: 0 <= i < FLOWS && !CtxFits(g.flows[i])) || (exists p :: p in g.out && |Flat(p)| >= 0x1_0000))
  }

  lemma {:induction false} FlushLong(c: Ctx, i: nat, arr: seq<Frame>)
    requires SlotOk(c, i, arr) && Shape(c) && c.Held?
    ensures CtxFits(c) <==> |Flat(FlushPacket(c))| < 0x1_0000
  {
    hide Holds, HoldAck, FlowFrames, Classified, CtxFits, FlushPacket, Flat;
    if s :| HoldsAck(c, s, arr) {
      AckHeld(c, s, arr, c.key);
      AckFlat(c, s);
    } else {
      var run: seq<Frame> :| HoldsRun(c, run, arr);
      FitsIff(c, run);
      RunFlat(c, run);
    }
  }

  lemma {:induction false} AckFlat(c: Ctx, s: Frame)
    requires s.m.PureAck? && c == HoldAck(s)
    ensures Shape(c) && |Flat(FlushPacket(c))| < 0x1_0000
  {
    SingleItems(s);
    assert FlushPacket(c) == Single(s);
  }

  lemma {:induction false} RunFlat(c: Ctx, run: seq<Frame>)
    requires Holds(c, run)
    ensures |Flat(FlushPacket(c))| == RunTotal(run)
  {
    hide HeadOf, Flat;
    if |run| == 1 {
      SingleItems(run[0]);
      assert FlushPacket(c) == Single(run[0]);
      assert RunBytes(run[..0]) == [] && RunBytes(run) == RunBytes(run[..0]) + Payload(run[0]);
      PayloadLength(run[0]);
    } else {
      FlushMerged(c, run);
    }
  }

  /** A context leaves the table and its packet joins the deliveries. */
  lemma {:induction false} MoveOutgrown(g: Gro, i: nat, p: Packet)
    requires Ready(g) && i < FLOWS && (CtxFits(g.flows[i]) <==> |Flat(p)| < 0x1_0000)
    ensures var r := Gro(g.flows[i := Idle], g.out + [p]); Ready(r) && (Outgrown(g) <==> Outgrown(r))
  {
    var r := Gro(g.flows[i := Idle], g.out + [p]);
    IdleFits(Idle);
    hide CtxFits, Flat;
    assert p in r.out && r.flows[i] == Idle;
    assert forall j :: 0 <= j < FLOWS && j != i ==> r.flows[j] == g.flows[j];
    if Outgrown(g) {
      if j :| 0 <= j < FLOWS && !CtxFits(g.flows[j]) {
        assert j != i ==> !CtxFits(r.flows[j]);
      } else {
        var q :| q in g.out && |Flat(q)| >= 0x1_0000;
        assert q in r.out;
      }
    }
    if Outgrown(r) {
      if j :| 0 <= j < FLOWS && !CtxFits(r.flows[j]) {
        assert !CtxFits(g.flows[j]);
      } else {
        var q :| q in r.out && |Flat(q)| >= 0x1_0000;
        assert q in g.out || q == p;
      }
    }
  }

  lemma {:induction false} FlushOutgrown(g: Gro, i: nat, arr: seq<Frame>)
    requires Inv(g, arr) && i < FLOWS
    ensures Outgrown(g) <==> Outgrown(FlushAt(g, i))
  {
    hide CtxFits, FlushPacket, Flat, SlotOk, Spliced, Outgrown;
    var c := g.flows[i];
    if c.Held? {
      assert SlotOk(c, i, arr);
      FlushLong(c, i, arr);
      MoveOutgrown(g, i, FlushPacket(c));
    }
  }

  lemma {:induction false} SendOutgrown(g: Gro, s: Frame)
    requires Ready(g)
    ensures Outgrown(g) <==> Outgrown(g.(out := g.out + [Single(s)]))
  {
    SingleItems(s);
    var r := g.(out := g.out + [Single(s)]);
    hide CtxFits, Flat, Single;
    assert forall p :: p in r.out <==> p in g.out || p == Single(s);
  }

  /** A context that fits replaced by one of which the same is asked. */
  lemma {:induction false} StoreOutgrown(g: Gro, i: nat, c: Ctx)
    requires Ready(g) && i < FLOWS && Shape(c) && (CtxFits(c) ==> CtxFits(g.flows[i]))
    ensures var r := g.(flows := g.flows[i := c]); Ready(r) && (Outgrown(r) <==> Outgrown(g) || !CtxFits(c))
  {
    var r := g.(flows := g.flows[i := c]);
    hide CtxFits, Flat;
    assert r.flows[i] == c;
    assert forall j :: 0 <= j < FLOWS && j != i ==> r.flows[j] == g.flows[j];
    if j :| 0 <= j < FLOWS && !CtxFits(g.flows[j]) {
      assert !CtxFits(r.flows[j]);
    }
    if j :| 0 <= j < FLOWS && !CtxFits(r.flows[j]) && j != i {
      assert !CtxFits(g.flows[j]);
    }
  }

  lemma {:induction false} HoldFits(s: Frame)
    requires s.m.PureAck? || s.m.Data?
    ensures CtxFits(if s.m.PureAck? then HoldAck(s) else HoldData(s))
  {
  }

  /** A step leaves something too long exactly if something was, or what is held now is. */
  lemma {:induction false} RxOutgrown(g: Gro, s: Frame, arr: seq<Frame>)
    requires Inv(g, arr) && Classified(s)
    ensures Outgrown(Rx(g, s)) <==> Outgrown(g) || !Fit(Rx(g, s))
  {
    var r := Rx(g, s);
    assert !Fit(r) ==> Outgrown(r);
    hide Flat, FlushPacket, CtxFits, Spliced, SlotOk, Classify, Slot, Absorb, Outgrown;
    if s.m.NotTcp? {
      SendOutgrown(g, s);
    } else {
      var i := Slot(s.m.key);
      var c := g.flows[i];
      if s.m.NoMerge? {
        FlushOutgrown(g, i, arr);
        SendOutgrown(FlushAt(g, i), s);
        SendOutgrown(g, s);
      } else if Supersedes(c, s.m) {
        var c' := c.(chain := Single(s), mark := s.m.ackno);
        AckFits(c);
        AckFits(c');
        StoreOutgrown(g, i, c');
      } else if Extends(c, s.m) {
        assert SlotOk(c, i, arr);
        AbsorbFits(c, i, s, arr);
        StoreOutgrown(g, i, Absorb(c, s));
        assert r.flows[i] == Absorb(c, s);
      } else {
        FlushOutgrown(g, i, arr);
        IdleFits(Idle);
        HoldFits(s);
        StoreOutgrown(FlushAt(g, i), i, if s.m.PureAck? then HoldAck(s) else HoldData(s));
      }
    }
  }

  lemma {:induction false} AckFits(c: Ctx)
    requires Shape(c) && c.Held? && c.isAck
    ensures CtxFits(c)
  {
  }

  lemma {:induction false} AbsorbFits(c: Ctx, i: nat, s: Frame, arr: seq<Frame>)
    requires SlotOk(c, i, arr) && Classified(s) && s.m.Data? && Extends(c, s.m) && Shape(c)
    ensures CtxFits(Absorb(c, s)) ==> CtxFits(c)
  {
    hide Holds, FlowFrames, Classify, Slot, CtxFits, Absorb, HoldAck;
    var run := RunOf(c, i, arr);
    ExtendHolds(c, run, s, arr);
  }

  lemma {:induction false} FlushFromOutgrown(g: Gro, i: nat, arr: seq<Frame>)
    requires Inv(g, arr) && i <= FLOWS
    ensures Outgrown(g) <==> Outgrown(FlushFrom(g, i))
    decreases FLOWS - i
  {
    hide Outgrown, SlotOk, Spliced, FlushPacket;
    if i < FLOWS {
      FlushInv(g, i, arr);
      FlushOutgrown(g, i, arr);
      FlushFromOutgrown(FlushAt(g, i), i + 1, arr);
    }
  }

  /** Something is or was too long exactly if some run held on the way outgrew its total. */
  lemma {:induction false} OutgrownIff(evs: seq<Event>)
    requires AllClassified(evs)
    ensures Outgrown(Exec(evs)) <==> !AllFit(evs)
    decreases |evs|
  {
    if evs == [] {
      assert forall i :: 0 <= i < FLOWS ==> START.flows[i] == Idle;
    } else {
      var n := |evs| - 1;
      var g := Exec(evs[..n]);
      hide Rx, FlushFrom, Inv, Delivered, Flat, CtxFits;
      assert !Fit(Exec(evs)) ==> Outgrown(Exec(evs));
      hide Outgrown;
      OutgrownIff(evs[..n]);
      RunSplices(evs[..n]);
      match evs[n]
      case Arrive(s) => RxOutgrown(g, s, Arrived(evs[..n]));
      case FlushAll =>
        FlushFromOutgrown(g, 0, Arrived(evs[..n]));
        FlushFromInv(g, 0, Arrived(evs[..n]));
        AllIdleFits(Exec(evs));
    }
  }

  lemma {:induction false} AllIdleFits(g: Gro)
    requires |g.flows| == FLOWS && forall i :: 0 <= i < FLOWS ==> g.flows[i] == Idle
    ensures Fit(g)
  {
  }

  /** With nothing held, every packet delivered is sound if and only if no run held on the way outgrew its total. */
  lemma {:induction false} DeliveryExact(evs: seq<Event>)
    requires AllClassified(evs) && Fit(Exec(evs))
    ensures (forall p :: p in Exec(evs).out ==> Delivered(p, Arrived(evs))) <==> AllFit(evs)
  {
    RunSplices(evs);
    OutgrownIff(evs);
    hide Exec, Delivered, AllFit, Inv, Flat, CtxFits;
  }

  lemma {:induction false} NowFit(evs: seq<Event>)
    requires AllFit(evs)
    ensures Fit(Exec(evs))
  {
  }

  lemma {:induction false} RunThins(evs: seq<Event>, k: FlowKey)
    requires AllClassified(evs) && AllFit(evs)
    ensures Thins(InItems(evs, k), Stream(Exec(evs), k), [])
    decreases |evs|
  {
    if evs == [] {
      StartSilent(k);
    } else {
      var n := |evs| - 1;
      hide Stream, Rx, FlowItems, Thins, FlushFrom, Inv, Fit, Delivered, Flat;
      var arr, items := Arrived(evs[..n]), InItems(evs[..n], k);
      RunThins(evs[..n], k);
      RunSplices(evs[..n]);
      assert Fit(Exec(evs[..n]));
      match evs[n]
      case Arrive(s) => ArriveThins(items, Exec(evs[..n]), s, arr, k);
      case FlushAll =>
        FlushFromStream(Exec(evs[..n]), 0, arr, k);
        assert items + [] == items;
    }
  }

  /**
   Main theorem: after any run in which no held run outgrew the 16-bit total,
   the packets delivered to flow k followed by what is still held say what its
   frames said, superseded ACKs aside, and every delivered packet is a frame as
   it arrived or a well-formed merge of consecutive arrivals of one flow.
   */
  lemma {:induction false} RunMeaning(evs: seq<Event>, k: FlowKey)
    requires AllClassified(evs) && AllFit(evs)
    ensures Thins(InItems(evs, k), Stream(Exec(evs), k), [])
    ensures forall p :: p in Exec(evs).out ==> Delivered(p, Arrived(evs))
  {
    hide Thins, Stream, Fit, Delivered;
    RunThins(evs, k);
    NowFit(evs);
    DeliveryExact(evs);
  }

  // ---- when no run outgrows the total ----

  lemma {:induction false} SmallCtx(c: Ctx, i: nat, arr: seq<Frame>)
    requires SlotOk(c, i, arr) && Shape(c) && AllSmall(arr)
    ensures CtxFits(c)
  {
    hide Holds, Classified, HoldAck, FlowFrames, CtxFits;
    if c.Held? {
      if s :| HoldsAck(c, s, arr) {
        AckHeld(c, s, arr, c.key);
      } else {
        var run: seq<Frame> :| HoldsRun(c, run, arr);
        var q := FlowFrames(arr, c.key);
        forall j | 0 <= j < |run| ensures Small(run[j]) {
          FlowFramesIn(arr, c.key, |q| - |run| + j);
          assert run[j] == q[|q| - |run|..][j];
        }
        HeldRun(c, run);
        RunFits(run, c.key);
        FitsIff(c, run);
      }
    } else {
      IdleFits(c);
    }
  }

  lemma {:induction false} IdleFits(c: Ctx)
    requires c.Idle?
    ensures CtxFits(c)
  {
  }

  lemma {:induction false} HeldRun(c: Ctx, run: seq<Frame>)
    requires Holds(c, run)
    ensures Run(run, c.key)
  {
  }

  /** With IP lengths of at most 1528, as an MTU of 1500 guarantees, none does. */
  lemma {:induction false} SmallFramesFit(evs: seq<Event>)
    requires AllClassified(evs) && AllSmall(Arrived(evs))
    ensures AllFit(evs)
    decreases |evs|
  {
    hide Delivered, Flat, Small;
    RunSplices(evs);
    hide Exec, Spliced;
    forall i | 0 <= i < FLOWS ensures CtxFits(Exec(evs).flows[i]) {
      hide SlotOk, CtxFits;
      SmallCtx(Exec(evs).flows[i], i, Arrived(evs));
    }
    if evs != [] {
      var arr := Arrived(evs[..|evs| - 1]);
      forall i | 0 <= i < |arr| ensures Small(arr[i]) {
        assert arr[i] == Arrived(evs)[i];
      }
      SmallFramesFit(evs[..|evs| - 1]);
    }
  }

  /** The mandatory flush: nothing held, and every packet sound exactly if no run outgrew its total. */
  lemma {:induction false} AfterFlush(evs: seq<Event>)
    requires AllClassified(evs)
    ensures var g := Exec(evs + [FlushAll]);
      (forall p :: p in g.out ==> Delivered(p, Arrived(evs))) <==> AllFit(evs)
  {
    var evs' := evs + [FlushAll];
    assert evs'[..|evs|] == evs;
    assert Arrived(evs') == Arrived(evs) + [] == Arrived(evs);
    hide Delivered, FlushFrom, CtxFits, Flat, Spliced;
    RunSplices(evs);
    FlushFromInv(Exec(evs), 0, Arrived(evs));
    AllIdleFits(Exec(evs'));
    assert AllClassified(evs');
    DeliveryExact(evs');
    assert AllFit(evs') <==> AllFit(evs);
  }

  /** No context outlives a lock hold: after the mandatory flush everything was delivered. */
  lemma {:induction false} FlushDeliversAll(evs: seq<Event>, k: FlowKey)
    requires AllClassified(evs) && AllFit(evs)
    ensures var g := Exec(evs + [FlushAll]);
      && (forall i :: 0 <= i < FLOWS ==> g.flows[i].Idle?)
      && Thins(InItems(evs, k), OutItems(g.out, k), [])
      && NonAcks(OutItems(g.out, k)) == NonAcks(InItems(evs, k))
      && forall p :: p in g.out ==> Delivered(p, Arrived(evs))
  {
    hide Delivered, Thins, FlowItems, Flat, OutItems, NonAcks, Fit, AllFit;
    var evs' := evs + [FlushAll];
    assert evs'[..|evs|] == evs;
    RunMeaning(evs, k);
    RunSplices(evs);
    assert Fit(Exec(evs)) by { NowFit(evs); }
    FlushFromStream(Exec(evs), 0, Arrived(evs), k);
    FlushFromInv(Exec(evs), 0, Arrived(evs));
    IdleSilent(k);
    AfterFlush(evs);
    var out := OutItems(Exec(evs').out, k);
    assert out + [] == out;
    ThinsKeepsData(InItems(evs, k), out, []);
  }
}
