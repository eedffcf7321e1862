/**
 The 16-bit length ceiling of receive merging (MAX_FRAMES in
 port/amiga/include/rx_gro.h is sized for an MTU of 1500): what the engine
 delivers of a burst of consecutive frames, for frames of every length.
 */
module RxGroCeiling {
  import opened Words
  import opened TcpFrame
  import opened RxGro
  import opened RxGroPackets
  import opened RxGroMeaning

  function Burst(run: seq<Frame>): (evs: seq<Event>)
    ensures |evs| == |run| && forall i :: 0 <= i < |run| ==> evs[i] == Arrive(run[i])
  {
    seq(|run|, i requires 0 <= i < |run| => Arrive(run[i]))
  }

  /** The engine holds run in its flow's context and nothing else. */
  ghost predicate HoldsOnly(g: Gro, run: seq<Frame>, k: FlowKey) {
    && Ready(g) && g.out == []
    && Holds(g.flows[Slot(k)], run) && g.flows[Slot(k)].key == k
    && forall i :: 0 <= i < FLOWS && i != Slot(k) ==> g.flows[i].Idle?
  }

  lemma {:induction false} FirstHeld(s: Frame)
    requires s.m.Data?
    ensures HoldsOnly(Rx(START, s), [s], s.m.key)
  {
    hide Holds, Slot;
    HoldDataHolds(s);
  }

  lemma {:induction false} NextExtends(c: Ctx, run: seq<Frame>, s: Frame, k: FlowKey)
    requires Holds(c, run) && c.key == k && Run(run + [s], k)
    ensures s.m.Data? && s.m.key == k && Extends(c, s.m)
  {
    hide HeadOf, RunBytes, Located;
    var all := run + [s];
    assert all[|run|] == s && all[|run| - 1] == run[|run| - 1];
    RunContiguous(run, k);
  }

  lemma {:induction false} RxAbsorbs(g: Gro, s: Frame)
    requires Ready(g) && s.m.Data? && Extends(g.flows[Slot(s.m.key)], s.m)
    ensures Rx(g, s) == g.(flows := g.flows[Slot(s.m.key) := Absorb(g.flows[Slot(s.m.key)], s)])
  {
    hide Absorb, Slot, FlushAt, HoldData, HoldAck, Located;
  }

  lemma {:induction false} NextHeld(g: Gro, run: seq<Frame>, s: Frame, k: FlowKey)
    requires HoldsOnly(g, run, k) && Run(run + [s], k)
    ensures HoldsOnly(Rx(g, s), run + [s], k)
  {
    var c := g.flows[Slot(k)];
    hide Holds, Run, Slot, Absorb, Rx, Located;
    NextExtends(c, run, s, k);
    AbsorbHolds(c, run, s);
    RxAbsorbs(g, s);
    hide Extends;
    assert Absorb(c, s).key == k by { AbsorbKey(c, s); }
  }

  lemma {:induction false} AbsorbKey(c: Ctx, s: Frame)
    requires c.Held? && Shape(c) && !c.isAck && s.m.Data?
    ensures Absorb(c, s).key == c.key
  {
  }

  /** A burst of consecutive data frames is gathered into one context, whatever their lengths. */
  lemma {:induction false} BurstHeld(run: seq<Frame>, k: FlowKey)
    requires Run(run, k)
    ensures HoldsOnly(Exec(Burst(run)), run, k)
    decreases |run|
  {
    hide HoldsOnly, Rx;
    var n := |run| - 1;
    var pre, s := run[..n], run[n];
    assert run == pre + [s] && Burst(run)[..n] == Burst(pre);
    if n == 0 {
      FirstHeld(s);
    } else {
      BurstHeld(pre, k);
      NextHeld(Exec(Burst(pre)), pre, s, k);
    }
  }

  lemma {:induction false} OnlyFlushed(g: Gro, i: nat, s: nat)
    requires Ready(g) && i <= FLOWS && s < FLOWS && g.flows[s].Held?
    requires forall j :: 0 <= j < FLOWS && j != s ==> g.flows[j].Idle?
    ensures FlushFrom(g, i).out == if i <= s then g.out + [FlushPacket(g.flows[s])] else g.out
    decreases FLOWS - i
  {
    hide FlushPacket;
    if i < s {
      OnlyFlushed(g, i + 1, s);
    } else if i == s {
      AllIdle(FlushAt(g, s), s + 1);
    } else {
      if i < FLOWS {
        OnlyFlushed(g, i + 1, s);
      }
    }
  }

  lemma {:induction false} AllIdle(g: Gro, i: nat)
    requires Ready(g) && i <= FLOWS && forall j :: 0 <= j < FLOWS ==> g.flows[j].Idle?
    ensures FlushFrom(g, i) == g
    decreases FLOWS - i
  {
    if i < FLOWS {
      AllIdle(g, i + 1);
    }
  }

  /**
   Exactly when merging is sound, over runs and for every frame length: a burst
   of consecutive frames and the flush that follows deliver one packet with all
   their bytes. It is a well-formed merge, and its IP length the true one, iff
   that packet fits 16 bits; otherwise it is neither an arrival nor a merge.
   */
  lemma {:induction false} BurstExact(run: seq<Frame>, k: FlowKey)
    requires Run(run, k) && |run| > 1
    ensures |Exec(Burst(run) + [FlushAll]).out| == 1
    ensures var p := Exec(Burst(run) + [FlushAll]).out[0];
      && |p| == |run| && |Flat(p)| == RunTotal(run)
      && (Merged(p, run, k) <==> RunTotal(run) < 0x1_0000)
      && (Delivered(p, run) <==> RunTotal(run) < 0x1_0000)
      && (IpLen(p[0].data, L3(run[0])) == HLEN + |RunBytes(run)| <==> HLEN + |RunBytes(run)| < 0x1_0000)
  {
    hide FlushPacket, Merged, Flat, RunBytes, IpLen, FlushFrom, HeadOf, Slot, Delivered;
    var g, evs := Exec(Burst(run)), Burst(run) + [FlushAll];
    assert evs[..|run|] == Burst(run);
    BurstHeld(run, k);
    var c := g.flows[Slot(k)];
    FlushMerged(c, run);
    OnlyFlushed(g, 0, Slot(k));
    assert Exec(evs).out == [FlushPacket(c)];
    hide Exec, Holds;
    BurstDelivered(FlushPacket(c), run, k);
  }

  lemma {:induction false} BurstDelivered(p: Packet, run: seq<Frame>, k: FlowKey)
    requires Run(run, k) && |p| == |run| > 1 && |Flat(p)| == RunTotal(run)
    requires Merged(p, run, k) <==> RunTotal(run) < 0x1_0000
    ensures Delivered(p, run) <==> RunTotal(run) < 0x1_0000
  {
    hide RunBytes, Merged, Flat;
    if Merged(p, run, k) {
      AllOfFlow(run, k);
      assert StretchAt(run, FlowFrames(run, k), 0);
      assert MergeOf(p, run, k, run);
    }
    if Delivered(p, run) {
      var r: seq<Frame>, k' :| MergeOf(p, r, k', run);
      MergedFits(p, r, k');
    }
  }

  lemma {:induction false} AllOfFlow(run: seq<Frame>, k: FlowKey)
    requires AllData(run) && forall i :: 0 <= i < |run| ==> run[i].m.key == k
    ensures FlowFrames(run, k) == run
    decreases |run|
  {
    if run != [] {
      var n := |run| - 1;
      AllOfFlow(run[..n], k);
      assert run == run[..n] + [run[n]];
    }
  }

  // ---- a jumbo burst ----

  const JUMBO_MTU := 9000
  const JUMBO_PAYLOAD := JUMBO_MTU - HLEN

  /** Ethernet, IPv4 and TCP headers of a full frame at MTU 9000 with sequence number q. */
  function JumboHeader(q: u32): (h: Bytes)
    ensures |h| == ETH_HLEN + HLEN
  {
    JUMBO_LINK + JUMBO_IP + JumboTcp(q)
  }

  const JUMBO_LINK: Bytes := [0, 0, 0, 0, 0, 0, 0, 0, 0, 0, 0, 0, 8, 0]
  const JUMBO_IP: Bytes := [0x45, 0, 0x23, 0x28, 0, 0, 0, 0, 64, PROTO_TCP, 0, 0, 10, 0, 0, 1, 10, 0, 0, 2]

  function JumboTcp(q: u32): (h: Bytes)
    ensures |h| == TCP_HLEN
  {
    [0, 80, 4, 0, q / 0x100_0000, q / 0x1_0000 % 256, q / 256 % 256, q % 256, 0, 0, 0, 0, 0x50, TCP_ACK, 0, 0, 0, 0, 0, 0]
  }

  function JumboBytes(q: u32): Bytes { JumboHeader(q) + seq(JUMBO_PAYLOAD, _ => 0) }

  const JUMBO_KEY := FlowKey(0x0A00_0001, 0x0A00_0002, 0x0050_0400)

  /** Word by word, what the headers say. */
  ghost predicate JumboFields(f: Bytes, q: u32) {
    && L(f, 38) == q && W(f, 12) == ETHTYPE_IP && W(f, 16) == JUMBO_MTU && B(f, 14) == 0x45 && B(f, 23) == PROTO_TCP
    && L(f, 26) == 0x0A00_0001 && L(f, 30) == 0x0A00_0002 && L(f, 34) == 0x0050_0400
    && W(f, 20) == 0 && B(f, 46) == 0x50 && B(f, 47) == TCP_ACK
  }

  /** part lies in f from offset at on. */
  ghost predicate Holding(f: Bytes, at: nat, part: Bytes) { forall i :: 0 <= i < |part| ==> B(f, at + i) == part[i] }

  lemma {:induction false} LinkAndIp(f: Bytes)
    requires Holding(f, 0, JUMBO_LINK) && Holding(f, 14, JUMBO_IP)
    ensures W(f, 12) == ETHTYPE_IP && W(f, 16) == JUMBO_MTU && B(f, 14) == 0x45 && B(f, 23) == PROTO_TCP && W(f, 20) == 0
    ensures L(f, 26) == 0x0A00_0001 && L(f, 30) == 0x0A00_0002
  {
    var h, i := JUMBO_LINK, JUMBO_IP;
    hide B;
    assert B(f, 0 + 12) == h[12] && B(f, 0 + 13) == h[13];
    assert B(f, 14 + 0) == i[0] && B(f, 14 + 2) == i[2] && B(f, 14 + 3) == i[3] && B(f, 14 + 6) == i[6] && B(f, 14 + 7) == i[7];
    assert B(f, 14 + 9) == i[9];
    assert B(f, 14 + 12) == i[12] && B(f, 14 + 13) == i[13] && B(f, 14 + 14) == i[14] && B(f, 14 + 15) == i[15];
    assert B(f, 14 + 16) == i[16] && B(f, 14 + 17) == i[17] && B(f, 14 + 18) == i[18] && B(f, 14 + 19) == i[19];
  }

  lemma {:induction false} TcpPart(f: Bytes, q: u32)
    requires Holding(f, 34, JumboTcp(q))
    ensures L(f, 34) == 0x0050_0400 && L(f, 38) == q && B(f, 46) == 0x50 && B(f, 47) == TCP_ACK
  {
    var h := JumboTcp(q);
    hide B;
    assert B(f, 34 + 0) == h[0] && B(f, 34 + 1) == h[1] && B(f, 34 + 2) == h[2] && B(f, 34 + 3) == h[3];
    assert B(f, 34 + 4) == h[4] && B(f, 34 + 5) == h[5] && B(f, 34 + 6) == h[6] && B(f, 34 + 7) == h[7];
    assert B(f, 34 + 12) == h[12] && B(f, 34 + 13) == h[13];
  }

  lemma {:induction false} JumboHeads(f: Bytes, q: u32)
    requires |f| >= ETH_HLEN + HLEN && f[..ETH_HLEN + HLEN] == JumboHeader(q)
    ensures JumboFields(f, q)
  {
    var a, b, c := JUMBO_LINK, JUMBO_IP, JumboTcp(q);
    var h := a + b + c;
    assert forall i :: 0 <= i < |h| ==> f[i] == h[i];
    assert Holding(f, 0, a) && Holding(f, 14, b) && Holding(f, 34, c);
    hide Holding, JumboTcp, L, W, B;
    LinkAndIp(f);
    TcpPart(f, q);
  }

  lemma {:induction false} FieldsClass(f: Bytes, q: u32)
    requires JumboFields(f, q) && |f| == ETH_HLEN + JUMBO_MTU
    ensures Classify(f) == Data(JUMBO_KEY, q, ETH_HLEN + HLEN, JUMBO_PAYLOAD, TCP_ACK)
  {
    hide L, W, B;
  }

  lemma {:induction false} JumboClass(q: u32)
    ensures |JumboBytes(q)| == ETH_HLEN + JUMBO_MTU
    ensures Classify(JumboBytes(q)) == Data(JUMBO_KEY, q, ETH_HLEN + HLEN, JUMBO_PAYLOAD, TCP_ACK)
  {
    hide JumboHeader, Classify;
    var f := JumboBytes(q);
    assert f[..ETH_HLEN + HLEN] == JumboHeader(q);
    JumboHeads(f, q);
    FieldsClass(f, q);
  }

  function Jumbo(q: u32): (s: Frame)
    ensures Classified(s)
  {
    JumboClass(q);
    ClassifiedLocated(JumboBytes(q));
    Seg(JumboBytes(q), Classify(JumboBytes(q)))
  }

  function Jumbos(n: nat): (run: seq<Frame>)
    requires n <= MAX_FRAMES
    ensures |run| == n && forall i :: 0 <= i < n ==> run[i] == Jumbo(i * JUMBO_PAYLOAD)
  {
    seq(n, i requires 0 <= i < n => Jumbo(i * JUMBO_PAYLOAD))
  }

  lemma {:induction false} JumboMeta(q: u32)
    ensures Jumbo(q).m == Data(JUMBO_KEY, q, ETH_HLEN + HLEN, JUMBO_PAYLOAD, TCP_ACK)
  {
    hide Classify, JumboBytes;
    JumboClass(q);
  }

  ghost predicate JumboAt(run: seq<Frame>, i: nat) {
    i < |run| <= MAX_FRAMES && run[i].m == Data(JUMBO_KEY, i * JUMBO_PAYLOAD, ETH_HLEN + HLEN, JUMBO_PAYLOAD, TCP_ACK)
  }

  lemma {:induction false} JumbosAt(n: nat, i: nat)
    requires i < n <= MAX_FRAMES
    ensures JumboAt(Jumbos(n), i)
  {
    hide Jumbo, Located;
    JumboMeta(i * JUMBO_PAYLOAD);
  }

  ghost predicate Follows(s: Frame, t: Frame) {
    s.m.Data? && t.m.Data? && t.m.seqno == Add32(s.m.seqno, s.m.payLen)
  }

  lemma {:induction false} JumbosLinked(run: seq<Frame>, i: nat)
    requires JumboAt(run, i) && JumboAt(run, i + 1)
    ensures Follows(run[i], run[i + 1])
  {
    hide Located;
  }

  lemma {:induction false} JumboIsData(run: seq<Frame>, i: nat)
    requires JumboAt(run, i)
    ensures run[i].m.Data? && run[i].m.key == JUMBO_KEY && run[i].m.payLen == JUMBO_PAYLOAD
    ensures run[i].m.payOff == ETH_HLEN + HLEN
  {
    hide Located;
  }

  lemma {:induction false} JumbosFollow(n: nat, i: nat)
    requires 0 < i < n <= MAX_FRAMES
    ensures Follows(Jumbos(n)[i - 1], Jumbos(n)[i])
  {
    hide Follows, Jumbo, JumboAt, Located;
    JumbosAt(n, i - 1);
    JumbosAt(n, i);
    JumbosLinked(Jumbos(n), i - 1);
  }

  lemma {:induction false} RunByFollowing(run: seq<Frame>, k: FlowKey)
    requires 0 < |run| <= MAX_FRAMES && AllData(run) && (forall i :: 0 <= i < |run| ==> run[i].m.key == k)
    requires forall i :: 0 < i < |run| ==> Follows(run[i - 1], run[i])
    ensures Run(run, k)
  {
    hide Located, Add32;
  }

  lemma {:induction false} JumbosRun(n: nat)
    requires 0 < n <= MAX_FRAMES
    ensures Run(Jumbos(n), JUMBO_KEY) && RunTotal(Jumbos(n)) == ETH_HLEN + HLEN + n * JUMBO_PAYLOAD
  {
    var run := Jumbos(n);
    hide Jumbos, Jumbo, RunBytes, Located, JumboAt, Follows;
    forall i | 0 <= i < n
      ensures run[i].m.Data? && run[i].m.key == JUMBO_KEY && run[i].m.payLen == JUMBO_PAYLOAD
      ensures run[i].m.payOff == ETH_HLEN + HLEN
    {
      JumbosAt(n, i);
      JumboIsData(run, i);
    }
    forall i | 0 < i < n ensures Follows(run[i - 1], run[i]) {
      JumbosFollow(n, i);
    }
    RunByFollowing(run, JUMBO_KEY);
    hide Run;
    JumbosBytes(run);
  }

  lemma {:induction false} JumbosBytes(run: seq<Frame>)
    requires AllData(run) && forall i :: 0 <= i < |run| ==> run[i].m.payLen == JUMBO_PAYLOAD
    ensures |RunBytes(run)| == |run| * JUMBO_PAYLOAD
    decreases |run|
  {
    hide Located;
    if run != [] {
      var n := |run| - 1;
      PayloadLength(run[n]);
      JumbosBytes(run[..n]);
    }
  }

  /**
   The failing family at MTU 9000: n full frames in sequence, each well formed,
   come out as one well-formed packet iff n <= 7. From 8 on the delivered IP
   length is short by a multiple of 65536.
   */
  lemma {:induction false} JumboBurst(n: nat)
    requires 2 <= n <= MAX_FRAMES
    ensures |Exec(Burst(Jumbos(n)) + [FlushAll]).out| == 1
    ensures var p := Exec(Burst(Jumbos(n)) + [FlushAll]).out[0];
      && |Flat(p)| == ETH_HLEN + HLEN + n * JUMBO_PAYLOAD
      && (Delivered(p, Jumbos(n)) <==> n <= 7)
      && (IpLen(p[0].data, ETH_HLEN) == HLEN + n * JUMBO_PAYLOAD <==> n <= 7)
  {
    hide Exec, Burst, Flat, Delivered, IpLen, Merged, RunBytes, Jumbo, Located;
    JumbosRun(n);
    BurstExact(Jumbos(n), JUMBO_KEY);
    JumboMeta(0);
    assert Jumbos(n)[0] == Jumbo(0);
    hide *;
  }
}
