/**
 Every delivered packet is an untouched frame or a well-formed merge of a run
 of consecutive frames of one flow.
 */
module RxGroPackets {
  import opened Words
  import opened TcpFrame
  import opened RxGro

  function L3(s: Frame): nat
    requires s.m.Data?
  {
    s.m.payOff - HLEN
  }

  predicate AllData(run: seq<Frame>) { forall i :: 0 <= i < |run| ==> run[i].m.Data? }

  predicate AnyPsh(run: seq<Frame>) { exists i :: 0 <= i < |run| && Psh(run[i]) }

  /** Consecutive data frames of flow k. */
  ghost predicate Run(run: seq<Frame>, k: FlowKey) {
    && 0 < |run| <= MAX_FRAMES
    && AllData(run)
    && (forall i :: 0 <= i < |run| ==> run[i].m.key == k)
    && forall i :: 0 < i < |run| ==>
         run[i].m.seqno == Add32(run[i - 1].m.seqno, run[i - 1].m.payLen)
  }

  function RunBytes(run: seq<Frame>): Bytes
    requires AllData(run)
  {
    if run == [] then [] else RunBytes(run[..|run| - 1]) + Payload(run[|run| - 1])
  }

  /** Largest IP length for which a full run still fits the 16-bit length field. */
  const MAX_IP := 1528

  /** IP length at most MAX_IP, as an MTU of up to 1500 guarantees. */
  predicate Small(s: Frame) { s.m.Data? ==> HLEN + s.m.payLen <= MAX_IP }

  predicate AllSmall(run: seq<Frame>) { forall i :: 0 <= i < |run| ==> Small(run[i]) }

  /** Bytes of the merged packet, link header included. */
  function RunTotal(run: seq<Frame>): nat
    requires run != [] && AllData(run)
  {
    run[0].m.payOff + |RunBytes(run)|
  }

  /**
   head is first (IP header at l3) with its acknowledgement and window taken
   from last (IP header at ll) and add added to the flag byte.
   */
  ghost predicate Fields(head: Bytes, first: Bytes, l3: nat, last: Bytes, ll: nat, add: nat) {
    && |head| == |first| && l3 + HLEN <= |first|
    && SameHeader(first, head, l3)
    && head[l3 + HLEN..] == first[l3 + HLEN..]
    && L(head, l3 + 28) == L(last, ll + 28)
    && W(head, l3 + 34) == W(last, ll + 34)
    && B(head, l3 + 33) == B(first, l3 + 33) + add
  }

  function PshAdd(any: bool, first: bool): nat { if any && !first then TCP_PSH else 0 }

  /** What a merge may change in the head's headers, and to what. */
  ghost predicate HeadOf(head: Bytes, first: Frame, last: Frame, anyPsh: bool)
    requires first.m.Data? && last.m.Data?
  {
    Fields(head, first.f, L3(first), last.f, L3(last), PshAdd(anyPsh, Psh(first)))
  }

  /** A packet that says what its run said, in one well-formed piece. */
  ghost predicate Merged(p: Packet, run: seq<Frame>, k: FlowKey) {
    && Run(run, k) && |p| == |run|
    && HeadOf(p[0].data, run[0], run[|run| - 1], AnyPsh(run))
    && (forall i :: 0 <= i < |p| ==> p[i].totLen == |Flat(p[i..])|)
    && IpLen(p[0].data, L3(run[0])) == HLEN + |RunBytes(run)|
    && Flat(p) == p[0].data[..run[0].m.payOff] + RunBytes(run)
    && (Verifies(IpSum(p[0].data, L3(run[0]))) <==> Verifies(IpSum(run[0].f, L3(run[0]))))
  }

  /** A context holding a data run, before the deferred fix-ups of the flush. */
  ghost predicate Holds(c: Ctx, run: seq<Frame>) {
    && c.Held? && Shape(c) && !c.isAck
    && Run(run, c.key) && |run| == |c.chain|
    && c.l3 == L3(run[0])
    && HeadOf(c.chain[0].data, run[0], run[|run| - 1], AnyPsh(run))
    && IpLen(c.chain[0].data, c.l3) == IpLen(run[0].f, c.l3)
    && IpChk(c.chain[0].data, c.l3) == IpChk(run[0].f, c.l3)
    && (forall i :: 0 < i < |run| ==> c.chain[i].data == Payload(run[i]))
    && c.payloadAdd == |RunBytes(run)| - |Payload(run[0])|
    && c.mark == Add32(run[0].m.seqno, |RunBytes(run)|)
    && (|run| == 1 ==> c.chain == Single(run[0]))
  }

  // ---- run arithmetic ----

  lemma {:induction false} RunLength(run: seq<Frame>, most: nat)
    requires |run| > 0 && AllData(run)
    requires forall i :: 0 <= i < |run| ==> run[i].m.payLen <= most
    ensures |Payload(run[0])| <= |RunBytes(run)| <= |run| * most
    decreases |run|
  {
    var pre, last := run[..|run| - 1], run[|run| - 1];
    hide Located;
    assert |RunBytes(run)| == |RunBytes(pre)| + |Payload(last)|;
    assert |Payload(last)| == last.m.payLen by { PayloadLength(last); }
    if |run| > 1 {
      assert pre[0] == run[0];
      RunLength(pre, most);
      hide *;
      OneMore(|pre|, most);
    } else {
      assert RunBytes(pre) == [];
    }
  }

  lemma {:induction false} PayloadLength(s: Frame)
    requires s.m.Data?
    ensures |Payload(s)| == s.m.payLen
  {
  }

  lemma {:induction false} OneMore(n: nat, m: nat)
    ensures (n + 1) * m == n * m + m
  {
  }

  /** The 16-bit length ceiling: a run of up to MAX_FRAMES small frames always fits. */
  lemma {:induction false} RunFits(run: seq<Frame>, k: FlowKey)
    requires Run(run, k) && AllSmall(run)
    ensures RunTotal(run) < 0x1_0000
  {
    hide RunBytes;
    forall i | 0 <= i < |run| ensures run[i].m.payLen <= MAX_IP - HLEN {
      assert Small(run[i]);
    }
    RunLength(run, MAX_IP - HLEN);
    assert |run| * (MAX_IP - HLEN) <= MAX_FRAMES * (MAX_IP - HLEN);
  }

  /** Whatever the frames' lengths, a run stays far below 32 bits. */
  lemma {:induction false} RunBounded(run: seq<Frame>, k: FlowKey)
    requires Run(run, k)
    ensures |Payload(run[0])| <= |RunBytes(run)| && RunTotal(run) < M32
  {
    hide RunBytes;
    RunLength(run, 0x1_0000);
    assert |run| * 0x1_0000 <= MAX_FRAMES * 0x1_0000;
  }

  lemma {:induction false} RunContiguous(run: seq<Frame>, k: FlowKey)
    requires Run(run, k)
    ensures Add32(run[0].m.seqno, |RunBytes(run)|)
         == Add32(run[|run| - 1].m.seqno, run[|run| - 1].m.payLen)
    decreases |run|
  {
    var n := |run|;
    if n > 1 {
      var pre := run[..n - 1];
      RunContiguous(pre, k);
      assert pre[n - 2] == run[n - 2] && pre[0] == run[0];
      Add32Assoc(run[0].m.seqno, |RunBytes(pre)|, run[n - 1].m.payLen);
    } else {
      assert RunBytes(run[..0]) == [];
    }
  }

  lemma {:induction false} RunSnoc(run: seq<Frame>, s: Frame, k: FlowKey)
    requires Run(run, k) && |run| < MAX_FRAMES && s.m.Data? && s.m.key == k
    requires s.m.seqno == Add32(run[0].m.seqno, |RunBytes(run)|)
    ensures Run(run + [s], k) && RunBytes(run + [s]) == RunBytes(run) + Payload(s)
    ensures AnyPsh(run + [s]) <==> AnyPsh(run) || Psh(s)
  {
    RunContiguous(run, k);
    var run' := run + [s];
    assert run'[..|run|] == run && run'[|run|] == s;
    assert forall i :: 0 <= i < |run| ==> run'[i] == run[i];
    if AnyPsh(run) {
      var i :| 0 <= i < |run| && Psh(run[i]);
      assert Psh(run'[i]);
    }
  }

  // ---- holding, absorbing ----

  lemma {:induction false} HoldDataHolds(s: Frame)
    requires s.m.Data?
    ensures Holds(HoldData(s), [s])
  {
    assert [s][..0] == [];
    assert RunBytes([s]) == Payload(s);
    assert AnyPsh([s]) <==> Psh([s][0]);
  }

  ghost predicate Refreshed(r: Bytes, head: Bytes, l3: nat, f: Bytes, lf: nat, psh: bool) {
    && |r| == |head|
    && (forall j :: 0 <= j < |head| && !(28 <= j - l3 < 32) && !(33 <= j - l3 < 36) ==> B(r, j) == B(head, j))
    && L(r, l3 + 28) == L(f, lf + 28) && W(r, l3 + 34) == W(f, lf + 34)
    && B(r, l3 + 33) == B(head, l3 + 33) + if psh && B(head, l3 + 33) / 8 % 2 == 0 then TCP_PSH else 0
  }

  lemma {:induction false} RefreshEffect(head: Bytes, l3: nat, f: Bytes, lf: nat, psh: bool)
    requires l3 + HLEN <= |head| && lf + HLEN <= |f|
    ensures Refreshed(Refresh(head, l3 + IP_HLEN, f, lf + IP_HLEN, psh), head, l3, f, lf, psh)
  {
  }

  lemma {:induction false} RefreshFields(r: Bytes, head: Bytes, first: Bytes, l3: nat, last: Bytes, ll: nat, f: Bytes, lf: nat,
                      any: bool, p0: bool, psh: bool)
    requires Fields(head, first, l3, last, ll, PshAdd(any, p0)) && Refreshed(r, head, l3, f, lf, psh)
    requires B(first, l3 + 33) / 8 % 2 == if p0 then 1 else 0
    ensures Fields(r, first, l3, f, lf, PshAdd(any || psh, p0))
    ensures IpLen(r, l3) == IpLen(head, l3) && IpChk(r, l3) == IpChk(head, l3)
  {
    assert SameHeader(first, r, l3) by {
      forall j | 0 <= j < l3 + HLEN && Stable(j, l3) ensures B(r, j) == B(first, j) {
        assert B(head, j) == B(first, j);
      }
    }
    assert r[l3 + HLEN..] == head[l3 + HLEN..] by {
      forall j | l3 + HLEN <= j < |r| ensures r[j] == head[j] {
        assert B(r, j) == B(head, j);
      }
    }
    assert B(r, l3 + 2) == B(head, l3 + 2) && B(r, l3 + 3) == B(head, l3 + 3);
    assert B(r, l3 + 10) == B(head, l3 + 10) && B(r, l3 + 11) == B(head, l3 + 11);
    PshOnce(B(first, l3 + 33), B(head, l3 + 33), any, p0, psh);
  }

  lemma {:induction false} PshOnce(b0: byte, b: byte, any: bool, p0: bool, psh: bool)
    requires b0 / 8 % 2 == (if p0 then 1 else 0) && b == b0 + PshAdd(any, p0)
    ensures b + (if psh && b / 8 % 2 == 0 then TCP_PSH else 0) == b0 + PshAdd(any || psh, p0)
  {
  }

  lemma {:induction false} PshBit(s: Frame)
    requires s.m.Data?
    ensures B(s.f, L3(s) + 33) / 8 % 2 == if Psh(s) then 1 else 0
  {
    assert Flags(s.f, L3(s) + IP_HLEN) == s.m.flags;
  }

  lemma {:induction false} AbsorbHead(head: Bytes, first: Frame, last: Frame, any: bool, s: Frame)
    requires first.m.Data? && last.m.Data? && s.m.Data? && HeadOf(head, first, last, any)
    ensures var l3 := L3(first); var r := Refresh(head, l3 + IP_HLEN, s.f, L3(s) + IP_HLEN, Psh(s));
      HeadOf(r, first, s, any || Psh(s)) && IpLen(r, l3) == IpLen(head, l3) && IpChk(r, l3) == IpChk(head, l3)
  {
    hide Refresh;
    var l3 := L3(first);
    PshBit(first);
    RefreshEffect(head, l3, s.f, L3(s), Psh(s));
    var r := Refresh(head, l3 + IP_HLEN, s.f, L3(s) + IP_HLEN, Psh(s));
    RefreshFields(r, head, first.f, l3, last.f, L3(last), s.f, L3(s), any, Psh(first), Psh(s));
  }

  lemma {:induction false} AbsorbHolds(c: Ctx, run: seq<Frame>, s: Frame)
    requires Holds(c, run) && Extends(c, s.m)
    ensures Holds(Absorb(c, s), run + [s])
  {
    hide Refresh, HeadOf;
    RunSnoc(run, s, c.key);
    AbsorbHead(c.chain[0].data, run[0], run[|run| - 1], AnyPsh(run), s);
    Add32Assoc(run[0].m.seqno, |RunBytes(run)|, s.m.payLen);
  }

  // ---- flushing ----

  lemma {:induction false} FlatSnoc(p: Packet, q: Pbuf)
    ensures Flat(p + [q]) == Flat(p) + q.data
  {
    if p == [] {
      assert [q][1..] == [];
    } else {
      assert (p + [q])[1..] == p[1..] + [q];
      FlatSnoc(p[1..], q);
    }
  }

  lemma {:induction false} Assoc(a: Bytes, b: Bytes, c: Bytes)
    ensures (a + b) + c == a + (b + c)
  {
  }

  lemma {:induction false} RunBytesLast(run: seq<Frame>)
    requires run != [] && AllData(run)
    ensures RunBytes(run) == RunBytes(run[..|run| - 1]) + Payload(run[|run| - 1])
  {
  }

  /** The chain behind the head spells the payloads behind the first. */
  lemma {:induction false} FlatTail(chain: Packet, run: seq<Frame>)
    requires 0 < |chain| == |run| && AllData(run)
    requires forall i :: 0 < i < |run| ==> chain[i].data == Payload(run[i])
    ensures RunBytes(run) == Payload(run[0]) + Flat(chain[1..])
    decreases |run|
  {
    var n := |run| - 1;
    if n == 0 {
      assert run[..0] == [];
    } else {
      var init, last := chain[..n][1..], chain[n];
      FlatTail(chain[..n], run[..n]);
      FlatSnoc(init, last);
      assert chain[1..] == init + [last];
      RunBytesLast(run);
      hide RunBytes, Flat;
      Assoc(Payload(run[0]), Flat(init), Payload(run[n]));
    }
  }

  lemma {:induction false} TotalsExact(chain: Packet, total: nat, i: nat)
    requires total == |Flat(chain)| < 0x1_0000 && i < |chain|
    ensures FixTotals(chain, total)[i].totLen == |Flat(chain[i..])|
    decreases |chain|
  {
    var d := |chain[0].data|;
    assert |Flat(chain)| == d + |Flat(chain[1..])|;
    if i > 0 {
      assert Sub32(total, d % M32) == total - d;
      TotalsExact(chain[1..], total - d, i - 1);
      assert FixTotals(chain, total)[i] == FixTotals(chain[1..], total - d)[i - 1];
      assert chain[1..][i - 1..] == chain[i..];
    } else {
      assert chain[0..] == chain;
    }
  }

  lemma {:induction false} FlatSameData(p: Packet, q: Packet)
    requires |p| == |q| && forall i :: 0 <= i < |p| ==> p[i].data == q[i].data
    ensures Flat(p) == Flat(q)
  {
    if p != [] {
      FlatSameData(p[1..], q[1..]);
    }
  }

  /** Words of an IP header other than length and checksum. */
  function ConstSum(f: Bytes, l3: nat): nat {
    W(f, l3) + W(f, l3 + 4) + W(f, l3 + 6) + W(f, l3 + 8) + W(f, l3 + 12) + W(f, l3 + 14) + W(f, l3 + 16) + W(f, l3 + 18)
  }

  lemma {:induction false} SameConstSum(f: Bytes, g: Bytes, l3: nat)
    requires SameHeader(f, g, l3)
    ensures ConstSum(g, l3) == ConstSum(f, l3)
  {
    SameWord(f, g, l3, l3);
    SameWord(f, g, l3, l3 + 4);
    SameWord(f, g, l3, l3 + 6);
    SameWord(f, g, l3, l3 + 8);
    SameWord(f, g, l3, l3 + 12);
    SameWord(f, g, l3, l3 + 14);
    SameWord(f, g, l3, l3 + 16);
    SameWord(f, g, l3, l3 + 18);
  }

  ghost predicate LenPatched(r: Bytes, head: Bytes, l3: nat, add: nat) {
    && |r| == |head|
    && (forall j :: 0 <= j < |head| && !(2 <= j - l3 < 4) && !(10 <= j - l3 < 12) ==> B(r, j) == B(head, j))
    && IpLen(r, l3) == (IpLen(head, l3) + add) % 0x1_0000
    && IpChk(r, l3) == Patch(IpChk(head, l3), IpLen(head, l3), IpLen(r, l3))
  }

  lemma {:induction false} PatchLenEffect(head: Bytes, l3: nat, add: nat)
    requires l3 + HLEN <= |head|
    ensures LenPatched(PatchLen(head, l3, add), head, l3, add)
  {
    hide Patch;
    var r := PatchLen(head, l3, add);
    assert B(r, l3 + 2) == (IpLen(head, l3) + add) % 0x1_0000 / 256;
  }

  lemma {:induction false} PatchLenFields(r: Bytes, head: Bytes, first: Bytes, l3: nat, last: Bytes, ll: nat, psh: nat, add: nat)
    requires Fields(head, first, l3, last, ll, psh) && LenPatched(r, head, l3, add)
    ensures Fields(r, first, l3, last, ll, psh)
  {
    hide Patch;
    assert SameHeader(first, r, l3) by {
      forall j | 0 <= j < l3 + HLEN && Stable(j, l3) ensures B(r, j) == B(first, j) {
        assert B(head, j) == B(first, j);
      }
    }
    assert r[l3 + HLEN..] == head[l3 + HLEN..] by {
      forall j | l3 + HLEN <= j < |r| ensures r[j] == head[j] {
        assert B(r, j) == B(head, j);
      }
    }
    forall j | l3 + 28 <= j < l3 + HLEN ensures B(r, j) == B(head, j) {
    }
    assert L(r, l3 + 28) == L(head, l3 + 28) && W(r, l3 + 34) == W(head, l3 + 34);
  }

  lemma {:induction false} PatchLenVerifies(r: Bytes, head: Bytes, first: Bytes, l3: nat, add: nat)
    requires SameHeader(first, head, l3) && SameHeader(first, r, l3) && LenPatched(r, head, l3, add)
    requires IpLen(head, l3) == IpLen(first, l3) && IpChk(head, l3) == IpChk(first, l3) && Ihl(first, l3) == IP_HLEN
    ensures Verifies(IpSum(r, l3)) <==> Verifies(IpSum(first, l3))
  {
    hide Patch, Verifies;
    SameConstSum(first, r, l3);
    assert IpSum(r, l3) == ConstSum(first, l3) + IpLen(r, l3) + IpChk(r, l3);
    assert IpSum(first, l3) == ConstSum(first, l3) + IpLen(first, l3) + IpChk(first, l3);
    assert W(first, l3) > 0;
    PatchVerifies(ConstSum(first, l3), IpChk(first, l3), IpLen(first, l3), IpLen(r, l3));
  }

  /** The chain's bytes are the head frame and the appended payloads. */
  lemma {:induction false} FlushTotal(c: Ctx, run: seq<Frame>)
    requires Holds(c, run)
    ensures |c.chain[0].data| + c.payloadAdd == |Flat(c.chain)| == RunTotal(run) < M32
    ensures RunBytes(run) == Payload(run[0]) + Flat(c.chain[1..]) && |c.chain[0].data| == |run[0].f|
  {
    assert |c.chain[0].data| == |run[0].f|;
    hide HeadOf, RunBytes;
    FlatTail(c.chain, run);
    RunBounded(run, c.key);
    assert Flat(c.chain) == c.chain[0].data + Flat(c.chain[1..]);
    hide Flat;
  }

  lemma {:induction false} FlushTotals(chain: Packet, p: Packet, total: nat, i: nat)
    requires total == |Flat(chain)| < 0x1_0000 && |p| == |chain| && i < |p|
    requires forall j :: 0 <= j < |p| ==> |p[j].data| == |chain[j].data| && p[j].totLen == FixTotals(chain, total)[j].totLen
    ensures p[i].totLen == |Flat(p[i..])|
  {
    hide FixTotals, Flat;
    TotalsExact(chain, total, i);
    FlatSameLength(p[i..], chain[i..]);
  }

  lemma {:induction false} FlatSameLength(p: Packet, q: Packet)
    requires |p| == |q| && forall i :: 0 <= i < |p| ==> |p[i].data| == |q[i].data|
    ensures |Flat(p)| == |Flat(q)|
  {
    if p != [] {
      FlatSameLength(p[1..], q[1..]);
    }
  }

  lemma {:induction false} FlushBytes(c: Ctx, run: seq<Frame>)
    requires Holds(c, run) && |run| > 1
    ensures var p := FlushPacket(c);
      && p[0].data == PatchLen(c.chain[0].data, c.l3, c.payloadAdd)
      && run[0].m.payOff <= |p[0].data|
      && Flat(p) == p[0].data[..run[0].m.payOff] + RunBytes(run)
      && (RunTotal(run) < 0x1_0000 ==> forall i :: 0 <= i < |p| ==> p[i].totLen == |Flat(p[i..])|)
  {
    hide HeadOf, RunBytes, Flat, FixTotals, PatchLen;
    FlushTotal(c, run);
    FlushEffect(c);
    PatchLenTail(c.chain[0].data, c.l3, c.payloadAdd);
    FieldsTail(c, run);
    var p := FlushPacket(c);
    hide *;
    FlushSpells(p, c.chain, run[0].m.payOff, Payload(run[0]), RunBytes(run));
    if RunTotal(run) < 0x1_0000 {
      forall i | 0 <= i < |p| ensures p[i].totLen == |Flat(p[i..])| {
        FlushTotals(c.chain, p, |Flat(c.chain)|, i);
      }
    }
  }

  lemma {:induction false} FieldsTail(c: Ctx, run: seq<Frame>)
    requires Holds(c, run)
    ensures run[0].m.payOff <= |c.chain[0].data| && c.chain[0].data[run[0].m.payOff..] == Payload(run[0])
    ensures c.l3 + HLEN == run[0].m.payOff && c.l3 + HLEN <= |c.chain[0].data|
  {
    hide RunBytes, SameHeader;
  }

  lemma {:induction false} FlushSpells(p: Packet, chain: Packet, off: nat, first: Bytes, all: Bytes)
    requires 0 < |p| == |chain| && (forall i :: 0 < i < |p| ==> p[i].data == chain[i].data)
    requires off <= |p[0].data| && p[0].data[off..] == first && all == first + Flat(chain[1..])
    ensures Flat(p) == p[0].data[..off] + all
  {
    FlatSameData(p[1..], chain[1..]);
    assert p[0].data == p[0].data[..off] + first;
  }

  lemma {:induction false} FlushEffect(c: Ctx)
    requires c.Held? && Shape(c) && !c.isAck && c.frames > 1 && |c.chain[0].data| + c.payloadAdd < M32
    ensures var p, total := FlushPacket(c), |c.chain[0].data| + c.payloadAdd;
      && p[0].data == PatchLen(c.chain[0].data, c.l3, c.payloadAdd)
      && (forall i :: 0 < i < |p| ==> p[i].data == c.chain[i].data)
      && (forall i :: 0 <= i < |p| ==> |p[i].data| == |c.chain[i].data|)
      && (forall i :: 0 <= i < |p| ==> p[i].totLen == FixTotals(c.chain, total)[i].totLen)
  {
    hide PatchLen, FixTotals;
  }

  /** The length the flush writes is the run's IP length, cut to 16 bits. */
  lemma {:induction false} FlushLength(c: Ctx, run: seq<Frame>)
    requires Holds(c, run)
    ensures IpLen(PatchLen(c.chain[0].data, c.l3, c.payloadAdd), c.l3) == (HLEN + |RunBytes(run)|) % 0x1_0000
  {
    hide PatchLen, W, HeadOf, RunBytes;
    var head := c.chain[0].data;
    PatchLenEffect(head, c.l3, c.payloadAdd);
    assert IpLen(head, c.l3) == HLEN + |Payload(run[0])|;
  }

  lemma {:induction false} FlushHead(c: Ctx, run: seq<Frame>)
    requires Holds(c, run)
    ensures var r := PatchLen(c.chain[0].data, c.l3, c.payloadAdd);
      && HeadOf(r, run[0], run[|run| - 1], AnyPsh(run))
      && (Verifies(IpSum(r, c.l3)) <==> Verifies(IpSum(run[0].f, c.l3)))
  {
    hide PatchLen, Verifies, W, RunBytes, Patch;
    var head, first, last, l3 := c.chain[0].data, run[0], run[|run| - 1], c.l3;
    var r := PatchLen(head, l3, c.payloadAdd);
    PatchLenEffect(head, l3, c.payloadAdd);
    PatchLenFields(r, head, first.f, l3, last.f, L3(last), PshAdd(AnyPsh(run), Psh(first)), c.payloadAdd);
    PatchLenVerifies(r, head, first.f, l3, c.payloadAdd);
  }

  /** Exactly when a flush is sound: the packet is a well-formed merge iff it fits 16 bits. */
  lemma {:induction false} FlushMerged(c: Ctx, run: seq<Frame>)
    requires Holds(c, run) && |run| > 1
    ensures Merged(FlushPacket(c), run, c.key) <==> RunTotal(run) < 0x1_0000
    ensures |Flat(FlushPacket(c))| == RunTotal(run)
    ensures IpLen(FlushPacket(c)[0].data, c.l3) == HLEN + |RunBytes(run)| <==> HLEN + |RunBytes(run)| < 0x1_0000
  {
    hide PatchLen, FlushPacket, Verifies, W, Fields, HeadOf, IpSum, IpLen, Flat, RunBytes;
    var p := FlushPacket(c);
    FlushBytes(c, run);
    FlushLength(c, run);
    FlushHead(c, run);
    assert p[0..] == p;
    assert L3(run[0]) + HLEN == run[0].m.payOff;
  }

  lemma {:induction false} PatchLenTail(head: Bytes, l3: nat, add: nat)
    requires l3 + HLEN <= |head|
    ensures PatchLen(head, l3, add)[l3 + HLEN..] == head[l3 + HLEN..]
  {
  }

  /** A merge is never longer than its 16-bit total. */
  lemma {:induction false} MergedFits(p: Packet, run: seq<Frame>, k: FlowKey)
    requires Merged(p, run, k)
    ensures |Flat(p)| < 0x1_0000
  {
    hide RunBytes, HeadOf, Flat, IpLen;
    assert p[0..] == p;
  }

  /** The packet a context would flush fits its 16-bit total. */
  predicate CtxFits(c: Ctx) {
    Shape(c) && (c.Held? && !c.isAck ==> |c.chain[0].data| + c.payloadAdd < 0x1_0000)
  }

  lemma {:induction false} FitsIff(c: Ctx, run: seq<Frame>)
    requires Holds(c, run)
    ensures CtxFits(c) <==> RunTotal(run) < 0x1_0000
  {
    hide HeadOf, RunBytes, Flat;
    FlushTotal(c, run);
  }

  /** Classification locates every frame of 16-bit length. */
  lemma {:induction false} ClassifiedLocated(f: Bytes)
    requires |f| < 0x1_0000
    ensures Located(Seg(f, Classify(f)))
  {
    hide KeyOf;
  }
}
