/**
 GRO-lite receive merging (port/amiga/rx_gro.c): in-order TCP data frames of a
 flow are spliced into one packet, pure ACKs are coalesced to the freshest.

 Gro and the functions over it describe one dispatch step on values; class
 Engine runs the same steps in place. Meaning is given by Items: what a packet
 says to its flow, computed from its bytes alone.
 */
module RxGro {
  import opened Words
  import opened TcpFrame

  const FLOWS := 4
  const MAX_FRAMES := 44

  datatype Pbuf = Pbuf(data: Bytes, totLen: u16)
  type Packet = seq<Pbuf>

  function Flat(p: Packet): Bytes {
    if p == [] then [] else p[0].data + Flat(p[1..])
  }

  /** A received frame with its classification, as the pre-lock pass pairs them. */
  datatype Seg = Seg(f: Bytes, m: Meta)

  /** 16-bit length, and for a data segment a payload that ends the frame. */
  predicate Located(s: Seg) {
    && |s.f| < 0x1_0000
    && (s.m.Data? ==>
          && HLEN < s.m.payOff < |s.f| && s.m.payOff <= ETH_HLEN + VLAN_HLEN + HLEN && s.m.payLen == |s.f| - s.m.payOff
          && Ihl(s.f, s.m.payOff - HLEN) == IP_HLEN && IpLen(s.f, s.m.payOff - HLEN) == HLEN + s.m.payLen
          && Flags(s.f, s.m.payOff - TCP_HLEN) == s.m.flags && s.m.flags in {TCP_ACK, TCP_ACK + TCP_PSH})
  }

  type Frame = s: Seg | Located(s) witness Seg([], NotTcp)

  function Single(s: Frame): Packet { [Pbuf(s.f, |s.f|)] }

  /** a strictly newer than b in TCP sequence space (section 3.4 of RFC 9293). */
  predicate SeqGt(a: u32, b: u32) { Sub32(b, a) >= 0x8000_0000 }

  /** Direct-mapped context index: the low two bits of ports ^ source address. */
  function Slot(k: FlowKey): (s: nat)
    ensures s < FLOWS
  {
    (k.ports + k.src) % 2 + 2 * ((k.ports / 2 + k.src / 2) % 2)
  }

  /** Bit by bit: the exclusive or of the two low bits of ports and source address. */
  lemma {:induction false} SlotBits(k: FlowKey)
    ensures Slot(k) % 2 == 1 <==> (k.ports % 2 == 1) != (k.src % 2 == 1)
    ensures Slot(k) / 2 == 1 <==> (k.ports / 2 % 2 == 1) != (k.src / 2 % 2 == 1)
  {
    var a: int, b: int := k.ports, k.src;
    var lo, hi := (a + b) % 2, (a / 2 + b / 2) % 2;
    assert Slot(k) == lo + 2 * hi;
  }

  /** A merge context; mark is the next sequence number, or the held ackno. */
  datatype Ctx =
    | Idle
    | Held(chain: Packet, l3: nat, key: FlowKey, mark: u32, payloadAdd: nat, frames: nat, isAck: bool)

  predicate Shape(c: Ctx) {
    c.Held? ==>
      && c.chain != [] && c.frames == |c.chain|
      && (c.isAck ==> c.frames == 1)
      && (!c.isAck ==> c.l3 + HLEN <= |c.chain[0].data|)
  }

  datatype Gro = Gro(flows: seq<Ctx>, out: seq<Packet>)

  predicate Ready(g: Gro) { |g.flows| == FLOWS && forall s :: 0 <= s < FLOWS ==> Shape(g.flows[s]) }

  const START := Gro([Idle, Idle, Idle, Idle], [])

  // ---- flush ----

  function FixTotals(chain: Packet, remaining: u32): (r: Packet)
    ensures |r| == |chain|
    ensures forall i :: 0 <= i < |chain| ==> r[i].data == chain[i].data
  {
    if chain == [] then [] else
    [chain[0].(totLen := remaining % 0x1_0000)]
    + FixTotals(chain[1..], Sub32(remaining, |chain[0].data| % M32))
  }

  /** IP length and header checksum after add payload bytes were appended. */
  function PatchLen(head: Bytes, l3: nat, add: nat): (r: Bytes)
    requires l3 + HLEN <= |head|
    ensures |r| == |head|
  {
    var oldLen := IpLen(head, l3);
    var newLen := (oldLen + add) % 0x1_0000;
    Put16(Put16(head, l3 + 2, newLen), l3 + 10, Patch(IpChk(head, l3), oldLen, newLen))
  }

  function FlushPacket(c: Ctx): (p: Packet)
    requires c.Held? && Shape(c)
    ensures |p| == |c.chain|
  {
    if c.frames > 1 then
      var fixed := FixTotals(c.chain, (|c.chain[0].data| + c.payloadAdd) % M32);
      fixed[0 := fixed[0].(data := PatchLen(fixed[0].data, c.l3, c.payloadAdd))]
    else c.chain
  }

  function FlushAt(g: Gro, s: nat): (r: Gro)
    requires Ready(g) && s < FLOWS
    ensures Ready(r) && r.flows == g.flows[s := Idle]
  {
    if g.flows[s].Idle? then g else Gro(g.flows[s := Idle], g.out + [FlushPacket(g.flows[s])])
  }

  function FlushFrom(g: Gro, s: nat): (r: Gro)
    requires Ready(g) && s <= FLOWS
    ensures Ready(r)
    decreases FLOWS - s
  {
    if s == FLOWS then g else FlushFrom(FlushAt(g, s), s + 1)
  }

  // ---- dispatch ----

  predicate SameFlow(c: Ctx, k: FlowKey) { c.Held? && c.key == k }

  /** The head's header takes the newest ackno and window and the PSH of f. */
  function Refresh(head: Bytes, hth: nat, f: Bytes, th: nat, psh: bool): (r: Bytes)
    requires hth + TCP_HLEN <= |head| && th + TCP_HLEN <= |f|
    ensures |r| == |head|
  {
    var acked := Put(Put(head, hth + 8, f[th + 8..th + 12]), hth + 14, f[th + 14..th + 16]);
    if psh then SetPsh(acked, hth) else acked
  }

  predicate Psh(s: Seg) { s.m.Data? && s.m.flags != TCP_ACK }

  function Payload(s: Frame): Bytes
    requires s.m.Data?
  {
    s.f[s.m.payOff..]
  }

  function Absorb(c: Ctx, s: Frame): (r: Ctx)
    requires c.Held? && Shape(c) && !c.isAck && s.m.Data?
    ensures Shape(r) && r.Held?
  {
    var head := c.chain[0];
    var patched := head.(data := Refresh(head.data, c.l3 + IP_HLEN, s.f, s.m.payOff - TCP_HLEN, Psh(s)));
    c.(chain := c.chain[0 := patched] + [Pbuf(Payload(s), s.m.payLen)],
       mark := Add32(c.mark, s.m.payLen), payloadAdd := c.payloadAdd + s.m.payLen, frames := c.frames + 1)
  }

  function HoldAck(s: Frame): Ctx
    requires s.m.PureAck?
  {
    Held(Single(s), 0, s.m.key, s.m.ackno, 0, 1, true)
  }

  function HoldData(s: Frame): Ctx
    requires s.m.Data?
  {
    Held(Single(s), s.m.payOff - HLEN, s.m.key, Add32(s.m.seqno, s.m.payLen), 0, 1, false)
  }

  predicate Supersedes(c: Ctx, m: Meta) { m.PureAck? && SameFlow(c, m.key) && c.isAck && SeqGt(m.ackno, c.mark) }

  predicate Extends(c: Ctx, m: Meta) {
    m.Data? && SameFlow(c, m.key) && !c.isAck && m.seqno == c.mark && c.frames < MAX_FRAMES
  }

  function Rx(g: Gro, s: Frame): (r: Gro)
    requires Ready(g)
    ensures Ready(r)
  {
    var m := s.m;
    if m.NotTcp? then g.(out := g.out + [Single(s)]) else
    var i := Slot(m.key);
    var c := g.flows[i];
    if m.NoMerge? then
      var r := if SameFlow(c, m.key) then FlushAt(g, i) else g;
      r.(out := r.out + [Single(s)])
    else if Supersedes(c, m) then g.(flows := g.flows[i := c.(chain := Single(s), mark := m.ackno)])
    else if Extends(c, m) then g.(flows := g.flows[i := Absorb(c, s)])
    else
      var r := FlushAt(g, i);
      r.(flows := r.flows[i := if m.PureAck? then HoldAck(s) else HoldData(s)])
  }

  // ---- the engine, in place ----

  /** Restore the chain's tot_len fields, deferred while frames were linked. */
  method RestoreTotals(chain: Packet, total: u32) returns (r: Packet)
    ensures r == FixTotals(chain, total)
  {
    r := chain;
    var remaining := total;
    ghost var goal := FixTotals(chain, total);
    for q := 0 to |chain|
      invariant |r| == |chain| && r[..q] == goal[..q] && r[q..] == chain[q..]
      invariant FixTotals(chain[q..], remaining) == goal[q..]
    {
      assert chain[q..][1..] == chain[q + 1..] && goal[q..][1..] == goal[q + 1..];
      assert r[q] == chain[q] && goal[q..][0] == goal[q];
      r := r[q := r[q].(totLen := remaining % 0x1_0000)];
      remaining := Sub32(remaining, |r[q].data| % M32);
    }
  }

  /** Patch the head's IP length and, incrementally, its header checksum. */
  method PatchLength(head: Bytes, l3: nat, add: nat) returns (r: Bytes)
    requires l3 + HLEN <= |head|
    ensures r == PatchLen(head, l3, add)
  {
    hide Put16, IpLen, IpChk;
    var oldLen := IpLen(head, l3);
    var newLen := (oldLen + add) % 0x1_0000;
    var sum := FoldCarries((0xFFFF - IpChk(head, l3)) + (0xFFFF - oldLen) + newLen);
    r := Put16(head, l3 + 2, newLen);
    r := Put16(r, l3 + 10, 0xFFFF - sum);
  }

  class Engine {
    const flows: array<Ctx>
    var delivered: seq<Packet>

    ghost predicate Valid() reads this, flows { flows.Length == FLOWS && Ready(View()) }

    ghost function View(): Gro reads this, flows { Gro(flows[..], delivered) }

    constructor ()
      ensures Valid() && fresh(flows) && View() == START
    {
      flows := new Ctx[FLOWS](_ => Idle);
      delivered := [];
    }

    method Flush(s: nat)
      requires Valid() && s < FLOWS
      modifies this, flows
      ensures Valid() && View() == old(FlushAt(View(), s))
    {
      hide PatchLen, FixTotals;
      var c := flows[s];
      if c.Idle? {
        return;
      }
      flows[s] := Idle;
      assert flows[..] == old(flows[..])[s := Idle];
      var chain := c.chain;
      if c.frames > 1 {
        chain := RestoreTotals(c.chain, (|chain[0].data| + c.payloadAdd) % M32);
        var head := PatchLength(chain[0].data, c.l3, c.payloadAdd);
        chain := chain[0 := chain[0].(data := head)];
      }
      delivered := delivered + [chain];
    }

    method FlushAll()
      requires Valid()
      modifies this, flows
      ensures Valid() && View() == old(FlushFrom(View(), 0))
    {
      for s := 0 to FLOWS
        invariant Valid() && FlushFrom(View(), s) == old(FlushFrom(View(), 0))
      {
        Flush(s);
      }
    }

    method Input(s: Frame)
      requires Valid()
      modifies this, flows
      ensures Valid() && View() == old(Rx(View(), s))
    {
      var m := s.m;
      if m.NotTcp? {
        delivered := delivered + [Single(s)];
        return;
      }
      var i := Slot(m.key);
      var c := flows[i];
      var same := SameFlow(c, m.key);
      if m.NoMerge? {
        if same {
          Flush(i);
        }
        delivered := delivered + [Single(s)];
        return;
      }
      if m.PureAck? {
        if same && c.isAck && SeqGt(m.ackno, c.mark) {
          flows[i] := c.(chain := Single(s), mark := m.ackno);
          return;
        }
        Flush(i);
        flows[i] := HoldAck(s);
        return;
      }
      if same && !c.isAck && m.seqno == c.mark && c.frames < MAX_FRAMES {
        flows[i] := Absorb(c, s);
        return;
      }
      Flush(i);
      flows[i] := HoldData(s);
    }
  }
}
