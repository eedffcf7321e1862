/**
 IPv4/TCP fields of a received Ethernet frame and the receive-merge
 classification (port/amiga/include/inet_frame.h, rxgro_classify).

 A frame is its byte string; a field read past the end is zero.
 */
module TcpFrame {
  import opened Words

  type Bytes = seq<byte>

  function B(f: Bytes, i: nat): byte { if i < |f| then f[i] else 0 }
  function W(f: Bytes, i: nat): u16 { B(f, i) * 256 + B(f, i + 1) }
  function L(f: Bytes, i: nat): u32 { W(f, i) * 0x1_0000 + W(f, i + 2) }

  const ETH_HLEN := 14
  const VLAN_HLEN := 4
  const IP_HLEN := 20
  const TCP_HLEN := 20
  const HLEN := 40 // option-free IP plus TCP header
  const ETHTYPE_IP := 0x0800
  const ETHTYPE_VLAN := 0x8100
  const PROTO_TCP := 6
  const TCP_PSH := 0x08
  const TCP_ACK := 0x10

  /** Offset of the IPv4 header, 0 when the frame carries none. */
  function IpOffset(f: Bytes): (l3: nat)
    ensures l3 == 0 || (l3 in {14, 18} && l3 + IP_HLEN <= |f|)
  {
    if |f| < ETH_HLEN + IP_HLEN then 0
    else if W(f, 12) == ETHTYPE_IP then ETH_HLEN
    else if W(f, 12) == ETHTYPE_VLAN && |f| >= ETH_HLEN + VLAN_HLEN + IP_HLEN && W(f, 16) == ETHTYPE_IP then
      ETH_HLEN + VLAN_HLEN
    else 0
  }

  function Ihl(f: Bytes, l3: nat): nat { B(f, l3) % 16 * 4 }
  function IpLen(f: Bytes, l3: nat): u16 { W(f, l3 + 2) }
  function IpChk(f: Bytes, l3: nat): u16 { W(f, l3 + 10) }
  function Flags(f: Bytes, th: nat): nat { B(f, th + 13) % 64 }

  /** Sum of the ten words of an option-free IP header. */
  function IpSum(f: Bytes, l3: nat): nat {
    W(f, l3) + W(f, l3 + 2) + W(f, l3 + 4) + W(f, l3 + 6) + W(f, l3 + 8)
    + W(f, l3 + 10) + W(f, l3 + 12) + W(f, l3 + 14) + W(f, l3 + 16) + W(f, l3 + 18)
  }

  datatype FlowKey = FlowKey(src: u32, dst: u32, ports: u32)

  /** Classification verdict: not TCP, TCP but unmergeable, mergeable data, pure ACK. */
  datatype Meta =
    | NotTcp
    | NoMerge(key: FlowKey)
    | Data(key: FlowKey, seqno: u32, payOff: nat, payLen: nat, flags: nat)
    | PureAck(key: FlowKey, ackno: u32)

  function KeyOf(f: Bytes, l3: nat): FlowKey {
    FlowKey(L(f, l3 + 12), L(f, l3 + 16), L(f, l3 + Ihl(f, l3)))
  }

  /** Header shape shared by data segments and pure ACKs. */
  predicate PlainHeader(f: Bytes, l3: nat) {
    && Ihl(f, l3) == IP_HLEN
    && W(f, l3 + 6) % 0x4000 == 0
    && B(f, l3 + IP_HLEN + 12) / 16 * 4 == TCP_HLEN
    && Flags(f, l3 + IP_HLEN) in {TCP_ACK, TCP_ACK + TCP_PSH}
  }

  function Classify(f: Bytes): Meta {
    var l3 := IpOffset(f);
    if l3 == 0 || B(f, l3 + 9) != PROTO_TCP then NotTcp else
    var key := KeyOf(f, l3);
    var iplen, th := IpLen(f, l3), l3 + IP_HLEN;
    if !PlainHeader(f, l3) then NoMerge(key)
    else if iplen <= HLEN then
      if iplen == HLEN && Flags(f, th) == TCP_ACK then PureAck(key, L(f, th + 8)) else NoMerge(key)
    else if iplen != |f| - l3 then NoMerge(key)
    else Data(key, L(f, th + 4), l3 + HLEN, iplen - HLEN, Flags(f, th))
  }

  /**
   A data verdict is exactly: an IPv4/TCP frame, unfragmented, without IP or TCP
   options, with no flag but ACK and PSH and with ACK, whose IP length ends the
   frame and covers at least one payload byte. It locates that payload.
   */
  lemma {:induction false} DataShape(f: Bytes)
    ensures Classify(f).Data? <==>
      var l3 := IpOffset(f);
      && l3 != 0 && B(f, l3 + 9) == PROTO_TCP
      && Ihl(f, l3) == IP_HLEN && W(f, l3 + 6) % 0x4000 == 0
      && B(f, l3 + IP_HLEN + 12) / 16 * 4 == TCP_HLEN && Flags(f, l3 + IP_HLEN) in {TCP_ACK, TCP_ACK + TCP_PSH}
      && HLEN < IpLen(f, l3) == |f| - l3
    ensures Classify(f).Data? ==>
      var m := Classify(f); var l3 := m.payOff - HLEN;
      && l3 == IpOffset(f) && (l3 == 14 || l3 == 18)
      && 0 < m.payLen == |f| - m.payOff && IpLen(f, l3) == |f| - l3
      && m.key == KeyOf(f, l3) && m.seqno == L(f, l3 + IP_HLEN + 4) && m.flags == Flags(f, l3 + IP_HLEN)
  {
  }

  /** The four bytes at i as a number, most significant first. */
  function Quad(f: Bytes, i: nat): nat
    requires i + 4 <= |f|
  {
    Pair(f, i) * 0x1_0000 + Pair(f, i + 2)
  }

  function Pair(f: Bytes, i: nat): nat
    requires i + 2 <= |f|
  {
    var hi: int, lo: int := f[i], f[i + 1];
    hi * 256 + lo
  }

  /** Byte by byte: an untagged or once tagged Ethernet frame that carries an IPv4 header for TCP at l3. */
  predicate TcpAt(f: Bytes, l3: nat) {
    && (|| (l3 == 14 && |f| >= 34 && f[12] == 0x08 && f[13] == 0x00)
        || (l3 == 18 && |f| >= 38 && f[12] == 0x81 && f[13] == 0x00 && f[16] == 0x08 && f[17] == 0x00))
    && f[l3 + 9] == 6
  }

  /** Byte by byte: no IP options, no fragment, no TCP options, and no flag but ACK and PSH, with ACK. */
  predicate PlainAt(f: Bytes, l3: nat) {
    && |f| > l3 + 33
    && f[l3] % 16 == 5 && f[l3 + 6] % 64 == 0 && f[l3 + 7] == 0
    && f[l3 + 32] / 16 == 5 && (f[l3 + 33] % 64 == 0x10 || f[l3 + 33] % 64 == 0x18)
  }

  lemma {:induction false} OffsetBytes(f: Bytes)
    ensures IpOffset(f) != 0 && B(f, IpOffset(f) + 9) == PROTO_TCP <==> exists l3: nat :: TcpAt(f, l3)
    ensures forall l3: nat :: TcpAt(f, l3) ==> IpOffset(f) == l3
  {
    var l3 := IpOffset(f);
    assert W(f, 12) == ETHTYPE_IP <==> B(f, 12) == 8 && B(f, 13) == 0;
    assert W(f, 12) == ETHTYPE_VLAN <==> B(f, 12) == 0x81 && B(f, 13) == 0;
    assert W(f, 16) == ETHTYPE_IP <==> B(f, 16) == 8 && B(f, 17) == 0;
    assert l3 != 0 && B(f, l3 + 9) == PROTO_TCP ==> TcpAt(f, l3);
    hide W;
  }

  lemma {:induction false} PlainBytes(f: Bytes, l3: nat)
    ensures PlainHeader(f, l3) <==> PlainAt(f, l3)
  {
    var w: int := W(f, l3 + 6);
    assert w % 0x4000 == 0 <==> B(f, l3 + 6) % 64 == 0 && B(f, l3 + 7) == 0 by {
      FragmentBits(B(f, l3 + 6), B(f, l3 + 7));
    }
    hide W;
  }

  lemma {:induction false} FragmentBits(h: byte, l: byte)
    ensures (h * 256 + l) % 0x4000 == 0 <==> h % 64 == 0 && l == 0
  {
    assert h == h / 64 * 64 + h % 64;
    assert (h * 256 + l) % 0x4000 == h % 64 * 256 + l;
  }

  lemma {:induction false} QuadBytes(f: Bytes, i: nat)
    requires i + 4 <= |f|
    ensures L(f, i) == Quad(f, i)
  {
  }

  /**
   What a pure ACK is, byte by byte: a plain header of exactly 40 bytes flagged
   ACK alone, whatever padding follows; and its ackno is the four bytes at l3 + 28.
   */
  lemma {:induction false} AckShape(f: Bytes)
    ensures Classify(f).PureAck? <==>
      exists l3: nat :: TcpAt(f, l3) && PlainAt(f, l3) && f[l3 + 33] % 64 == 0x10 && f[l3 + 2] == 0 && f[l3 + 3] == 40
    ensures forall l3: nat :: TcpAt(f, l3) && Classify(f).PureAck? ==>
      |f| > l3 + 33 && Classify(f).ackno == Quad(f, l3 + 28)
  {
    var l3 := IpOffset(f);
    OffsetBytes(f);
    PlainBytes(f, l3);
    assert IpLen(f, l3) == HLEN <==> B(f, l3 + 2) == 0 && B(f, l3 + 3) == 40;
    if PlainAt(f, l3) {
      QuadBytes(f, l3 + 28);
    }
    hide W, L, Quad, KeyOf, IpOffset;
  }

  /**
   Every other verdict, byte by byte: not TCP exactly when no IPv4 header for TCP
   is found; and of what is TCP, data exactly when a plain header's length ends
   the frame past its 40 bytes. The rest is not to be merged.
   */
  lemma {:induction false} VerdictShape(f: Bytes)
    ensures Classify(f).NotTcp? <==> !exists l3: nat :: TcpAt(f, l3)
    ensures Classify(f).Data? <==>
      exists l3: nat :: TcpAt(f, l3) && PlainAt(f, l3) && 40 < Pair(f, l3 + 2) == |f| - l3
    ensures forall l3: nat :: TcpAt(f, l3) && Classify(f).Data? ==>
      var m := Classify(f);
      && |f| > l3 + 40 && m.payOff == l3 + 40 && m.payLen == |f| - l3 - 40
      && m.seqno == Quad(f, l3 + 24) && m.flags == f[l3 + 33] % 64
  {
    var l3 := IpOffset(f);
    OffsetBytes(f);
    PlainBytes(f, l3);
    assert TcpAt(f, l3) ==> IpLen(f, l3) == Pair(f, l3 + 2);
    if PlainAt(f, l3) {
      QuadBytes(f, l3 + 24);
    }
    hide W, L, Quad, KeyOf, IpOffset;
  }

  /** The flow of a segment with an option-free IP header: addresses and ports, byte by byte. */
  lemma {:induction false} FlowBytes(f: Bytes, l3: nat)
    requires TcpAt(f, l3) && |f| >= l3 + 24 && f[l3] % 16 == 5
    ensures !Classify(f).NotTcp? && Classify(f).key == FlowKey(Quad(f, l3 + 12), Quad(f, l3 + 16), Quad(f, l3 + 20))
  {
    OffsetBytes(f);
    QuadBytes(f, l3 + 12);
    QuadBytes(f, l3 + 16);
    QuadBytes(f, l3 + 20);
    hide W, L, Quad, IpOffset, PlainHeader;
  }

  // ---- writes into a header ----

  function Put(f: Bytes, i: nat, w: Bytes): (r: Bytes)
    requires i + |w| <= |f|
    ensures |r| == |f|
    ensures forall j :: 0 <= j < |f| ==> r[j] == if i <= j < i + |w| then w[j - i] else f[j]
  {
    f[..i] + w + f[i + |w|..]
  }

  function Put16(f: Bytes, i: nat, v: u16): (r: Bytes)
    requires i + 2 <= |f|
    ensures |r| == |f| && W(r, i) == v
    ensures forall j :: 0 <= j < |f| && j != i && j != i + 1 ==> r[j] == f[j]
  {
    Put(f, i, [v / 256, v % 256])
  }

  /** Set the PSH bit of the TCP flag byte. */
  function SetPsh(f: Bytes, th: nat): (r: Bytes)
    requires th + 14 <= |f|
    ensures |r| == |f|
    ensures forall j :: 0 <= j < |f| && j != th + 13 ==> r[j] == f[j]
  {
    if f[th + 13] / 8 % 2 == 1 then f else f[th + 13 := f[th + 13] + 8]
  }

  /** Offsets a merge leaves alone, with the IP header at l3. */
  predicate Stable(j: int, l3: nat) {
    var i := j - l3;
    i < 2 || 4 <= i < 10 || 12 <= i < 28 || i == 32 || 36 <= i < HLEN
  }

  /** g carries the same header as f at every offset a merge leaves alone. */
  ghost predicate SameHeader(f: Bytes, g: Bytes, l3: nat) {
    forall j :: 0 <= j < l3 + HLEN && Stable(j, l3) ==> B(g, j) == B(f, j)
  }

  lemma {:induction false} SameWord(f: Bytes, g: Bytes, l3: nat, i: nat)
    requires i + 1 < l3 + HLEN && Stable(i, l3) && Stable(i + 1, l3) && SameHeader(f, g, l3)
    ensures W(g, i) == W(f, i)
  {
    assert B(g, i) == B(f, i) && B(g, i + 1) == B(f, i + 1);
  }

  lemma {:induction false} SameOffset(f: Bytes, g: Bytes)
    requires var l3 := IpOffset(f); l3 > 0 && SameHeader(f, g, l3) && |g| >= l3 + IP_HLEN
    ensures IpOffset(g) == IpOffset(f)
  {
    var l3 := IpOffset(f);
    SameWord(f, g, l3, 12);
    if l3 == 18 {
      SameWord(f, g, l3, 16);
    }
  }

  lemma {:induction false} SameKey(f: Bytes, g: Bytes, l3: nat)
    requires SameHeader(f, g, l3) && Ihl(f, l3) == IP_HLEN
    ensures KeyOf(g, l3) == KeyOf(f, l3) && L(g, l3 + 24) == L(f, l3 + 24)
  {
    assert B(g, l3) == B(f, l3);
    SameWord(f, g, l3, l3 + 12);
    SameWord(f, g, l3, l3 + 14);
    SameWord(f, g, l3, l3 + 16);
    SameWord(f, g, l3, l3 + 18);
    SameWord(f, g, l3, l3 + 20);
    SameWord(f, g, l3, l3 + 22);
    SameWord(f, g, l3, l3 + 24);
    SameWord(f, g, l3, l3 + 26);
  }

  lemma {:induction false} SamePlain(f: Bytes, g: Bytes, l3: nat)
    requires SameHeader(f, g, l3) && PlainHeader(f, l3)
    requires Flags(g, l3 + IP_HLEN) in {TCP_ACK, TCP_ACK + TCP_PSH}
    ensures PlainHeader(g, l3) && B(g, l3 + 9) == B(f, l3 + 9)
  {
    assert B(g, l3) == B(f, l3) && B(g, l3 + 32) == B(f, l3 + 32);
    SameWord(f, g, l3, l3 + 6);
  }

  /**
   Frames that differ only in IP length and checksum, acknowledgement, window
   and PSH, and in what follows the headers, fall into the same data class.
   */
  lemma {:induction false} SameShape(f: Bytes, g: Bytes)
    requires Classify(f).Data?
    requires var l3 := Classify(f).payOff - HLEN;
      && IpLen(g, l3) == |g| - l3 > HLEN
      && Flags(g, l3 + IP_HLEN) in {TCP_ACK, TCP_ACK + TCP_PSH}
      && SameHeader(f, g, l3)
    ensures Classify(g) == Classify(f).(payLen := |g| - Classify(f).payOff,
                                        flags := Flags(g, Classify(f).payOff - TCP_HLEN))
  {
    DataShape(f);
    var l3 := Classify(f).payOff - HLEN;
    SameOffset(f, g);
    SamePlain(f, g, l3);
    SameKey(f, g, l3);
  }
}
