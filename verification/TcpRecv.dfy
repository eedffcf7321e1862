/**
 The TCP receive queue with urgent data (sb_tcp_recv_cb in
 src/bsdsocket/sb_socket.c, the drain of sb_tcp_recv in src/bsdsocket/sb_io.c).

 Rx is the socket's receive state on values. log, taken, credited and mark are
 history: deliveries so far with the offset of an excised byte, in-band bytes
 unlinked from the queue, bytes returned to the peer's window, and the in-band
 position of the latched mark.
 */
module TcpRecv {
  import opened Basics
  import opened Words

  type Bytes = seq<byte>

  datatype Oob = Nothing | Marked | Have | Read

  /** One delivery as it came off the wire; urgent is the offset excised from it. */
  datatype Delivery = Delivery(bytes: Bytes, urgent: Option<nat>)

  datatype Rx = Rx(
    q: seq<Bytes>, bytes: nat, nextSeq: u32, markDist: u32, oob: Oob, oobByte: byte, oobInline: bool,
    iss: u32, log: seq<Delivery>, taken: nat, credited: nat, mark: nat)

  function Flat(q: seq<Bytes>): Bytes { if q == [] then [] else q[0] + Flat(q[1..]) }

  lemma {:induction false} FlatConcat(a: seq<Bytes>, b: seq<Bytes>)
    ensures Flat(a + b) == Flat(a) + Flat(b)
  {
    if a == [] {
      assert a + b == b;
    } else {
      assert (a + b)[1..] == a[1..] + b;
      FlatConcat(a[1..], b);
    }
  }

  /** d with the byte at i taken out. */
  function Without(d: Bytes, i: nat): Bytes { if i < |d| then d[..i] + d[i + 1..] else d }

  function Kept(d: Delivery): Bytes { if d.urgent.Some? then Without(d.bytes, d.urgent.value) else d.bytes }

  function Wire(log: seq<Delivery>): Bytes {
    if log == [] then [] else Wire(log[..|log| - 1]) + log[|log| - 1].bytes
  }

  /** What the application may read in-band: the wire bytes minus the excised ones. */
  function InBand(log: seq<Delivery>): Bytes {
    if log == [] then [] else InBand(log[..|log| - 1]) + Kept(log[|log| - 1])
  }

  lemma {:induction false} LogSnoc(log: seq<Delivery>, d: Delivery)
    ensures Wire(log + [d]) == Wire(log) + d.bytes && InBand(log + [d]) == InBand(log) + Kept(d)
  {
    assert (log + [d])[..|log|] == log;
  }

  // ---- delivery ----

  /** Take the byte at offset d out of a pbuf chain. */
  function Cut(chain: seq<Bytes>, d: nat): seq<Bytes> {
    if chain == [] then []
    else if d >= |chain[0]| then [chain[0]] + Cut(chain[1..], d - |chain[0]|)
    else [Without(chain[0], d)] + chain[1..]
  }

  lemma {:induction false} WithoutConcat(h: Bytes, t: Bytes, d: nat)
    requires d < |h| + |t|
    ensures Without(h + t, d) == if d < |h| then Without(h, d) + t else h + Without(t, d - |h|)
  {
  }

  lemma {:induction false} CutFlat(chain: seq<Bytes>, d: nat)
    requires d < |Flat(chain)|
    ensures Flat(Cut(chain, d)) == Without(Flat(chain), d)
  {
    var h, t := chain[0], Flat(chain[1..]);
    if d >= |h| {
      CutFlat(chain[1..], d - |h|);
      assert Cut(chain, d)[1..] == Cut(chain[1..], d - |h|);
    } else {
      assert Cut(chain, d)[1..] == chain[1..];
    }
    WithoutConcat(h, t, d);
  }

  /** The distance from a to b as a signed 32-bit difference. */
  function Signed32(a: u32): int { if a < 0x8000_0000 then a else a - M32 }

  /** Offset of an urgent pointer into a delivery starting at nextSeq, when it points inside it. */
  function UrgentAt(nextSeq: u32, wire: nat, up: Option<u32>): (at: Option<nat>)
    ensures at.Some? ==> up.Some? && at.value < wire && Add32(nextSeq, at.value) == up.value
  {
    if up.Some? && 0 <= Signed32(Sub32(up.value, nextSeq)) < wire then Some(Sub32(up.value, nextSeq)) else None
  }

  /** The mark lies past this delivery: its byte is still in flight. */
  predicate Beyond(nextSeq: u32, wire: nat, up: Option<u32>) {
    up.Some? && Signed32(Sub32(up.value, nextSeq)) >= wire
  }

  /** An urgent pointer falls into a delivery exactly when it names one of its bytes, across the wrap of sequence numbers. */
  lemma {:induction false} UrgentAtIff(nextSeq: u32, wire: nat, up: u32)
    requires wire <= 0x8000_0000
    ensures UrgentAt(nextSeq, wire, Some(up)).Some? <==> exists d: nat :: d < wire && Add32(nextSeq, d) == up
    ensures Beyond(nextSeq, wire, Some(up)) <==> exists d: nat :: wire <= d < 0x8000_0000 && Add32(nextSeq, d) == up
    ensures UrgentAt(nextSeq, wire, None).None? && !Beyond(nextSeq, wire, None)
  {
    var d := Sub32(up, nextSeq);
    assert Add32(nextSeq, d) == up;
    forall e: nat | e < 0x8000_0000 && Add32(nextSeq, e) == up ensures e == d {
    }
  }

  predicate Latched(o: Oob) { o == Have || o == Read }

  /** What stays of a delivery once a byte is excised from it. */
  function Keep(chain: seq<Bytes>, cut: Option<nat>): seq<Bytes> { if cut.Some? then Cut(chain, cut.value) else chain }

  /** Queue what is kept of a delivery; a lone urgent byte leaves nothing to queue. */
  function Enqueue(s: Rx, chain: seq<Bytes>, cut: Option<nat>): Rx {
    var kept := Keep(chain, cut);
    s.(nextSeq := Add32(s.nextSeq, |Flat(chain)|),
       log := s.log + [Delivery(Flat(chain), cut)],
       q := if Flat(kept) == [] then s.q else s.q + kept,
       bytes := s.bytes + |Flat(kept)|)
  }

  /**
   Latch a mark at offset at of a delivery, a newer one over an unconsumed older
   one; unless it stays in-band its byte is taken out of the stream and its
   window credit returned at once. A mark past the delivery is only noted.
   */
  function Urgent(s: Rx, flat: Bytes, at: Option<nat>, beyond: bool): Rx
    requires at.Some? ==> at.value < |flat|
  {
    if at.Some? then
      s.(markDist := Word(s.bytes + at.value), mark := |InBand(s.log)| + at.value, oob := Have,
         oobByte := if s.oobInline then s.oobByte else flat[at.value],
         credited := s.credited + if s.oobInline then 0 else 1)
    else if beyond then s.(oob := Marked)
    else s
  }

  /** sb_tcp_recv_cb with data: up is the urgent mark pending on the connection, if any. */
  function Deliver(s: Rx, chain: seq<Bytes>, up: Option<u32>): Rx {
    var flat := Flat(chain);
    var at := UrgentAt(s.nextSeq, |flat|, up);
    Enqueue(Urgent(s, flat, at, Beyond(s.nextSeq, |flat|, up)), chain, if s.oobInline then None else at)
  }

  function Word(x: nat): (w: u32)
    ensures x < M32 ==> w == x
  {
    x % M32
  }

  // ---- invariants ----

  /** Bytes unlinked so far plus bytes queued are the in-band bytes, in order; none is zero-length throughout. */
  ghost predicate Conserves(s: Rx) {
    && s.bytes == |Flat(s.q)| && (s.q != [] ==> s.bytes > 0)
    && s.taken + s.bytes == |InBand(s.log)|
    && Flat(s.q) == InBand(s.log)[s.taken..]
    && s.nextSeq == Add32(s.iss, |Wire(s.log)|)
  }

  /** Every wire byte is credited to the window, queued, or owed by the reader. */
  ghost predicate Credit(s: Rx, owed: nat) { |Wire(s.log)| == s.credited + s.bytes + owed }

  /** While a mark is latched its distance is exactly the queued in-band bytes before it. */
  ghost predicate MarkExact(s: Rx) {
    Latched(s.oob) ==> s.taken <= s.mark <= |InBand(s.log)| && s.markDist == s.mark - s.taken
  }

  lemma {:induction false} KeepFlat(chain: seq<Bytes>, cut: Option<nat>)
    requires cut.Some? ==> cut.value < |Flat(chain)|
    ensures Flat(Keep(chain, cut)) == Kept(Delivery(Flat(chain), cut))
  {
    if cut.Some? {
      CutFlat(chain, cut.value);
    }
  }

  lemma {:induction false} EnqueueConserves(s: Rx, chain: seq<Bytes>, cut: Option<nat>)
    requires Conserves(s) && (cut.Some? ==> cut.value < |Flat(chain)|)
    ensures Conserves(Enqueue(s, chain, cut))
  {
    hide Add32;
    var r, kept, d := Enqueue(s, chain, cut), Keep(chain, cut), Delivery(Flat(chain), cut);
    KeepFlat(chain, cut);
    LogSnoc(s.log, d);
    FlatConcat(s.q, kept);
    assert Flat(r.q) == Flat(s.q) + Kept(d) by {
      if Flat(kept) == [] {
        assert Flat(s.q) + [] == Flat(s.q);
      }
    }
    assert r.q != [] ==> r.bytes > 0 by {
      if Flat(kept) == [] {
        assert r.q == s.q;
      }
    }
    var ib, k := InBand(s.log), Kept(d);
    assert InBand(r.log) == ib + k && r.taken == s.taken && r.bytes == s.bytes + |k|;
    EnqueueSeq(s, chain, cut);
    DropConcat(ib, k, s.taken);
    hide Enqueue, Add32, Keep, Kept, Flat, InBand, Wire;
  }

  lemma {:induction false} EnqueueSeq(s: Rx, chain: seq<Bytes>, cut: Option<nat>)
    requires s.nextSeq == Add32(s.iss, |Wire(s.log)|)
    ensures var r := Enqueue(s, chain, cut); r.nextSeq == Add32(r.iss, |Wire(r.log)|)
  {
    hide Flat, Keep, InBand, Wire, Kept;
    var n, w := |Flat(chain)|, |Wire(s.log)|;
    LogSnoc(s.log, Delivery(Flat(chain), cut));
    Add32Assoc(s.iss, w, n);
    hide Add32;
    assert |Wire(s.log + [Delivery(Flat(chain), cut)])| == w + n;
  }

  lemma {:induction false} DropConcat(a: Bytes, b: Bytes, n: nat)
    requires n <= |a|
    ensures (a + b)[n..] == a[n..] + b
  {
  }

  lemma {:induction false} EnqueueCredit(s: Rx, chain: seq<Bytes>, cut: Option<nat>, owed: nat)
    requires cut.Some? ==> cut.value < |Flat(chain)|
    requires |Wire(s.log)| + (if cut.Some? then 1 else 0) == s.credited + s.bytes + owed
    ensures Credit(Enqueue(s, chain, cut), owed)
  {
    KeepFlat(chain, cut);
    LogSnoc(s.log, Delivery(Flat(chain), cut));
    hide Add32, Keep, Flat, InBand, Wire;
  }

  /** A delivery keeps the conservation and credit laws whatever its split and mark. */
  lemma {:induction false} DeliverKeeps(s: Rx, chain: seq<Bytes>, up: Option<u32>, owed: nat)
    requires Conserves(s)
    ensures Conserves(Deliver(s, chain, up))
    ensures Credit(s, owed) ==> Credit(Deliver(s, chain, up), owed)
  {
    hide Add32, Word, UrgentAt, Beyond, Flat, InBand, Wire, Enqueue;
    var at := UrgentAt(s.nextSeq, |Flat(chain)|, up);
    var cut := if s.oobInline then None else at;
    var t := Urgent(s, Flat(chain), at, Beyond(s.nextSeq, |Flat(chain)|, up));
    EnqueueConserves(t, chain, cut);
    if Credit(s, owed) {
      EnqueueCredit(t, chain, cut, owed);
    }
  }

  lemma {:induction false} EnqueueMark(s: Rx, chain: seq<Bytes>, cut: Option<nat>)
    requires cut.Some? ==> cut.value < |Flat(chain)|
    requires Latched(s.oob) ==>
      && s.taken <= s.mark <= |InBand(s.log)| + |Flat(chain)| - (if cut.Some? then 1 else 0)
      && s.markDist == s.mark - s.taken
    ensures MarkExact(Enqueue(s, chain, cut))
  {
    hide Add32, Keep, Flat;
    LogSnoc(s.log, Delivery(Flat(chain), cut));
    hide InBand;
  }

  lemma {:induction false} DeliverMark(s: Rx, chain: seq<Bytes>, up: Option<u32>)
    requires Conserves(s) && MarkExact(s) && s.bytes + |Flat(chain)| < M32
    ensures MarkExact(Deliver(s, chain, up))
  {
    hide Add32, Word, UrgentAt, Beyond, Flat, InBand, Enqueue;
    var at := UrgentAt(s.nextSeq, |Flat(chain)|, up);
    var cut := if s.oobInline then None else at;
    EnqueueMark(Urgent(s, Flat(chain), at, Beyond(s.nextSeq, |Flat(chain)|, up)), chain, cut);
  }

  /** The excised byte is the one the urgent pointer names, in 32-bit sequence space. */
  lemma {:induction false} ExcisesTheUrgentByte(s: Rx, chain: seq<Bytes>, up: u32)
    requires Conserves(s) && UrgentAt(s.nextSeq, |Flat(chain)|, Some(up)).Some? && !s.oobInline
    ensures var r, d := Deliver(s, chain, Some(up)), UrgentAt(s.nextSeq, |Flat(chain)|, Some(up)).value;
      var pos := |Wire(s.log)| + d;
      && pos < |Wire(r.log)| && r.oobByte == Wire(r.log)[pos] && Add32(s.iss, pos) == up
      && r.oob == Have
  {
    DeliverWire(s, chain, Some(up));
    UrgentSeq(s, |Flat(chain)|, up);
    hide UrgentAt, Flat, InBand, Wire, Add32, Keep, Beyond, Word, Conserves;
  }

  /** The urgent byte's place in the stream is the sequence number it was announced with. */
  lemma {:induction false} UrgentSeq(s: Rx, n: nat, up: u32)
    requires s.nextSeq == Add32(s.iss, |Wire(s.log)|) && UrgentAt(s.nextSeq, n, Some(up)).Some?
    ensures var d := UrgentAt(s.nextSeq, n, Some(up)).value; d < n && Add32(s.iss, |Wire(s.log)| + d) == up
  {
    hide Wire;
    Add32Assoc(s.iss, |Wire(s.log)|, UrgentAt(s.nextSeq, n, Some(up)).value);
  }

  // ---- consumption ----

  /** The reader unlinks the first n queued bytes, leaving q; the mark moves with them. */
  function Consume(s: Rx, n: nat, q: seq<Bytes>): Rx
    requires n <= s.bytes
  {
    s.(q := q, bytes := s.bytes - n, taken := s.taken + n,
       markDist := if Latched(s.oob) then Sub32(s.markDist, Word(n)) else s.markDist)
  }

  lemma {:induction false} ConsumeKeeps(s: Rx, n: nat, q: seq<Bytes>, owed: nat)
    requires Conserves(s) && n <= s.bytes && Flat(q) == Flat(s.q)[n..] && (q != [] ==> n < s.bytes)
    ensures Conserves(Consume(s, n, q))
    ensures Credit(s, owed) ==> Credit(Consume(s, n, q), owed + n)
  {
    hide Add32, Flat, InBand, Wire, Sub32, Word;
    var ib := InBand(s.log);
    assert ib[s.taken..][n..] == ib[s.taken + n..];
  }

  /** What a consuming step unlinks is the next stretch of the in-band stream. */
  lemma {:induction false} ConsumeReads(s: Rx, n: nat)
    requires Conserves(s) && n <= s.bytes
    ensures Flat(s.q)[..n] == InBand(s.log)[s.taken..s.taken + n]
  {
    hide Flat, InBand, Wire, Add32;
  }

  /**
   Exactly when a consuming step keeps the mark honest: with a mark latched,
   iff it takes no more than the bytes before the mark.
   */
  lemma {:induction false} ConsumeMark(s: Rx, n: nat, q: seq<Bytes>)
    requires MarkExact(s) && n <= s.bytes < M32
    ensures MarkExact(Consume(s, n, q)) <==> !Latched(s.oob) || n <= s.markDist
  {
    hide InBand;
    if Latched(s.oob) && n <= s.markDist {
      assert Sub32(s.markDist, n) == s.markDist - n;
    }
  }

  /** k is the number of head pbufs that fit in cap bytes. */
  ghost predicate MaxRun(q: seq<Bytes>, k: nat, cap: nat) {
    k <= |q| && |Flat(q[..k])| <= cap && (k < |q| ==> |Flat(q[..k])| + |q[k]| > cap)
  }

  lemma {:induction false} FlatSnoc(q: seq<Bytes>, k: nat)
    requires k < |q|
    ensures Flat(q[..k + 1]) == Flat(q[..k]) + q[k]
  {
    assert q[..k + 1] == q[..k] + [q[k]];
    FlatConcat(q[..k], [q[k]]);
  }

  lemma {:induction false} SplitFlat(q: seq<Bytes>, k: nat)
    requires k <= |q|
    ensures Flat(q) == Flat(q[..k]) + Flat(q[k..])
  {
    FlatConcat(q[..k], q[k..]);
    assert q[..k] + q[k..] == q;
  }

  /** A consuming read that starts at the mark passes it. */
  function PassMark(s: Rx): Rx { if s.markDist == 0 && Latched(s.oob) then s.(oob := Nothing) else s }

  /** How many bytes a pass may take: up to the request, and never past a latched mark. */
  function Clamp(s: Rx, room: nat, peek: bool): (r: (nat, bool))
    ensures r.0 <= room
    ensures Latched(s.oob) && !peek ==> r.0 <= s.markDist
  {
    if Latched(s.oob) && (s.markDist > 0 || !peek) && s.markDist <= room then (s.markDist, true) else (room, false)
  }

  /** The delivery of the example below: three bytes, the middle one urgent, to a reader that has taken one. */
  lemma {:induction false} LateDelivery(s1: Rx, d0: Delivery)
    requires d0 == Delivery([1], None)
    requires s1 == Rx([], 0, 1001, 0, Nothing, 0, false, 1000, [d0], 1, 0, 0)
    ensures Deliver(s1, [[7, 8, 9]], Some(1002)) ==
      Rx([[7, 9]], 2, 1004, 1, Have, 8, false, 1000, [d0, Delivery([7, 8, 9], Some(1))], 1, 1, 2)
    ensures Flat([[7, 9]]) == [7, 9] && InBand([d0]) == [1] && Wire([d0]) == [1]
    ensures |InBand([d0, Delivery([7, 8, 9], Some(1))])| == 3
  {
    hide Flat, Cut, Without, InBand, Wire, Kept;
    LateCut([7, 8, 9], [7, 9]);
    LateLog(d0, Delivery([7, 8, 9], Some(1)));
  }

  lemma {:induction false} LateCut(b: Bytes, c: Bytes)
    requires b == [7, 8, 9] && c == [7, 9]
    ensures Without(b, 1) == c && Cut([b], 1) == [c] && Flat([b]) == b && Flat([c]) == c
  {
    assert b[..1] + b[2..] == c;
    assert [b][1..] == [] && [c] + [] == [c];
    FlatOne(b);
    FlatOne(c);
    hide Flat;
  }

  lemma {:induction false} LateLog(d0: Delivery, d1: Delivery)
    requires d0 == Delivery([1], None) && d1 == Delivery([7, 8, 9], Some(1))
    ensures InBand([d0]) == [1] && Wire([d0]) == [1] && |InBand([d0, d1])| == 3
  {
    LogOne(d0);
    LogSnoc([d0], d1);
    assert [d0] + [d1] == [d0, d1];
    hide InBand, Wire;
  }

  lemma {:induction false} FlatOne(b: Bytes)
    ensures Flat([b]) == b
  {
    assert [b][1..] == [] && b + [] == b;
  }

  lemma {:induction false} LogOne(d: Delivery)
    ensures Wire([d]) == d.bytes && InBand([d]) == Kept(d)
  {
    LogSnoc([], d);
    assert [] + [d] == [d] && [] + d.bytes == d.bytes && [] + Kept(d) == Kept(d);
  }

  /**
   The clamp is not recomputed after the unlocked copy, so a mark latched
   meanwhile can be read across. Here a reader of 3 bytes has detached one; a
   delivery with an urgent byte in its middle arrives; the pass goes on and
   takes a byte from each side of the new mark, whose distance wraps.
   */
  lemma {:induction false} ReadsAcrossLateMark(s0: Rx)
    requires s0 == Rx([[1]], 1, 1001, 0, Nothing, 0, false, 1000, [Delivery([1], None)], 0, 0, 0)
    ensures Conserves(s0) && MarkExact(s0)
    ensures var room := Clamp(s0, 3, false).0;
      var s1 := Consume(s0, 1, []);
      var s2 := Deliver(s1, [[7, 8, 9]], Some(1002));
      && MarkExact(s2) && s2.oob == Have && s2.mark == 2 && s2.q == [[7, 9]] && s2.bytes == 2
      && MaxRun(s2.q, 1, room - 1)
      && var s3 := Consume(s2, 2, []);
         s3.taken == 3 && !MarkExact(s3) && s3.markDist == M32 - 1
  {
    var s1 := Consume(s0, 1, []);
    LateDelivery(s1, Delivery([1], None));
    assert Flat([[1]]) == [1] && Flat([[7, 9]][..1]) == [7, 9];
    hide Deliver, InBand, Wire, Flat;
  }

  // ---- runs ----

  /** What can happen to the queue, in any order: the callback, and the reader's steps under the lock. */
  datatype Event =
    | Arrived(chain: seq<Bytes>, up: Option<u32>)
    | Unlinked(n: nat, rest: seq<Bytes>)
    | Acked(n: nat)
    | PassedMark
    | TookOob

  /** A queue with its reader: bytes handed to the application, and bytes not yet acknowledged. */
  datatype Session = Session(rx: Rx, out: Bytes, owed: nat)

  ghost predicate Enabled(s: Session, e: Event) {
    match e
    case Arrived(chain, up) => s.rx.bytes + |Flat(chain)| < M32
    case Unlinked(n, rest) => n <= s.rx.bytes && n <= |Flat(s.rx.q)| && Flat(rest) == Flat(s.rx.q)[n..] && (rest != [] ==> n < s.rx.bytes)
    case Acked(n) => n <= s.owed
    case PassedMark => true
    case TookOob => s.rx.oob == Have
  }

  ghost function Apply(s: Session, e: Event): Session
    requires Enabled(s, e)
  {
    match e
    case Arrived(chain, up) => s.(rx := Deliver(s.rx, chain, up))
    case Unlinked(n, rest) => Session(Consume(s.rx, n, rest), s.out + Flat(s.rx.q)[..n], s.owed + n)
    case Acked(n) => s.(rx := s.rx.(credited := s.rx.credited + n), owed := s.owed - n)
    case PassedMark => s.(rx := PassMark(s.rx))
    case TookOob => s.(rx := s.rx.(oob := Read))
  }

  ghost predicate Run(ss: seq<Session>, es: seq<Event>) {
    |ss| == |es| + 1 && forall i :: 0 <= i < |es| ==> Enabled(ss[i], es[i]) && ss[i + 1] == Apply(ss[i], es[i])
  }

  /** The stream law: what was handed over is exactly the consumed prefix of the in-band stream. */
  ghost predicate Sound(s: Session) {
    && Conserves(s.rx) && Credit(s.rx, s.owed) && s.rx.bytes < M32
    && s.rx.taken <= |InBand(s.rx.log)| && s.out == InBand(s.rx.log)[..s.rx.taken]
  }

  ghost predicate Fresh(s: Session, iss: u32, inlined: bool) {
    s == Session(Rx([], 0, iss, 0, Nothing, 0, inlined, iss, [], 0, 0, 0), [], 0)
  }

  lemma {:induction false} FreshSound(s: Session, iss: u32, inlined: bool)
    requires Fresh(s, iss, inlined)
    ensures Sound(s) && MarkExact(s.rx)
  {
    assert Add32(iss, 0) == iss;
  }

  lemma {:induction false} ArrivedSound(s: Session, chain: seq<Bytes>, up: Option<u32>)
    requires Sound(s) && s.rx.bytes + |Flat(chain)| < M32
    ensures Sound(s.(rx := Deliver(s.rx, chain, up)))
  {
    hide Flat, InBand, Wire, Add32, Word, Keep, UrgentAt, Beyond;
    DeliverKeeps(s.rx, chain, up, s.owed);
    var at := UrgentAt(s.rx.nextSeq, |Flat(chain)|, up);
    var cut := if s.rx.oobInline then None else at;
    LogSnoc(s.rx.log, Delivery(Flat(chain), cut));
    KeepFlat(chain, cut);
    var a, b := InBand(s.rx.log), Kept(Delivery(Flat(chain), cut));
    assert (a + b)[..s.rx.taken] == a[..s.rx.taken];
    hide Conserves, Credit, Kept;
  }

  lemma {:induction false} ApplySound(s: Session, e: Event)
    requires Sound(s) && Enabled(s, e)
    ensures Sound(Apply(s, e))
  {
    hide Flat, InBand, Wire, Add32, Word, Sub32, Deliver;
    match e
    case Arrived(chain, up) => ArrivedSound(s, chain, up);
    case Unlinked(n, rest) =>
      ConsumeKeeps(s.rx, n, rest, s.owed);
      ConsumeReads(s.rx, n);
      var ib, t := InBand(s.rx.log), s.rx.taken;
      assert ib[..t] + ib[t..t + n] == ib[..t + n];
    case Acked(n) =>
    case PassedMark =>
    case TookOob =>
  }

  /** What the callback was given in a run, in order. */
  function Given(es: seq<Event>): Bytes {
    if es == [] then [] else Given(es[..|es| - 1]) + if es[|es| - 1].Arrived? then Flat(es[|es| - 1].chain) else []
  }

  /** How much the reader unlinked. */
  function Unlinks(es: seq<Event>): nat {
    if es == [] then 0 else Unlinks(es[..|es| - 1]) + if es[|es| - 1].Unlinked? then es[|es| - 1].n else 0
  }

  lemma {:induction false} DeliverWire(s: Rx, chain: seq<Bytes>, up: Option<u32>)
    ensures Wire(Deliver(s, chain, up).log) == Wire(s.log) + Flat(chain) && Deliver(s, chain, up).taken == s.taken
  {
    hide Flat, UrgentAt, Beyond, InBand, Wire, Add32, Word, Keep;
    var at := UrgentAt(s.nextSeq, |Flat(chain)|, up);
    LogSnoc(s.log, Delivery(Flat(chain), if s.oobInline then None else at));
  }

  /** The wire bytes of a run are what the callback was given, all of it and in order; what was taken is what was unlinked. */
  lemma {:induction false} RunGiven(ss: seq<Session>, es: seq<Event>, iss: u32, inlined: bool, i: nat)
    requires Run(ss, es) && Fresh(ss[0], iss, inlined) && i < |ss|
    ensures Wire(ss[i].rx.log) == Given(es[..i]) && ss[i].rx.taken == Unlinks(es[..i])
    decreases i
  {
    hide Flat, Deliver, Sub32, Word;
    if i == 0 {
      assert es[..0] == [];
    } else {
      var n := i - 1;
      RunGiven(ss, es, iss, inlined, n);
      assert Enabled(ss[n], es[n]) && ss[i] == Apply(ss[n], es[n]);
      assert es[..i][..n] == es[..n] && es[..i][n] == es[n];
      if es[n].Arrived? {
        DeliverWire(ss[n].rx, es[n].chain, es[n].up);
      }
      assert Given(es[..n]) + [] == Given(es[..n]);
    }
  }

  /** The life of a mark: noted, latched with its byte, its byte read, passed by a read that starts at it. */
  lemma {:induction false} MarkLife(s: Session, e: Event)
    requires Enabled(s, e)
    ensures var o, r := s.rx.oob, Apply(s, e).rx.oob;
      match e
      case Arrived(chain, up) =>
        r == if UrgentAt(s.rx.nextSeq, |Flat(chain)|, up).Some? then Have
             else if Beyond(s.rx.nextSeq, |Flat(chain)|, up) then Marked else o
      case PassedMark => r == if s.rx.markDist == 0 && (o == Have || o == Read) then Nothing else o
      case TookOob => o == Have && r == Read
      case _ => r == o
  {
    hide Flat, UrgentAt, Beyond, InBand, Keep, Add32, Word, Sub32;
  }

  /**
   Every run of deliveries and reader steps in any interleaving: the application
   has received exactly the consumed prefix of the in-band stream, the queue
   holds the rest in order, and every wire byte is credited, queued or owed.
   */
  lemma {:induction false} StreamIsExact(ss: seq<Session>, es: seq<Event>, iss: u32, inlined: bool, i: nat)
    requires Run(ss, es) && Fresh(ss[0], iss, inlined) && i < |ss|
    ensures Sound(ss[i])
    ensures ss[i].out + Flat(ss[i].rx.q) == InBand(ss[i].rx.log)
  {
    hide Flat, InBand, Wire, Apply, Enabled, Deliver;
    if i == 0 {
      FreshSound(ss[0], iss, inlined);
    } else {
      StreamIsExact(ss, es, iss, inlined, i - 1);
      ApplySound(ss[i - 1], es[i - 1]);
    }
    var r := ss[i].rx;
    assert InBand(r.log)[..r.taken] + InBand(r.log)[r.taken..] == InBand(r.log);
  }
}
