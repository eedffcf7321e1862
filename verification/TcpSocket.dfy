/**
 The receive half of a TCP socket as the object it is: the delivery callback
 (sb_tcp_recv_cb in src/bsdsocket/sb_socket.c) and the blocking reader
 (sb_tcp_recv in src/bsdsocket/sb_io.c).

 Wherever the reader releases the core lock anything may arrive; Env stands for
 that. clean says that no mark was latched while a reader was copying unlocked.
 */
module TcpSocket {
  import opened Basics
  import opened Words
  import opened TcpRecv
  import opened TcpPass

  const EINTR := 4
  const EINVAL := 22
  const EWOULDBLOCK := 35
  const ENOTCONN := 57

  /**
   Why a reader with nothing queued returns, and with what error: in this order
   end of stream, socket error, connection gone, never connected, satisfied, not
   allowed to wait. None means that it sleeps.
   */
  function Reason(eof: bool, err: nat, live: bool, connected: bool, some: bool, waitall: bool, dontwait: bool): Option<nat> {
    if eof then Some(0)
    else if err != 0 then Some(if some then 0 else err)
    else if !live then Some(0)
    else if !connected then Some(if some then 0 else ENOTCONN)
    else if some && !waitall then Some(0)
    else if dontwait then Some(if some then 0 else EWOULDBLOCK)
    else None
  }

  /** Why an out-of-band read fails at once, in this order; 0 means that it sleeps, or that the byte is there. */
  function OobReason(never: bool, oob: Oob, err: nat, gone: bool, dontwait: bool): nat {
    if never || oob == Nothing || oob == Read then EINVAL
    else if oob == Have then 0
    else if err != 0 then err
    else if gone then EINVAL
    else if dontwait then EWOULDBLOCK
    else 0
  }

  /** A pbuf's length is a 16-bit field. */
  predicate Pbufs(q: seq<Bytes>) { forall i :: 0 <= i < |q| ==> |q[i]| <= 0xFFFF }

  lemma {:induction false} KeptLength(chain: seq<Bytes>, cut: Option<nat>)
    requires cut.Some? ==> cut.value < |Flat(chain)|
    ensures |Flat(Keep(chain, cut))| == |Flat(chain)| - if cut.Some? then 1 else 0
    ensures cut.None? ==> Keep(chain, cut) == chain
  {
    hide Flat;
    KeepFlat(chain, cut);
  }

  lemma {:induction false} EnqueueGrows(s: Rx, chain: seq<Bytes>, cut: Option<nat>)
    requires Pbufs(s.q) && Pbufs(chain) && (cut.Some? ==> cut.value < |Flat(chain)|)
    ensures var r := Enqueue(s, chain, cut);
      && Pbufs(r.q) && s.q <= r.q && InBand(s.log) <= InBand(r.log) && r.bytes <= s.bytes + |Flat(chain)|
  {
    hide Add32, Flat, Word;
    LogSnoc(s.log, Delivery(Flat(chain), cut));
    KeptLength(chain, cut);
    assert Pbufs(Keep(chain, cut)) by {
      if cut.Some? {
        CutPbufs(chain, cut.value);
      }
    }
    hide InBand, Keep;
  }

  lemma {:induction false} DeliverGrows(s: Rx, chain: seq<Bytes>, up: Option<u32>)
    requires Pbufs(s.q) && Pbufs(chain)
    ensures var r := Deliver(s, chain, up);
      && Pbufs(r.q) && s.q <= r.q && InBand(s.log) <= InBand(r.log) && r.bytes <= s.bytes + |Flat(chain)|
    ensures var r := Deliver(s, chain, up);
      && r.taken == s.taken
      && (UrgentAt(s.nextSeq, |Flat(chain)|, up).None? ==>
            r.markDist == s.markDist && (Latched(r.oob) ==> r.oob == s.oob))
  {
    hide Add32, UrgentAt, Beyond, Flat, Word, InBand, Keep, Pbufs;
    var at := UrgentAt(s.nextSeq, |Flat(chain)|, up);
    var cut := if s.oobInline then None else at;
    var t := Urgent(s, Flat(chain), at, Beyond(s.nextSeq, |Flat(chain)|, up));
    EnqueueGrows(t, chain, cut);
  }

  lemma {:induction false} CutPbufs(chain: seq<Bytes>, d: nat)
    requires Pbufs(chain)
    ensures Pbufs(Cut(chain, d))
  {
    if chain != [] && d >= |chain[0]| {
      CutPbufs(chain[1..], d - |chain[0]|);
    }
  }

  lemma {:induction false} HeadSplit(q: seq<Bytes>, n: nat)
    requires q != [] && n < |q[0]|
    ensures Flat([q[0][n..]] + q[1..]) == Flat(q)[n..] && Flat(q)[..n] == q[0][..n] && n < |Flat(q)|
  {
    var r := [q[0][n..]] + q[1..];
    assert r[1..] == q[1..];
    var t := Flat(q[1..]);
    assert (q[0] + t)[n..] == q[0][n..] + t;
    hide Flat;
  }

  lemma {:induction false} RunSplit(q: seq<Bytes>, k: nat)
    requires k <= |q|
    ensures |Flat(q[..k])| <= |Flat(q)| && (k < |q| && |q[k]| > 0 ==> |Flat(q[..k])| < |Flat(q)|)
    ensures Flat(q[k..]) == Flat(q)[|Flat(q[..k])|..] && Flat(q)[..|Flat(q[..k])|] == Flat(q[..k])
  {
    SplitFlat(q, k);
    var a, b := Flat(q[..k]), Flat(q[k..]);
    assert (a + b)[|a|..] == b && (a + b)[..|a|] == a;
  }

  lemma {:induction false} CreditAside(s: Rx, c: nat)
    requires Conserves(s)
    ensures Conserves(s.(credited := c)) && (MarkExact(s) ==> MarkExact(s.(credited := c)))
  {
    hide Flat, InBand, Wire, Add32;
  }

  lemma {:induction false} Splice(a: Bytes, b: Bytes, i: nat, j: nat, k: nat)
    requires a <= b && i <= j <= |a| && j <= k <= |b|
    ensures a[i..j] + b[j..k] == b[i..k]
    ensures a[i..j] == b[i..j]
  {
    assert b[..|a|] == a;
  }

  /** The walk for offset d stands before pbuf i with off still to go. */
  ghost predicate Walked(chain: seq<Bytes>, d: nat, i: nat, off: nat) {
    && i < |chain| && off < |Flat(chain[i..])| && d < |Flat(chain)|
    && Cut(chain, d) == chain[..i] + Cut(chain[i..], off)
    && Flat(chain)[d] == Flat(chain[i..])[off]
  }

  lemma {:induction false} WalkStart(chain: seq<Bytes>, d: nat)
    requires d < |Flat(chain)|
    ensures Walked(chain, d, 0, d)
  {
    assert chain[0..] == chain && [] + Cut(chain, d) == Cut(chain, d);
    hide Cut;
  }

  lemma {:induction false} Holding(chain: seq<Bytes>, d: nat, i: nat, off: nat)
    requires Walked(chain, d, i, off)
    ensures i < |chain|
  {
  }

  /** One pbuf of the chain and the rest. */
  lemma {:induction false} PbufAt(chain: seq<Bytes>, i: nat, off: nat)
    requires i < |chain|
    ensures Flat(chain[i..]) == chain[i] + Flat(chain[i + 1..])
    ensures Cut(chain[i..], off) ==
      if off >= |chain[i]| then [chain[i]] + Cut(chain[i + 1..], off - |chain[i]|) else [Without(chain[i], off)] + chain[i + 1..]
  {
    var q := chain[i..];
    assert q[0] == chain[i] && q[1..] == chain[i + 1..];
    hide Without;
  }

  lemma {:induction false} FlatNonEmpty(q: seq<Bytes>)
    ensures |Flat(q)| > 0 ==> |q| > 0
  {
  }

  lemma {:induction false} WalkStep(chain: seq<Bytes>, d: nat, i: nat, off: nat)
    requires Walked(chain, d, i, off) && off >= |chain[i]|
    ensures Walked(chain, d, i + 1, off - |chain[i]|)
  {
    PbufAt(chain, i, off);
    FlatNonEmpty(chain[i + 1..]);
    hide Flat, Cut;
    CutJoin(chain, i, Cut(chain[i + 1..], off - |chain[i]|));
  }

  lemma {:induction false} WalkEnd(chain: seq<Bytes>, d: nat, i: nat, off: nat)
    requires Walked(chain, d, i, off) && off < |chain[i]|
    ensures Cut(chain, d) == chain[..i] + [Without(chain[i], off)] + chain[i + 1..] && Flat(chain)[d] == chain[i][off]
  {
    PbufAt(chain, i, off);
    hide Flat, Cut, Without;
    var a, b, c := chain[..i], [Without(chain[i], off)], chain[i + 1..];
    assert a + (b + c) == a + b + c;
  }

  lemma {:induction false} CutJoin(chain: seq<Bytes>, i: nat, rest: seq<Bytes>)
    requires i < |chain|
    ensures chain[..i] + ([chain[i]] + rest) == chain[..i + 1] + rest
  {
  }

  /** A socket at one moment, as far as a reader without the lock depends on it. */
  datatype Snap = Snap(rx: Rx, marks: set<nat>, clean: bool, live: bool)

  /** Between a and b the stream only grew, the queue only gained at its tail, and nobody else read. */
  ghost predicate Later(a: Snap, b: Snap, copying: bool) {
    && InBand(a.rx.log) <= InBand(b.rx.log) && a.rx.q <= b.rx.q && a.marks <= b.marks
    && b.rx.taken == a.rx.taken && (b.live ==> a.live) && b.rx.oobInline == a.rx.oobInline && (b.clean ==> a.clean)
    && (b.clean && copying && Latched(b.rx.oob) ==> Latched(a.rx.oob) && b.rx.markDist == a.rx.markDist)
  }

  lemma {:induction false} LaterMeans(a: Snap, b: Snap, copying: bool)
    requires Later(a, b, copying)
    ensures InBand(a.rx.log) <= InBand(b.rx.log) && a.rx.q <= b.rx.q && a.marks <= b.marks
    ensures b.rx.taken == a.rx.taken && (b.live ==> a.live) && b.rx.oobInline == a.rx.oobInline && (b.clean ==> a.clean)
    ensures b.clean && copying && Latched(b.rx.oob) ==> Latched(a.rx.oob) && b.rx.markDist == a.rx.markDist
  {
  }

  lemma {:induction false} LaterYet(a: Snap, b: Snap, c: Snap, copying: bool)
    requires Later(a, b, copying) && Later(b, c, copying)
    ensures Later(a, c, copying)
  {
    hide InBand;
  }

  lemma {:induction false} DeliverLatches(s: Rx, chain: seq<Bytes>, up: Option<u32>)
    requires UrgentAt(s.nextSeq, |Flat(chain)|, up).None? && Latched(Deliver(s, chain, up).oob)
    ensures Latched(s.oob) && Deliver(s, chain, up).mark == s.mark
  {
    hide Flat, InBand, UrgentAt, Beyond;
  }

  lemma {:induction false} PbufsTail(q: seq<Bytes>, k: nat)
    requires Pbufs(q) && k <= |q|
    ensures Pbufs(q[k..])
  {
  }

  /** A pass from s, with a mark latched, took exactly the bytes before that mark and led to r. */
  ghost predicate StoppedAtMark(s: Rx, ts: seq<Turn>, r: Rx) {
    && (s.oob == Have || s.oob == Read) && Turns(s, ts, s.markDist) && Sum(ts) == s.markDist
    && r == Along(s, ts, s.markDist).(credited := r.credited)
  }

  function Least(a: nat, b: nat, c: nat): (n: nat)
    ensures n <= a && n <= b && n <= c && (n == a || n == b || n == c)
  {
    if a <= b && a <= c then a else if b <= c then b else c
  }

  lemma {:induction false} EmptyQueue(s: Rx)
    requires Conserves(s)
    ensures s.q == [] ==> s.bytes == 0
    ensures s.q != [] ==> s.bytes > 0
  {
  }

  lemma {:induction false} ClampIs(s: Rx, room: nat)
    ensures var (lim, hit) := Clamp(s, room, false);
      lim <= room && (Latched(s.oob) ==> lim <= s.markDist) && (hit ==> Latched(s.oob) && lim == s.markDist) && (!hit ==> lim == room)
  {
  }

  /** A pass that reaches its limit, or leaves nothing queued, has taken enough. */
  lemma {:induction false} PassAmount(s: Rx, room: nat, n: nat)
    requires n <= Clamp(s, room, false).0 && (n < Clamp(s, room, false).0 ==> n >= s.bytes)
    ensures n >= Least(room, s.bytes, if Latched(s.oob) then s.markDist else room)
  {
  }

  class TcpSock {
    var q: seq<Bytes>
    var bytes: nat
    var nextSeq: u32
    var markDist: u32
    var oob: Oob
    var oobByte: byte
    var oobInline: bool
    var rxeof: bool
    var shutRd: bool
    var err: nat
    var live: bool
    var connected: bool
    ghost var iss: u32
    ghost var log: seq<Delivery>
    ghost var taken: nat
    ghost var credited: nat
    ghost var mark: nat
    ghost var clean: bool
    ghost var marks: set<nat> // where in the in-band stream marks were latched
    ghost var slept: seq<nat> // what the sleeps came back with

    ghost function View(): Rx
      reads this
    {
      Rx(q, bytes, nextSeq, markDist, oob, oobByte, oobInline, iss, log, taken, credited, mark)
    }

    ghost function Now(): Snap
      reads this
    {
      Snap(View(), marks, clean, live)
    }

    ghost predicate Valid(owed: nat)
      reads this
    {
      && Conserves(View()) && bytes < M32 && Pbufs(q) && taken + bytes == |InBand(log)|
      && (live ==> Credit(View(), owed))
      && (clean ==> MarkExact(View())) && (Latched(oob) ==> mark in marks)
    }

    constructor (seqNo: u32, inlined: bool)
      ensures Valid(0) && clean && live && taken == 0 && log == [] && oob == Nothing && oobInline == inlined
      ensures !rxeof && !shutRd && err == 0 && connected && slept == [] && nextSeq == iss == seqNo
    {
      q, bytes, nextSeq, markDist, oob, oobByte, oobInline := [], 0, seqNo, 0, Nothing, 0, inlined;
      rxeof, shutRd, err, live, connected := false, false, 0, true, true;
      iss, log, taken, credited, mark, marks, clean, slept := seqNo, [], 0, 0, 0, {}, true, [];
      new;
      assert Add32(seqNo, 0) == seqNo;
    }

    /** Shift the bytes past the gap down by one and drop the last. */
    static method CloseGap(pl: Bytes, off: nat) returns (r: Bytes)
      requires off < |pl|
      ensures r == Without(pl, off)
    {
      r := pl;
      var i := off;
      while i + 1 < |pl|
        invariant off <= i < |pl| && |r| == |pl|
        invariant forall k :: 0 <= k < |pl| && !(off <= k < i) ==> r[k] == pl[k]
        invariant forall k :: off <= k < i ==> r[k] == pl[k + 1]
      {
        r := r[i := r[i + 1]];
        i := i + 1;
      }
      r := r[..|pl| - 1];
      assert forall k :: 0 <= k < |r| ==> r[k] == Without(pl, off)[k];
    }

    /** The excise walk: find the pbuf that holds offset d and close the gap in it. */
    static method Excise(chain: seq<Bytes>, d: nat) returns (r: seq<Bytes>, b: byte)
      requires d < |Flat(chain)|
      ensures r == Cut(chain, d) && b == Flat(chain)[d]
    {
      hide Flat, Cut, Without, Walked;
      var i: nat, off: nat := 0, d;
      WalkStart(chain, d);
      Holding(chain, d, i, off);
      while off >= |chain[i]|
        invariant i < |chain| && Walked(chain, d, i, off)
        decreases |chain| - i
      {
        WalkStep(chain, d, i, off);
        off := off - |chain[i]|;
        i := i + 1;
        Holding(chain, d, i, off);
      }
      WalkEnd(chain, d, i, off);
      b := chain[i][off];
      var p := CloseGap(chain[i], off);
      r := chain[..i] + [p] + chain[i + 1..];
    }

    /** The callback latches a mark with this delivery. */
    ghost predicate Latches(chain: seq<Bytes>, up: Option<u32>)
      reads this
    {
      chain != [] && UrgentAt(nextSeq, |Flat(chain)|, up).Some?
    }

    /** Map an urgent pointer onto a delivery: excise or only mark, or note that the byte is still to come. */
    method MapUrgent(chain: seq<Bytes>, up: Option<u32>) returns (p: seq<Bytes>, dlen: nat, left: Option<u32>)
      modifies `markDist, `mark, `oob, `oobByte, `credited
      ensures var at := UrgentAt(nextSeq, |Flat(chain)|, up);
        && View() == Urgent(old(View()), Flat(chain), at, Beyond(nextSeq, |Flat(chain)|, up))
        && p == Keep(chain, if oobInline then None else at)
        && dlen == |Flat(chain)| - (if at.Some? && !oobInline then 1 else 0)
        && left == (if Beyond(nextSeq, |Flat(chain)|, up) then up else None)
    {
      hide Flat, Cut, Add32, InBand, Wire;
      p, dlen, left := chain, |Flat(chain)|, None;
      if up.None? {
        return;
      }
      var d := Signed32(Sub32(up.value, nextSeq));
      if d < 0 {
        return;
      }
      if d < dlen {
        markDist, mark := Word(bytes + d), |InBand(log)| + d;
        if !oobInline {
          p, oobByte := Excise(p, d);
          dlen := dlen - 1;
          credited := credited + 1;
        }
        oob := Have;
      } else {
        left := up;
        if oob != Marked {
          oob := Marked;
        }
      }
    }

    /** Tail-link what is left of a delivery. */
    method Append(p: seq<Bytes>, dlen: nat, chain: seq<Bytes>, ghost cut: Option<nat>)
      requires dlen == |Flat(p)| && p == Keep(chain, cut)
      modifies `nextSeq, `log, `q, `bytes
      ensures View() == Enqueue(old(View()), chain, cut)
    {
      hide Flat, Keep, Add32;
      nextSeq := Add32(nextSeq, |Flat(chain)|);
      log := log + [Delivery(Flat(chain), cut)];
      if dlen != 0 {
        q := q + p;
        bytes := bytes + dlen;
      }
    }

    /** sb_tcp_recv_cb; an empty chain is the peer's FIN. left is the mark still pending on the connection. */
    method RecvCb(chain: seq<Bytes>, up: Option<u32>, ghost copying: bool) returns (left: Option<u32>)
      modifies `q, `bytes, `nextSeq, `markDist, `oob, `oobByte, `log, `credited, `mark, `marks, `rxeof, `clean
      ensures View() == if chain == [] then old(View()) else Deliver(old(View()), chain, up)
      ensures chain != [] ==> left == if old(Beyond(nextSeq, |Flat(chain)|, up)) then up else None
      ensures rxeof == (old(rxeof) || chain == [])
      ensures clean == (old(clean) && !(copying && old(Latches(chain, up))))
      ensures marks == old(marks) + if old(Latches(chain, up)) then {mark} else {}
    {
      hide Flat, Cut, Add32, InBand, Wire, Word, Signed32, Sub32, UrgentAt, Beyond, Keep, Enqueue;
      left := up;
      clean := clean && !(copying && Latches(chain, up));
      if chain == [] {
        rxeof := true;
        return;
      }
      ghost var at := UrgentAt(nextSeq, |Flat(chain)|, up);
      ghost var cut := if oobInline then None else at;
      KeptLength(chain, cut);
      var p, dlen;
      p, dlen, left := MapUrgent(chain, up);
      if at.Some? {
        marks := marks + {mark};
      }
      Append(p, dlen, chain, cut);
    }

    // ---- the outside world ----

    /** The in-band stream only grows and the queue only gains at its tail. */
    twostate predicate Grew()
      reads this
    {
      && old(InBand(log)) <= InBand(log) && old(q) <= q && old(marks) <= marks
      && taken == old(taken) && (live ==> old(live)) && oobInline == old(oobInline)
    }

    /** A delivery to a valid socket. */
    method Arrive(chain: seq<Bytes>, up: Option<u32>, ghost owed: nat, ghost copying: bool)
      requires Valid(owed) && live && chain != [] && Pbufs(chain) && bytes + |Flat(chain)| < M32
      modifies this
      ensures Valid(owed) && Grew() && View() == Deliver(old(View()), chain, up) && slept == old(slept)
      ensures clean ==> old(clean)
      ensures clean && copying && Latched(oob) ==> old(Latched(oob)) && markDist == old(markDist)
    {
      ghost var s := View();
      DeliverKeeps(s, chain, up, owed);
      if clean {
        DeliverMark(s, chain, up);
      }
      DeliverGrows(s, chain, up);
      if UrgentAt(nextSeq, |Flat(chain)|, up).None? && Latched(Deliver(s, chain, up).oob) {
        DeliverLatches(s, chain, up);
      }
      var _ := RecvCb(chain, up, copying);
      hide Deliver, Conserves, Credit, MarkExact, Flat, InBand, UrgentAt;
    }

    /** A FIN, an error, a connection gone: nothing that touches the queue. */
    method Upset(ghost owed: nat)
      requires Valid(owed)
      modifies `rxeof, `shutRd, `connected, `err, `live
      ensures Valid(owed) && (live ==> old(live))
    {
      hide Conserves, MarkExact, Flat, InBand;
      rxeof, shutRd, connected, err := *, *, *, *;
      if * {
        live := false;
      }
    }

    /** One thing that may happen: at most one delivery. */
    method Happen(ghost owed: nat, ghost copying: bool) returns (ghost d: Option<Late>)
      requires Valid(owed)
      modifies this
      ensures Valid(owed) && Later(old(Now()), Now(), copying) && slept == old(slept)
      ensures d.None? ==> View() == old(View())
      ensures d.Some? ==> View() == Deliver(old(View()), d.value.chain, d.value.up) && old(bytes) + |Flat(d.value.chain)| < M32
    {
      hide Conserves, Credit, MarkExact, Flat, InBand, Deliver;
      var chain: seq<Bytes>, up: Option<u32> := *, *;
      d := None;
      if live && chain != [] && Pbufs(chain) && bytes + |Flat(chain)| < M32 {
        Arrive(chain, up, owed, copying);
        d := Some(Late(chain, up));
      } else {
        Upset(owed);
      }
    }

    /** Whatever happens while the reader does not hold the lock: any number of deliveries, a FIN, an error. */
    method Env(ghost owed: nat, ghost copying: bool) returns (ghost ds: seq<Late>)
      requires Valid(owed)
      modifies this
      ensures Valid(owed) && Grew() && View() == Copying(old(View()), ds) && Windowed(old(View()), ds) && slept == old(slept)
      ensures clean ==> old(clean)
      ensures clean && copying && Latched(oob) ==> old(Latched(oob)) && markDist == old(markDist)
    {
      assert Windowed(View(), []) && Later(Now(), Now(), copying);
      hide Conserves, Credit, MarkExact, Flat, InBand, Deliver, Copying, Windowed, Pbufs, Later;
      assert View() == Copying(View(), []) by { CopyingNone(View()); }
      var n: nat := *;
      ds := [];
      while n > 0
        invariant Valid(owed) && View() == Copying(old(View()), ds) && Windowed(old(View()), ds)
        invariant Later(old(Now()), Now(), copying) && slept == old(slept)
      {
        ghost var was := Now();
        ghost var d := Happen(owed, copying);
        LaterYet(old(Now()), was, Now(), copying);
        if d.Some? {
          CopyingSnoc(old(View()), ds, d.value);
          WindowedSnoc(old(View()), ds, d.value);
          ds := ds + [d.value];
        }
        n := n - 1;
      }
      LaterMeans(old(Now()), Now(), copying);
    }

    // ---- the reader ----

    /** The run of head pbufs that fits in room bytes, at most 64 KB of it. */
    method FitRun(room: nat) returns (k: nat, take: nat)
      ensures MaxRun(q, k, if room < 0xFFFF then room else 0xFFFF) && take == |Flat(q[..k])| && (if k == 0 then take == 0 else |q[0]| <= take)
    {
      k, take := 0, 0;
      while k < |q| && take + |q[k]| <= room && take + |q[k]| <= 0xFFFF
        invariant k <= |q| && take == |Flat(q[..k])| && (if k == 0 then take == 0 else |q[0]| <= take) && take <= room && take <= 0xFFFF
      {
        FlatSnoc(q, k);
        hide Flat;
        take := take + |q[k]|;
        k := k + 1;
      }
    }

    /** Unlink n bytes, leaving rest; the mark moves in the same lock hold. */
    method Unlink(n: nat, rest: seq<Bytes>, ghost owed: nat)
      requires Valid(owed) && n <= bytes && Flat(rest) == Flat(q)[n..] && (rest != [] ==> n < bytes) && Pbufs(rest)
      requires clean && Latched(oob) ==> n <= markDist
      modifies `q, `bytes, `taken, `markDist
      ensures Valid(owed + n) && View() == Consume(old(View()), n, rest)
    {
      hide Conserves, Credit, MarkExact, Flat, InBand, Sub32, Word, Pbufs;
      ConsumeKeeps(View(), n, rest, owed);
      if clean {
        ConsumeMark(View(), n, rest);
      }
      q, bytes, taken := rest, bytes - n, taken + n;
      if Latched(oob) {
        markDist := Sub32(markDist, Word(n));
      }
    }

    /** The unlocked copy of a detached run. */
    static method CopyRun(run: seq<Bytes>) returns (out: Bytes)
      ensures out == Flat(run)
    {
      out := [];
      for i := 0 to |run|
        invariant out == Flat(run[..i])
      {
        FlatSnoc(run, i);
        out := out + run[i];
      }
      assert run[..|run|] == run;
    }

    /** What a pass may still take: clamped to the mark unless one was latched during a copy. */
    ghost predicate Clamped(room: nat)
      reads this
    {
      clean && Latched(oob) ==> room <= markDist
    }

    /** The in-band stream has grown, and n bytes of it were taken. */
    twostate predicate Took(n: nat)
      reads this
    {
      && old(InBand(log)) <= InBand(log) && taken == old(taken) + n
      && (live ==> old(live)) && (clean ==> old(clean)) && old(marks) <= marks
    }

    /** The head alone exceeds what is wanted: take part of it in place. */
    method PartialConsume(room: nat, ghost owed: nat) returns (out: Bytes)
      requires Valid(owed) && 0 < room && q != [] && room < |q[0]| && Clamped(room)
      modifies `q, `bytes, `taken, `markDist
      ensures |out| == room && Valid(owed + room) && Clamped(0) && Took(room)
      ensures out == InBand(log)[old(taken)..taken]
      ensures View() == Consume(old(View()), room, old([q[0][room..]] + q[1..]))
    {
      HeadSplit(q, room);
      ConsumeReads(View(), room);
      hide Credit, MarkExact, InBand, Flat, Sub32, Word, Wire, Add32;
      out := q[0][..room];
      Unlink(room, [q[0][room..]] + q[1..], owed);
    }

    /** Detach a run of k whole pbufs, copy it with the lock released, take the lock again. */
    method TakeRun(k: nat, take: nat, ghost owed: nat) returns (out: Bytes, ghost ds: seq<Late>)
      requires Valid(owed) && 0 < k <= |q| && take == |Flat(q[..k])| && (k < |q| ==> |q[k]| > 0) && Clamped(take)
      modifies this
      ensures |out| == take && Valid(owed + take) && Took(take) && slept == old(slept)
      ensures out == InBand(log)[old(taken)..taken]
      ensures clean && Latched(oob) ==> old(Latched(oob)) && markDist == old(markDist) - take
      ensures old(q[k..]) <= q && take <= old(bytes)
      ensures var mid := Consume(old(View()), take, old(q[k..])); View() == Copying(mid, ds) && Windowed(mid, ds)
    {
      hide Credit, MarkExact, InBand, Flat, Word, Wire, Add32, Pbufs, Copying, Windowed;
      ghost var s := View();
      var run := q[..k];
      UnlinkRun(k, take, owed);
      hide Conserves, Consume;
      ds := Env(owed + take, true);
      out := CopyRun(run);
    }

    /** The first k pbufs, take bytes of the stream, leave the queue. */
    method UnlinkRun(k: nat, take: nat, ghost owed: nat)
      requires Valid(owed) && 0 < k <= |q| && take == |Flat(q[..k])| && (k < |q| ==> |q[k]| > 0) && Clamped(take)
      modifies `q, `bytes, `taken, `markDist
      ensures Valid(owed + take) && take <= old(bytes) && View() == Consume(old(View()), take, old(q[k..]))
      ensures taken == old(taken) + take <= |InBand(log)| && old(Flat(q[..k])) == InBand(log)[old(taken)..taken]
      ensures clean && Latched(oob) ==> old(Latched(oob)) && markDist == old(markDist) - take
    {
      hide Credit, MarkExact, InBand, Flat, Word, Wire, Add32, Pbufs;
      RunSplit(q, k);
      ConsumeReads(View(), take);
      PbufsTail(q, k);
      Unlink(take, q[k..], owed);
    }

    /** One turn of the drain loop: a whole run with the lock released for the copy, or part of the head in place. */
    method DrainTurn(room: nat, ghost owed: nat) returns (out: Bytes, ghost t: Turn)
      requires Valid(owed) && room > 0 && q != [] && Clamped(room)
      modifies this
      ensures |out| <= room && Valid(owed + |out|) && Clamped(room - |out|) && Took(|out|) && slept == old(slept)
      ensures out == InBand(log)[old(taken)..taken]
      ensures |out| == 0 ==> old(|q[0]|) <= room && q != [] && |q[0]| > room
      ensures TurnOk(old(View()), t, room) && t.n == |out| && View() == Relock(old(View()), t)
      ensures Windowed(Consume(old(View()), t.n, t.rest), t.during)
    {
      hide Credit, MarkExact, InBand, Flat, Wire, Add32, Copying;
      var k, take := FitRun(room);
      assert q[..|q|] == q;
      ghost var s := View();
      if k == 0 {
        out := PartialConsume(room, owed);
        t := Turn(room, [s.q[0][room..]] + s.q[1..], []);
        CopyingNone(View());
      } else {
        ghost var ds;
        out, ds := TakeRun(k, take, owed);
        t := Turn(take, s.q[k..], ds);
      }
      assert Shaped(s.q, t, room, k);
    }

    /** The drain loop of one pass; ts are its turns. */
    method Drain(room: nat) returns (out: Bytes, ghost ts: seq<Turn>)
      requires Valid(0) && Clamped(room)
      modifies this
      ensures |out| <= room && Valid(|out|) && Took(|out|) && (|out| < room ==> q == []) && slept == old(slept)
      ensures out == InBand(log)[old(taken)..taken]
      ensures Leads(old(View()), ts, room, View()) && Sum(ts) == |out| && (room == 0 ==> View() == old(View()))
    {
      hide Conserves, Credit, MarkExact, InBand, Flat, Pbufs, Leads, TurnOk, Relock, Windowed, Consume;
      out, ts := [], [];
      assert Leads(View(), [], room, View()) by { NoTurn(View(), room); }
      while |out| < room && q != []
        invariant |out| <= room && Valid(|out|) && Clamped(room - |out|) && Took(|out|) && slept == old(slept)
        invariant out == InBand(log)[old(taken)..taken]
        invariant Leads(old(View()), ts, room, View()) && Sum(ts) == |out| && (room == 0 ==> View() == old(View()))
        decreases room - |out|, q != [] && |q[0]| <= room - |out|
      {
        ghost var was, s := InBand(log), View();
        var more;
        ghost var t;
        more, t := DrainTurn(room - |out|, |out|);
        OneMoreTurn(old(View()), ts, room, s, t);
        Splice(was, InBand(log), old(taken), old(taken) + |out|, taken);
        out, ts := out + more, ts + [t];
      }
    }

    /**
     The reader stopped at a mark latched when its last pass began, having taken
     just the bytes before it: at a place where a mark was latched, unless one came
     during a copy; and with nothing taken at all, in front of the mark there is.
     */
    ghost predicate AtMark(got: nat)
      reads this
    {
      && (exists s, ts :: StoppedAtMark(s, ts, View()))
      && (clean ==> taken in marks)
      && (got == 0 ==> (oob == Have || oob == Read) && markDist == 0)
    }

    lemma {:induction false} Stops(s: Rx, ts: seq<Turn>, got: nat)
      requires (s.oob == Have || s.oob == Read) && Turns(s, ts, s.markDist) && Sum(ts) == s.markDist
      requires View() == Along(s, ts, s.markDist).(credited := credited)
      requires (clean ==> taken in marks) && (got == 0 ==> Latched(oob) && markDist == 0)
      ensures AtMark(got)
    {
      hide Turns, Along, Sum;
      assert StoppedAtMark(s, ts, View());
    }

    /** tcp_recved takes a 16-bit count. */
    method Recved(n: u16)
      requires live
      modifies `credited
      ensures credited == old(credited) + n
    {
      credited := credited + n;
    }

    /** One window update for the whole pass, in 16-bit pieces, while the connection exists. */
    method FlushWindow(owed: nat)
      requires Valid(owed)
      modifies `credited
      ensures Valid(0) && View() == old(View()).(credited := credited)
    {
      hide Conserves, MarkExact, Wire, InBand, Pbufs;
      var acked := owed;
      ghost var s := View();
      while acked > 0 && live
        invariant 0 <= acked <= owed && credited == old(credited) + owed - acked
      {
        var n := if acked > 0xFFFF then 0xFFFF else acked;
        Recved(n);
        acked := acked - n;
      }
      assert View() == s.(credited := credited);
      CreditAside(s, credited);
    }

    /** The clamp of one pass. */
    method Limit(room: nat, peek: bool) returns (lim: nat, hitmark: bool)
      ensures (lim, hitmark) == Clamp(View(), room, peek)
    {
      lim, hitmark := room, false;
      if Latched(oob) && (markDist > 0 || !peek) && markDist <= room {
        lim, hitmark := markDist, true;
      }
    }

    /** One pass: drain up to the request or the mark, then update the window; stop says the mark was reached. */
    method Pass(room: nat) returns (out: Bytes, stop: bool, ghost ts: seq<Turn>)
      requires Valid(0)
      modifies this
      ensures var s, lim := old(View()), Clamp(old(View()), room, false).0;
        && Turns(s, ts, lim) && View() == Along(s, ts, lim).(credited := credited)
        && (room < M32 ==> (Crosses(s, ts, lim) <==> LateMark(s, ts, lim)))
      ensures |out| <= room && Valid(0) && Took(|out|) && (|out| < room && !stop ==> q == []) && slept == old(slept)
      ensures |out| == room || q == [] || AtMark(|out|)
      ensures stop ==> AtMark(|out|)
      ensures !stop ==> |out| >= room || |out| >= old(bytes)
      ensures |out| >= Least(room, old(bytes), if old(Latched(oob)) then old(markDist) else room)
      ensures out == InBand(log)[old(taken)..taken]
      ensures stop ==> old(Latched(oob)) && |out| == old(markDist)
    {
      assert clean && Latched(oob) ==> taken + markDist == mark;
      hide Conserves, Credit, MarkExact, InBand, Flat, Pbufs, Turns, Along, Crosses, LateMark, AtMark, Valid, Clamp, Least;
      ghost var s := View();
      var lim, hitmark := Limit(room, false);
      ClampIs(s, room);
      out, ts := DrainTo(lim);
      PassAmount(s, room, |out|);
      if room < M32 {
        PassCrossesIff(s, ts, room);
      }
      stop := hitmark && |out| >= lim;
      if stop {
        Stops(s, ts, |out|);
      }
    }

    /** Drain up to lim bytes, and one window update for them. */
    method DrainTo(lim: nat) returns (out: Bytes, ghost ts: seq<Turn>)
      requires Valid(0) && Clamped(lim)
      modifies this
      ensures |out| <= lim && Valid(0) && Took(|out|) && slept == old(slept) && out == InBand(log)[old(taken)..taken]
      ensures |out| < lim ==> q == [] && bytes == 0 && |out| >= old(bytes)
      ensures Turns(old(View()), ts, lim) && Sum(ts) == |out|
      ensures View() == Along(old(View()), ts, lim).(credited := credited)
      ensures lim == 0 ==> View() == old(View()).(credited := credited)
    {
      hide Conserves, Credit, MarkExact, InBand, Flat, Pbufs, Turns, Along;
      out, ts := Drain(lim);
      assert |out| < lim ==> bytes == 0 by { EmptyQueue(View()); }
      FlushWindow(|out|);
    }

    /**
     Sleep until something is queued or there is a reason to return. pending is
     the socket error as the reader found it, waited the result of an unsuccessful
     sleep; patience bounds the sleeps.
     */
    method WaitData(some: bool, waitall: bool, dontwait: bool, patience: nat)
      returns (go: bool, errno: nat, left: nat, ghost pending: nat, ghost waited: nat)
      requires Valid(0)
      modifies this
      ensures Valid(0) && Took(0) && (go ==> q != [] && errno == 0)
      ensures left <= patience && (old(q) == [] && go ==> left < patience)
      ensures old(q) != [] ==> go && View() == old(View()) && clean == old(clean)
      ensures !go && waited == 0 ==>
        Reason(rxeof || shutRd, pending, live, connected, some, waitall, dontwait) == Some(errno) && q == []
      ensures !go && waited != 0 ==> errno == if some then 0 else waited
      ensures !go && waited != 0 ==> old(slept) < slept && slept[|slept| - 1] == waited
      ensures err == if waited == 0 && errno != 0 && pending != 0 then 0 else pending
      ensures old(slept) <= slept && (dontwait || old(q) != [] || (some && !waitall) ==> slept == old(slept) && waited == 0)
    {
      hide Conserves, Credit, MarkExact, InBand, Flat, Pbufs;
      left, waited := patience, 0;
      while q == []
        invariant Valid(0) && Took(0) && left <= patience && (left == patience ==> q == old(q))
        invariant old(q) != [] ==> View() == old(View()) && clean == old(clean)
        invariant old(slept) <= slept && (dontwait || old(q) != [] || (some && !waitall) ==> slept == old(slept)) && waited == 0
        decreases left
      {
        pending := err;
        if rxeof || shutRd {
          return false, 0, left, pending, 0;
        }
        if err != 0 {
          if some {
            return false, 0, left, pending, 0;
          }
          errno := err;
          err := 0;
          return false, errno, left, pending, 0;
        }
        if !live {
          return false, 0, left, pending, 0;
        }
        if !connected {
          return false, if some then 0 else ENOTCONN, left, pending, 0;
        }
        if some && !waitall {
          return false, 0, left, pending, 0;
        }
        if dontwait {
          return false, if some then 0 else EWOULDBLOCK, left, pending, 0;
        }
        ghost var _ := Env(0, false);
        var we := SleepResult(left == 0);
        if we != 0 {
          pending := err;
          return false, if some then 0 else we, left, pending, we;
        }
        left := left - 1;
      }
      return true, 0, left, err, 0;
    }

    /** sb_wait_to: woken, broken off, or timed out; the last sleep the caller has patience for does not succeed. */
    method SleepResult(last: bool) returns (we: nat)
      requires Valid(0)
      modifies `slept
      ensures Valid(0) && slept == old(slept) + [we] && (we == 0 || we == EINTR || we == EWOULDBLOCK) && (last ==> we != 0)
    {
      hide Conserves, Credit, MarkExact, InBand, Flat, Pbufs;
      we := *;
      if we != 0 && we != EINTR {
        we := EWOULDBLOCK;
      }
      if last && we == 0 {
        we := EINTR;
      }
      slept := slept + [we];
    }

    /** A consuming read that starts at the mark passes it. */
    method ClearMark()
      requires Valid(0)
      modifies `oob
      ensures Valid(0) && oob == Nothing
    {
      hide InBand, Flat, Wire, Pbufs;
      oob := Nothing;
    }

    /** A non-destructive copy from the head of the queue. */
    method Peek(want: nat) returns (buf: Bytes)
      requires Valid(0)
      ensures |buf| == Least(want, bytes, 0xFFFF) && buf == InBand(log)[taken..taken + |buf|]
    {
      var n := if want > bytes then bytes else want;
      n := if n > 0xFFFF then 0xFFFF else n;
      ConsumeReads(View(), n);
      hide InBand, Flat, Wire;
      var all := CopyRun(q);
      buf := all[..n];
    }

    /** A reader that has got bytes so far finds nothing queued and a reason not to sleep; errno goes with it. */
    ghost predicate Dry(got: nat, waitall: bool, dontwait: bool, errno: nat)
      reads this
    {
      q == [] && exists pending: nat :: DryWith(pending, got, waitall, dontwait, errno)
    }

    /** pending is the socket error as the reader found it; it is cleared exactly if it was reported. */
    ghost predicate DryWith(pending: nat, got: nat, waitall: bool, dontwait: bool, errno: nat)
      reads this
    {
      && Reason(rxeof || shutRd, pending, live, connected, got > 0, waitall, dontwait) == Some(errno)
      && err == if errno != 0 && pending != 0 then 0 else pending
    }

    /** Its last sleep was broken off or timed out. */
    twostate predicate Woken(got: nat, errno: nat)
      reads this
    {
      old(slept) < slept && slept[|slept| - 1] != 0 && errno == if got > 0 then 0 else slept[|slept| - 1]
    }

    /** The consuming read: passes until the request is met, the mark is reached or there is nothing to wait for. */
    method Take(len: nat, waitall: bool, dontwait: bool, patience: nat) returns (buf: Bytes, errno: nat)
      requires Valid(0)
      modifies this
      ensures Valid(0) && |buf| <= len && (errno != 0 ==> buf == [])
      ensures Took(|buf|) && buf == InBand(log)[old(taken)..taken]
      ensures old(q) != [] ==>
        errno == 0 && |buf| >= Least(len, old(bytes), if old(Latched(oob)) then old(markDist) else len)
      ensures errno != 0 || |buf| < len ==>
        || (errno == 0 && AtMark(|buf|))
        || (errno == 0 && !waitall && |buf| > 0 && q == [])
        || Dry(|buf|, waitall, dontwait, errno) || Woken(|buf|, errno)
      ensures old(slept) <= slept && (dontwait || (old(q) != [] && !waitall) ==> slept == old(slept))
    {
      hide Conserves, Credit, MarkExact, InBand, Flat, Pbufs, Turns, Along, Crosses, LateMark, Clamp, StoppedAtMark;
      buf, errno := [], 0;
      var left := patience;
      ghost var turned := false;
      while true
        invariant Valid(0) && Took(|buf|) && |buf| <= len && errno == 0
        invariant buf == InBand(log)[old(taken)..taken]
        invariant !turned ==> buf == [] && View() == old(View()) && slept == old(slept)
        invariant turned ==> waitall && |buf| > 0
        invariant turned && old(q) != [] ==> |buf| >= Least(len, old(bytes), if old(Latched(oob)) then old(markDist) else len)
        invariant old(slept) <= slept && (dontwait || (old(q) != [] && !waitall) ==> slept == old(slept))
        decreases left, q != []
      {
        var go;
        ghost var was, pending, waited, before := InBand(log), 0, 0, slept;
        go, errno, left, pending, waited := WaitData(|buf| > 0, waitall, dontwait, left);
        Splice(was, InBand(log), old(taken), taken, taken);
        if !go {
          assert waited == 0 ==> DryWith(pending, |buf|, waitall, dontwait, errno);
          return;
        }
        EmptyQueue(View());
        was := InBand(log);
        var more, stop;
        ghost var ts;
        more, stop, ts := Pass(len - |buf|);
        Splice(was, InBand(log), old(taken), old(taken) + |buf|, taken);
        buf := buf + more;
        turned := true;
        if stop || |buf| >= len || !waitall {
          return;
        }
      }
    }

    /**
     The blocking read without MSG_OOB. A consuming read returns the next bytes of
     the in-band stream, nothing lost, repeated or reordered; every byte it takes
     is credited to the window before it returns; and unless a mark was latched
     while it copied unlocked, a mark that is latched when it returns has not been
     crossed. With data queued it takes all of it, up to the request or the mark
     ahead, and no error. It returns less than the request only at a mark; with
     something read, nothing left and no MSG_WAITALL; for a reason found with the
     queue empty; or after a sleep that was broken off. It does not sleep when it
     may not, nor, without MSG_WAITALL, when data is there.
     */
    method Recv(len: nat, peek: bool, waitall: bool, dontwait: bool, patience: nat) returns (buf: Bytes, errno: nat)
      requires Valid(0)
      modifies this
      ensures Valid(0) && |buf| <= len && (errno != 0 ==> buf == [])
      ensures clean && (oob == Have || oob == Read) ==> taken <= mark
      ensures live ==> |Wire(log)| == credited + bytes
      ensures !peek ==> Took(|buf|) && buf == InBand(log)[old(taken)..taken]
      ensures !peek && old(q) != [] ==>
        errno == 0 && |buf| >= Least(len, old(bytes), if old((oob == Have || oob == Read) && markDist > 0) then old(markDist) else len)
      ensures !peek && (errno != 0 || |buf| < len) ==>
        || (errno == 0 && AtMark(|buf|))
        || (errno == 0 && !waitall && |buf| > 0 && q == [])
        || Dry(|buf|, waitall, dontwait, errno) || Woken(|buf|, errno)
      ensures peek ==> Took(0) && |buf| <= bytes && buf == InBand(log)[taken..taken + |buf|]
      ensures peek ==>
        || (errno == 0 && |buf| == Least(if (oob == Have || oob == Read) && 0 < markDist <= len then markDist else len, bytes, 0xFFFF))
        || (buf == [] && (Dry(0, waitall, dontwait, errno) || Woken(0, errno)))
      ensures peek && old(q) != [] ==>
        View() == old(View()) && errno == 0
        && |buf| == Least(if (oob == Have || oob == Read) && 0 < markDist <= len then markDist else len, bytes, 0xFFFF)
      ensures old(slept) <= slept && (dontwait || (old(q) != [] && (peek || !waitall)) ==> slept == old(slept))
    {
      hide Conserves, InBand, Flat, Pbufs, Wire, AtMark;
      if peek {
        buf := [];
        var go, left;
        ghost var pending, waited;
        go, errno, left, pending, waited := WaitData(false, waitall, dontwait, patience);
        if go {
          var lim, _ := Limit(len, true);
          buf := Peek(lim);
        } else {
          assert waited == 0 ==> DryWith(pending, 0, waitall, dontwait, errno);
        }
      } else {
        if markDist == 0 && Latched(oob) {
          ClearMark();
        }
        buf, errno := Take(len, waitall, dontwait, patience);
      }
    }

    /** MSG_OOB: the excised byte, once; a mark whose byte is still in flight is waited for. */
    method RecvOob(len: nat, peek: bool, dontwait: bool, patience: nat)
      returns (out: Option<byte>, errno: nat, ghost pending: nat, ghost waited: nat)
      requires Valid(0)
      modifies this
      ensures Valid(0) && Took(0) && (out.Some? <==> errno == 0)
      ensures out.Some? ==> !oobInline && out.value == oobByte && oob == if peek then Have else Read
      ensures old(oobInline || len < 1 || oob == Nothing || oob == Read) ==> errno == EINVAL && View() == old(View())
      ensures old(!oobInline && oob == Have) && len >= 1 ==>
        out == Some(old(oobByte)) && View() == old(View()).(oob := if peek then Have else Read)
      ensures out.None? ==>
        if waited == 0 then errno == OobReason(oobInline || len < 1, oob, pending, rxeof || shutRd || !live, dontwait)
        else waited == errno && Woken(0, errno)
      ensures err == if out.None? && waited == 0 && !oobInline && len >= 1 && oob == Marked && pending != 0 then 0 else pending
      ensures dontwait || old(oob != Marked) ==> slept == old(slept)
    {
      hide Conserves, Credit, InBand, Flat, Pbufs;
      if oobInline || len < 1 {
        return None, EINVAL, err, 0;
      }
      var left := patience;
      while oob != Have
        invariant Valid(0) && Took(0) && !oobInline
        invariant View() == old(View()) || old(oob == Have || oob == Marked)
        invariant (dontwait || old(oob != Marked) ==> slept == old(slept) && View() == old(View())) && old(slept) <= slept
        invariant old(oob) == Have ==> View() == old(View())
        decreases left
      {
        pending := err;
        if oob != Marked {
          return None, EINVAL, pending, 0;
        }
        if err != 0 {
          errno := err;
          err := 0;
          return None, errno, pending, 0;
        }
        if rxeof || shutRd || !live {
          return None, EINVAL, pending, 0;
        }
        if dontwait {
          return None, EWOULDBLOCK, pending, 0;
        }
        ghost var _ := Env(0, false);
        var we := SleepResult(left == 0);
        if we != 0 {
          return None, we, err, we;
        }
        left := left - 1;
      }
      out, errno, pending, waited := Some(oobByte), 0, err, 0;
      if !peek {
        ReadMark();
      }
    }

    method ReadMark()
      requires Valid(0) && oob == Have
      modifies `oob
      ensures Valid(0) && oob == Read
    {
      hide InBand, Flat, Wire, Pbufs;
      oob := Read;
    }
  }
}
