/**
 Whole-datagram transmit admission and the transmit-room wake
 (port/amiga/netif_base.c, the waiter list of src/bsdsocket/sb_socket.c and
 sb_dgram_room of src/bsdsocket/sb_io.c). Every step runs under the core lock.
 */
module TxCapacity {

  /** Largest IPv4 payload past the IP header: a maximum UDP datagram and its header. */
  const MAX_L3 := 65515

  /** Frames one datagram takes at mtu; every fragment but the last is a multiple of 8. */
  function Frames(l3len: nat, mtu: nat): (n: nat)
    requires mtu >= 28
    ensures n >= 1
  {
    if l3len + 20 <= mtu then 1 else
    var per := (mtu - 20) / 8 * 8;
    assert (l3len + per - 1) / per >= 1 by { AtLeastOne(l3len + per - 1, per); }
    (l3len + per - 1) / per
  }

  lemma {:induction false} AtLeastOne(a: nat, n: nat)
    requires a >= n > 0
    ensures a / n >= 1
  {
  }

  lemma {:induction false} DivMono(a: nat, b: nat, n: nat)
    requires a <= b && n > 0
    ensures a / n <= b / n
  {
    var p, q := a / n, b / n;
    MulMono(n, q + 1, if p > q then p else q + 1);
  }

  lemma {:induction false} MulMono(n: nat, a: nat, b: nat)
    requires a <= b
    ensures n * a <= n * b
  {
  }

  lemma {:induction false} FramesMono(a: nat, b: nat, mtu: nat)
    requires a <= b && mtu >= 28
    ensures Frames(a, mtu) <= Frames(b, mtu)
  {
    var per := (mtu - 20) / 8 * 8;
    DivMono(a + per - 1, b + per - 1, per);
  }

  lemma {:induction false} CeilLeast(a: nat, n: nat)
    requires a > 0 && n > 0
    ensures var q := (a + n - 1) / n; (q - 1) * n < a <= q * n
  {
    var x := a + n - 1;
    var q, r := x / n, x % n;
    assert x == q * n + r;
    assert (q - 1) * n == q * n - n;
  }

  /**
   The count is the least number of fragments that carry the datagram, each but
   the last filled to per bytes, the largest multiple of 8 that fits the MTU.
   */
  lemma {:induction false} FramesLeast(l3len: nat, mtu: nat, per: nat)
    requires mtu >= 28 && per % 8 == 0 && per <= mtu - 20 < per + 8
    ensures l3len + 20 <= mtu ==> Frames(l3len, mtu) == 1
    ensures l3len + 20 > mtu ==> (Frames(l3len, mtu) - 1) * per < l3len <= Frames(l3len, mtu) * per
  {
    assert per == (mtu - 20) / 8 * 8;
    if l3len + 20 > mtu {
      CeilLeast(l3len, per);
    }
  }

  lemma {:induction false} FramesBound(mtu: nat)
    requires mtu >= 28
    ensures Frames(MAX_L3, mtu) <= MAX_L3
  {
    CeilBound(MAX_L3, (mtu - 20) / 8 * 8);
  }

  lemma {:induction false} CeilBound(a: nat, n: nat)
    requires n > 0
    ensures (a + n - 1) / n <= a
  {
    var q := (a + n - 1) / n;
    assert n * q <= a + n - 1;
    MulMono(n, a + 1, if q > a then q else a + 1);
    assert n * (a + 1) == n * a + n;
    MulMono(a, 1, n);
  }

  type Sock = nat

  /** A datagram socket, or a TCP socket: connecting, no longer able to send, connected, and its send room. */
  datatype Kind = Dgram | Tcp(connecting: bool, finished: bool, connected: bool, room: nat)

  /** The interface's capacity, the one-shot wake flag and the senders waiting for room. */
  datatype Cap = Cap(active: bool, mtu: nat, capacity: nat, free: nat, want: bool, waiters: seq<Sock>, woken: seq<Sock>)

  function MaxFrames(mtu: nat): nat requires mtu >= 28 { Frames(MAX_L3, mtu) }

  predicate Sized(c: Cap) { c.mtu >= 28 && (c.active ==> c.free <= c.capacity && MaxFrames(c.mtu) + 8 <= c.capacity) }

  datatype Step =
    | Room(s: Sock, l3len: nat, local: bool, dontwait: bool) // one pass of sb_dgram_room
    | Poll(s: Sock)                                          // select() on a datagram socket
    | Taken                                                  // the backend queued a frame
    | Freed                                                  // the backend got a slot back
    | Detach
    | Attach(mtu: nat, capacity: nat)
    | Close(s: Sock)

  predicate Admits(c: Cap, l3len: nat, local: bool)
    requires c.mtu >= 28
  {
    !c.active || local || Frames(l3len, c.mtu) <= c.free
  }

  predicate Writable(c: Cap)
    requires c.mtu >= 28
  {
    !c.active || c.free >= MaxFrames(c.mtu)
  }

  function Enrol(c: Cap, s: Sock): Cap {
    c.(waiters := if s in c.waiters then c.waiters else c.waiters + [s], want := c.want || c.active)
  }

  function Wake(c: Cap): Cap {
    if c.want then c.(want := false, woken := c.woken + c.waiters, waiters := []) else c
  }

  function Without(ws: seq<Sock>, s: Sock): (r: seq<Sock>)
    ensures forall x :: x in r <==> x in ws && x != s
  {
    if ws == [] then [] else (if ws[0] == s then [] else [ws[0]]) + Without(ws[1..], s)
  }

  predicate Enabled(c: Cap, e: Step) {
    match e
    case Taken => c.active && c.free > 0
    case Freed => c.active && c.free < c.capacity
    case Attach(mtu, capacity) => !c.active && mtu >= 28 && MaxFrames(mtu) + 8 <= capacity
    case _ => true
  }

  function Next(c: Cap, e: Step): (r: Cap)
    requires Sized(c) && Enabled(c, e)
    ensures Sized(r)
  {
    match e
    case Room(s, l3len, local, dontwait) => if Admits(c, l3len, local) || dontwait then c else Enrol(c, s)
    case Poll(s) => if Writable(c) then c else Enrol(c, s)
    case Taken => c.(free := c.free - 1)
    case Freed =>
      var r := c.(free := c.free + 1);
      if c.free < MaxFrames(c.mtu) <= r.free then Wake(r) else r
    case Detach => Wake(c.(active := false))
    case Attach(mtu, capacity) => c.(active := true, mtu := mtu, capacity := capacity, free := capacity)
    case Close(s) => c.(waiters := Without(c.waiters, s))
  }

  /** A sender that waits is owed a wake that is armed and still ahead. */
  predicate NoLostWake(c: Cap) {
    Sized(c) && (c.waiters != [] ==> c.want && c.active && c.free < MaxFrames(c.mtu))
  }

  /** The steps of senders whose datagram a maximum-size wake also makes room for. */
  predicate Bounded(c: Cap, e: Step) {
    c.mtu >= 28 && (e.Room? ==> Frames(e.l3len, c.mtu) <= MaxFrames(c.mtu))
  }

  lemma {:induction false} StepKeepsWake(c: Cap, e: Step)
    requires NoLostWake(c) && Enabled(c, e) && Bounded(c, e)
    ensures NoLostWake(Next(c, e))
    ensures e.Detach? ==> Next(c, e).waiters == [] && Next(c, e).woken == c.woken + c.waiters
    ensures e.Freed? && Next(c, e).free >= MaxFrames(c.mtu) ==> Next(c, e).waiters == []
    ensures e.Close? ==> forall s :: s in Next(c, e).waiters <==> s in c.waiters && s != e.s
  {
    hide Frames;
    if e.Close? && c.waiters == [] {
      assert Without([], e.s) == [];
    }
  }

  /** States visited by a run of steps from a bare stack. */
  ghost predicate Run(cs: seq<Cap>, es: seq<Step>) {
    && |cs| == |es| + 1 && cs[0] == Cap(false, 28, 0, 0, false, [], [])
    && forall i :: 0 <= i < |es| ==> Sized(cs[i]) && Enabled(cs[i], es[i]) && cs[i + 1] == Next(cs[i], es[i])
  }

  /**
   No lost wake: in every run whose datagrams are at most MAX_L3 long, whenever
   the lock is free a waiting sender implies an armed wake, an active interface
   and less room than the wake's threshold.
   */
  lemma {:induction false} NeverLosesWake(cs: seq<Cap>, es: seq<Step>, i: nat)
    requires Run(cs, es) && i < |cs|
    requires forall j :: 0 <= j < |es| && es[j].Room? ==> es[j].l3len <= MAX_L3
    ensures NoLostWake(cs[i])
    decreases i
  {
    hide Frames, Next;
    if i > 0 {
      NeverLosesWake(cs, es, i - 1);
      if es[i - 1].Room? {
        FramesMono(es[i - 1].l3len, MAX_L3, cs[i - 1].mtu);
      }
      StepKeepsWake(cs[i - 1], es[i - 1]);
    }
  }

  /** Runs of one datagram size on interfaces of one MTU. */
  ghost predicate Uses(es: seq<Step>, l3len: nat, mtu: nat) {
    forall i :: 0 <= i < |es| ==> (es[i].Room? ==> es[i].l3len == l3len) && (es[i].Attach? ==> es[i].mtu == mtu)
  }

  ghost predicate Lossless(cs: seq<Cap>) { forall i :: 0 <= i < |cs| ==> NoLostWake(cs[i]) }

  /** Every interface of a run has the run's MTU, or there is none yet. */
  lemma {:induction false} RunMtu(cs: seq<Cap>, es: seq<Step>, l3len: nat, mtu: nat, i: nat)
    requires Run(cs, es) && Uses(es, l3len, mtu) && i < |cs|
    ensures cs[i].mtu == mtu || (cs[i].mtu == 28 && !cs[i].active)
  {
    hide Frames;
    if i > 0 {
      RunMtu(cs, es, l3len, mtu, i - 1);
      assert cs[i] == Next(cs[i - 1], es[i - 1]);
    }
  }

  /** Without an interface nobody is refused, so the length does not matter. */
  lemma {:induction false} StepKeepsWakeAt(c: Cap, e: Step, l3len: nat, mtu: nat)
    requires mtu >= 28 && NoLostWake(c) && Enabled(c, e) && (e.Room? ==> e.l3len == l3len)
    requires c.mtu == mtu || !c.active
    requires Frames(l3len, mtu) <= MaxFrames(mtu)
    ensures NoLostWake(Next(c, e))
  {
    hide Frames;
    if e.Room? && !c.active {
      assert Next(c, e) == c;
    } else {
      StepKeepsWake(c, e);
    }
  }

  lemma {:induction false} ScopeKeeps(cs: seq<Cap>, es: seq<Step>, l3len: nat, mtu: nat, i: nat)
    requires mtu >= 28 && Run(cs, es) && Uses(es, l3len, mtu) && i < |cs| && Frames(l3len, mtu) <= MaxFrames(mtu)
    ensures NoLostWake(cs[i])
  {
    hide Frames, Next;
    if i > 0 {
      ScopeKeeps(cs, es, l3len, mtu, i - 1);
      RunMtu(cs, es, l3len, mtu, i - 1);
      assert Uses(es, l3len, mtu) && (es[i - 1].Room? ==> es[i - 1].l3len == l3len);
      StepKeepsWakeAt(cs[i - 1], es[i - 1], l3len, mtu);
    }
  }

  /**
   The exact scope of the wake, over runs: no run of datagrams of l3len bytes
   at mtu ever loses a wake, iff such a datagram takes no more frames than a
   maximum one. Datagrams of 65516 to 65543 bytes, which the socket layer also
   lets through, can take one more.
   */
  lemma {:induction false} WakeScope(l3len: nat, mtu: nat)
    requires mtu >= 28
    ensures (forall cs, es :: Run(cs, es) && Uses(es, l3len, mtu) ==> Lossless(cs)) <==> Frames(l3len, mtu) <= MaxFrames(mtu)
  {
    hide Frames;
    if Frames(l3len, mtu) <= MaxFrames(mtu) {
      forall cs, es | Run(cs, es) && Uses(es, l3len, mtu) ensures Lossless(cs) {
        forall i | 0 <= i < |cs| ensures NoLostWake(cs[i]) {
          ScopeKeeps(cs, es, l3len, mtu, i);
        }
      }
    } else {
      var cs, es := LosingRun(l3len, mtu);
      assert !Lossless(cs);
    }
  }

  /**
   Outside that scope, at every MTU: a datagram is refused with exactly a
   maximum one's frames free, every queued frame drains, and the sender still
   sleeps on an idle interface that would admit it.
   */
  lemma {:induction false} LosingRun(l3len: nat, mtu: nat) returns (cs: seq<Cap>, es: seq<Step>)
    requires mtu >= 28 && Frames(l3len, mtu) > MaxFrames(mtu)
    ensures Run(cs, es) && Uses(es, l3len, mtu) && !Lossless(cs)
    ensures var idle := cs[|es|]; idle.active && idle.mtu == mtu && idle.free == idle.capacity && idle.waiters == [7] && Admits(idle, l3len, false)
  {
    hide Frames;
    var m := MaxFrames(mtu);
    var k := Frames(l3len, mtu) + 8;
    var up := Cap(true, mtu, m + k, m + k, false, [], []);
    var down := up.(free := m, want := true, waiters := [7]);
    cs := [Cap(false, 28, 0, 0, false, [], [])] + seq(k + 1, i requires 0 <= i <= k => up.(free := m + k - i))
        + seq(k + 1, i requires 0 <= i <= k => down.(free := m + i));
    es := [Attach(mtu, m + k)] + seq(k, _ => Taken) + [Room(7, l3len, false, false)] + seq(k, _ => Freed);
    forall i | 0 <= i < |es| ensures Sized(cs[i]) && Enabled(cs[i], es[i]) && cs[i + 1] == Next(cs[i], es[i]) {
      if i == 0 {
      } else if i <= k {
        assert cs[i] == up.(free := m + k - (i - 1)) && es[i] == Taken && cs[i + 1] == up.(free := m + k - i);
      } else if i == k + 1 {
        assert cs[i] == up.(free := m) && cs[i + 1] == down;
      } else {
        assert cs[i] == down.(free := m + (i - k - 2)) && es[i] == Freed && cs[i + 1] == down.(free := m + (i - k - 1));
      }
    }
    assert cs[|es|] == down.(free := m + k);
    assert !NoLostWake(cs[|es|]);
  }

  // ---- the MTUs for which the arithmetic is defined ----

  /** Payload of a fragment as the code computes it, in 32-bit unsigned arithmetic. */
  function FragmentBytes(mtu: nat): nat
    requires mtu < 0x1_0000_0000
  {
    (mtu + 0x1_0000_0000 - 20) % 0x1_0000_0000 / 8 * 8
  }

  /** The frame count as the code computes it, every sum cut to 32 bits. */
  function Frames32(l3len: nat, mtu: nat): int
    requires mtu < 0x1_0000_0000 && FragmentBytes(mtu) != 0
  {
    if (l3len + 20) % 0x1_0000_0000 <= mtu then 1
    else (l3len + FragmentBytes(mtu) - 1) % 0x1_0000_0000 / FragmentBytes(mtu)
  }

  /**
   Any positive MTU is accepted from a configuration. Exactly for 20 to 27 the
   divisor of the frame count is zero, and setting the interface up divides by
   it; from 28 on it is the fragment payload Frames uses; below 20 it is less
   than 25 short of 2^32.
   */
  lemma {:induction false} DivisorZeroIff(mtu: nat)
    requires 0 < mtu < 0x1_0000_0000
    ensures FragmentBytes(mtu) == 0 <==> 20 <= mtu <= 27
    ensures 20 <= mtu <= 27 ==> MAX_L3 + 20 > mtu
    ensures mtu >= 28 ==> FragmentBytes(mtu) == (mtu - 20) / 8 * 8
    ensures mtu < 20 ==> FragmentBytes(mtu) == 0x1_0000_0000 - Slack(mtu)
  {
    if mtu >= 20 {
      assert (mtu + 0x1_0000_0000 - 20) % 0x1_0000_0000 == mtu - 20;
    } else {
      assert (mtu + 0x1_0000_0000 - 20) % 0x1_0000_0000 == mtu + 0x1_0000_0000 - 20;
    }
  }

  /** For an MTU below 20: the longest datagram whose frame count is not yet zero. */
  function Slack(mtu: nat): (n: nat)
    requires mtu < 20
    ensures n == if mtu < 4 then 24 else if mtu < 12 then 16 else 8
  {
    24 - (mtu + 4) / 8 * 8
  }

  lemma {:induction false} QuotientZero(a: nat, n: nat)
    requires n > 0
    ensures a / n == 0 <==> a < n
  {
    if a >= n {
      AtLeastOne(a, n);
    }
  }

  /** For all 32-bit lengths: the count is zero iff the rounded-up length is empty or wraps. */
  lemma {:induction false} CountZeroIff(l3len: nat, mtu: nat)
    requires 0 < mtu < 0x1_0000_0000 && l3len < 0x1_0000_0000 && FragmentBytes(mtu) != 0
    ensures Frames32(l3len, mtu) == 0 <==>
      (l3len + 20) % 0x1_0000_0000 > mtu && (l3len == 0 || l3len + FragmentBytes(mtu) > 0x1_0000_0000)
  {
    var per := FragmentBytes(mtu);
    var sum := l3len + per - 1;
    assert per < 0x1_0000_0000;
    assert sum % 0x1_0000_0000 == if sum < 0x1_0000_0000 then sum else sum - 0x1_0000_0000;
    QuotientZero(sum % 0x1_0000_0000, per);
    hide FragmentBytes;
  }

  /**
   What that means for a datagram the socket layer lets through: it counts as no
   frame at all, so that admission never refuses it, iff the MTU is below 20 and
   the datagram longer than Slack(mtu); and from an MTU of 28 on the code's count
   is the one modelled.
   */
  lemma {:induction false} UngatedIff(l3len: nat, mtu: nat)
    requires 0 < l3len <= 65543 && 0 < mtu < 0x1_0000_0000 && !(20 <= mtu <= 27)
    ensures FragmentBytes(mtu) != 0
    ensures Frames32(l3len, mtu) == 0 <==> mtu < 20 && l3len > Slack(mtu)
    ensures mtu >= 28 ==> Frames32(l3len, mtu) == Frames(l3len, mtu)
  {
    DivisorZeroIff(mtu);
    CountZeroIff(l3len, mtu);
    if mtu >= 28 {
      SameCount(l3len, mtu);
    }
    assert (l3len + 20) % 0x1_0000_0000 == l3len + 20;
    hide FragmentBytes, Frames32, Frames;
  }

  lemma {:induction false} SameCount(l3len: nat, mtu: nat)
    requires 0 < l3len <= 65543 && 28 <= mtu < 0x1_0000_0000 && FragmentBytes(mtu) == (mtu - 20) / 8 * 8 != 0
    ensures Frames32(l3len, mtu) == Frames(l3len, mtu)
  {
    var per := FragmentBytes(mtu);
    hide FragmentBytes;
    assert (l3len + 20) % 0x1_0000_0000 == l3len + 20;
    if l3len + 20 > mtu {
      assert (l3len + per - 1) % 0x1_0000_0000 == l3len + per - 1;
    }
  }

  function Repeat(c: Cap, e: Step, n: nat): (r: Cap)
    requires Sized(c) && (e.Taken? || e.Freed?) && c.active
    requires if e.Taken? then n <= c.free else c.free + n <= c.capacity
    ensures Sized(r) && r.active && r.capacity == c.capacity && r.mtu == c.mtu
    ensures r.free == if e.Taken? then c.free - n else c.free + n
  {
    if n == 0 then c else Next(Repeat(c, e, n - 1), e)
  }

  lemma {:induction false} QuietRepeat(c: Cap, e: Step, n: nat)
    requires Sized(c) && Repeat.requires(c, e, n)
    requires e.Freed? ==> c.free >= MaxFrames(c.mtu)
    ensures Repeat(c, e, n) == c.(free := Repeat(c, e, n).free)
  {
    hide Frames;
    if n > 0 {
      QuietRepeat(c, e, n - 1);
    }
  }

  /**
   Outside that scope the wake is lost: at MTU 1044 a 65543-byte datagram is
   refused with 64 slots free, then every queued frame drains and the sender
   still sleeps on an idle interface.
   */
  lemma {:induction false} LostWake()
    ensures var up := Next(Cap(false, 28, 0, 0, false, [], []), Attach(1044, 128));
      var busy := Repeat(up, Taken, 64);
      var asleep := Next(busy, Room(7, 65543, false, false));
      var idle := Repeat(asleep, Freed, 64);
      idle.free == idle.capacity && idle.waiters == [7] && Admits(idle, 65543, false)
  {
    assert MaxFrames(1044) == 64 && Frames(65543, 1044) == 65;
    var up := Next(Cap(false, 28, 0, 0, false, [], []), Attach(1044, 128));
    var busy := Repeat(up, Taken, 64);
    QuietRepeat(up, Taken, 64);
    var asleep := Next(busy, Room(7, 65543, false, false));
    QuietRepeat(asleep, Freed, 64);
  }

  // ---- the accounting, in place ----

  class TxBase {
    var active: bool
    var mtu: nat
    var capacity: nat
    var free: nat
    var want: bool
    var waiters: seq<Sock>
    var woken: seq<Sock>

    ghost function View(): Cap reads this { Cap(active, mtu, capacity, free, want, waiters, woken) }

    /** netifbase_tx_setup on an interface that becomes active. */
    constructor (mtu: nat, capacity: nat)
      requires mtu >= 28
      ensures View() == Cap(true, mtu, capacity, capacity, false, [], [])
    {
      active, want, waiters, woken := true, false, [], [];
      this.mtu, this.capacity, free := mtu, capacity, capacity;
    }

    /** sb_tx_space_avail: wake every waiter, oldest first. */
    method SpaceAvail()
      modifies this`waiters, this`woken
      ensures waiters == [] && woken == old(woken) + old(waiters)
    {
      while waiters != []
        invariant woken + waiters == old(woken) + old(waiters)
        decreases |waiters|
      {
        var s := waiters[0];
        waiters := waiters[1..];
        woken := woken + [s];
      }
    }

    method TxWake()
      modifies this`want, this`waiters, this`woken
      ensures View() == old(Wake(View()))
    {
      if want {
        want := false;
        SpaceAvail();
      }
    }

    method TxTaken()
      requires Sized(View()) && Enabled(View(), Taken)
      modifies this`free
      ensures View() == old(Next(View(), Taken)) && free == old(free) - 1
    {
      free := free - 1;
    }

    method TxFreed()
      requires Sized(View()) && Enabled(View(), Freed)
      modifies this`free, this`want, this`waiters, this`woken
      ensures View() == old(Next(View(), Freed)) && free == old(free) + 1
    {
      var was := free;
      free := was + 1;
      if was < MaxFrames(mtu) && free >= MaxFrames(mtu) {
        TxWake();
      }
    }

    /** sb_tx_want_space: enrol, idempotently, and arm the wake while an interface exists. */
    method WantSpace(s: Sock)
      modifies this`want, this`waiters
      ensures View() == old(Enrol(View(), s))
    {
      if s !in waiters {
        waiters := waiters + [s];
      }
      if active {
        want := true;
      }
    }

    /** One pass of sb_dgram_room; admitted means the caller goes on holding the lock. */
    method DgramRoom(s: Sock, l3len: nat, local: bool, dontwait: bool) returns (admitted: bool)
      requires Sized(View())
      modifies this`want, this`waiters
      ensures View() == old(Next(View(), Room(s, l3len, local, dontwait)))
      ensures admitted == old(Admits(View(), l3len, local))
    {
      admitted := !active || local || Frames(l3len, mtu) <= free;
      if admitted || dontwait {
        return;
      }
      WantSpace(s);
    }

    /** A closing socket leaves the list wherever it stands in it. */
    method Closed(s: Sock)
      requires Sized(View())
      modifies this`waiters
      ensures View() == old(Next(View(), Close(s))) && s !in waiters
    {
      waiters := Without(waiters, s);
    }

    /** sb_sock_writable: err is the socket's pending error, k what kind of socket it is. */
    method SockWritable(s: Sock, err: nat, k: Kind) returns (ready: bool)
      requires Sized(View())
      modifies this`want, this`waiters
      ensures View() == if err == 0 && k.Dgram? then old(Next(View(), Poll(s))) else old(View())
      ensures err != 0 ==> ready
      ensures err == 0 && k.Dgram? ==> ready == old(Writable(View()))
      ensures err == 0 && k.Tcp? ==> (ready <==> !k.connecting && (k.finished || (k.connected && k.room > 0)))
    {
      if err != 0 {
        return true;
      }
      if k.Dgram? {
        ready := !active || free >= MaxFrames(mtu);
        if !ready {
          WantSpace(s);
        }
        return;
      }
      if k.connecting {
        return false;
      }
      if k.finished {
        return true;
      }
      if !k.connected {
        return false;
      }
      return k.room > 0;
    }

    method Detached()
      requires Sized(View())
      modifies this`active, this`want, this`waiters, this`woken
      ensures View() == old(Next(View(), Detach)) && !active
      ensures old(want) ==> waiters == [] && woken == old(woken + waiters)
    {
      active := false;
      TxWake();
    }
  }
}
