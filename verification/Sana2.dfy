/**
 The SANA-II backend's request traffic (port/amiga/sana2_tx.c,
 port/amiga/sana2_pump.c): write requests cycle through a free list, the staged
 batch and the driver; read requests through the driver, the pump's harvest,
 repost and the parked list. The driver, the pump and the tasks that send may
 take their steps in any order.
 */
module Sana2 {
  import opened Basics

  function Without(q: seq<nat>, k: nat): seq<nat>
    requires k < |q|
  {
    q[..k] + q[k + 1..]
  }

  lemma {:induction false} CountWithout(q: seq<nat>, k: nat, x: nat)
    requires k < |q|
    ensures Count(q, x) == Count(Without(q, k), x) + One(q[k] == x)
  {
    CountConcat(q[..k], q[k + 1..], x);
    CountConcat(q[..k], [q[k]] + q[k + 1..], x);
    assert q == q[..k] + ([q[k]] + q[k + 1..]);
    CountEnds(q[k + 1..], q[k], x);
  }

  // ---- the state ----

  /** A read as the driver finished it: in order, out of service, or in error; and whether its length is credible. */
  datatype Arrival = Arrival(r: nat, frame: nat, offline: bool, good: bool)

  datatype Item = WriteDone(w: nat) | ReadDone(a: Arrival) | EventDone

  /** What became of a finished read. */
  datatype Fate = Delivered(a: Arrival) | NoMemory(a: Arrival) | Error(a: Arrival) | Offline(a: Arrival) | Unwanted(a: Arrival)

  /** room is nib_TxFree; flags is stx_InFlight. */
  datatype Tx = Tx(free: seq<nat>, staged: seq<nat>, driver: seq<nat>, done: seq<nat>, inFlight: nat, room: nat, down: bool)

  /** srx_State. */
  datatype Mark = Flight | Parked | AtHome

  /** flight is s2p_Flight; chain is the harvest, unparked and repost what the pump is about to send. */
  datatype Rx = Rx(
    driver: seq<nat>, chain: seq<Arrival>, parked: seq<nat>, unparked: seq<nat>, repost: seq<nat>, home: seq<nat>,
    flight: nat, mark: map<nat, Mark>, fates: seq<Fate>, out: seq<nat>, noMem: nat, errors: nat)

  datatype Ev = AtDriver | OnPort | Harvested | Rearm | Home | Dead

  datatype Pump = Pump(tx: Tx, rx: Rx, port: seq<Item>, ev: Ev, held: bool, draining: bool, drained: bool, arrived: seq<Arrival>)

  // ---- what is on the port ----

  function Writes(port: seq<Item>): seq<nat> {
    if port == [] then [] else (if port[0].WriteDone? then [port[0].w] else []) + Writes(port[1..])
  }

  function Reads(port: seq<Item>): seq<Arrival> {
    if port == [] then [] else (if port[0].ReadDone? then [port[0].a] else []) + Reads(port[1..])
  }

  lemma {:induction false} PortHead(port: seq<Item>)
    requires port != []
    ensures Writes(port) == if port[0].WriteDone? then [port[0].w] + Writes(port[1..]) else Writes(port[1..])
    ensures Reads(port) == if port[0].ReadDone? then [port[0].a] + Reads(port[1..]) else Reads(port[1..])
  {
    assert [] + Writes(port[1..]) == Writes(port[1..]);
    assert [] + Reads(port[1..]) == Reads(port[1..]);
  }

  lemma {:induction false} PortSnoc(port: seq<Item>, i: Item)
    ensures Writes(port + [i]) == if i.WriteDone? then Writes(port) + [i.w] else Writes(port)
    ensures Reads(port + [i]) == if i.ReadDone? then Reads(port) + [i.a] else Reads(port)
  {
    PortHead(port + [i]);
    if port == [] {
      assert [] + [i] == [i] && [i][1..] == [];
    } else {
      assert (port + [i])[1..] == port[1..] + [i] && (port + [i])[0] == port[0];
      PortHead(port);
      PortSnoc(port[1..], i);
      hide Writes, Reads;
    }
  }

  function Ids(q: seq<Arrival>): seq<nat> { if q == [] then [] else [q[0].r] + Ids(q[1..]) }

  lemma {:induction false} IdsConcat(a: seq<Arrival>, b: seq<Arrival>)
    ensures Ids(a + b) == Ids(a) + Ids(b) && |Ids(a)| == |a|
  {
    if a == [] {
      assert a + b == b;
    } else {
      assert (a + b)[1..] == a[1..] + b;
      IdsConcat(a[1..], b);
    }
  }

  // ---- the steps ----

  datatype Step =
    | Lock
    | Unlock
    | Stage
    | FlushOne(quick: bool)
    | DriverWrite(k: nat)
    | DriverRead(k: nat, frame: nat, offline: bool, good: bool)
    | DriverEvent
    | Harvest
    | CompleteTx
    | HandleEvent(err: bool, online: bool)
    | RearmEvent
    | SendUnparked
    | Requeue(mem: bool)
    | Repost
    | SetDown
    | BeginDrain
    | TestDrained

  predicate Enabled(p: Pump, s: Step) {
    match s
    case Lock => !p.held
    case Unlock => p.held && p.tx.staged == []
    case Stage => p.held && !p.tx.down && p.tx.free != []
    case FlushOne(_) => p.held && p.tx.staged != []
    case DriverWrite(k) => k < |p.tx.driver|
    case DriverRead(k, _, _, _) => k < |p.rx.driver|
    case DriverEvent => p.ev == AtDriver
    case Harvest => p.port != []
    case CompleteTx => p.held && p.tx.done != []
    case HandleEvent(_, _) => p.held && p.ev == Harvested
    case RearmEvent => p.ev == Rearm && !p.draining
    case SendUnparked => p.rx.unparked != [] && !p.draining
    case Requeue(_) => p.held && p.rx.chain != []
    case Repost => p.rx.repost != []
    case SetDown => p.held
    case BeginDrain => p.tx.down && p.rx.unparked == [] && p.ev != Rearm
    case TestDrained => p.draining && !p.held && p.rx.repost == []
  }

  /** s2if_tx_retire. */
  function Retire(t: Tx, w: nat): Tx { t.(free := [w] + t.free, room := t.room + 1) }

  /** One frame staged in the first free request. */
  function StageOne(t: Tx): Tx
    requires t.free != []
  {
    t.(free := t.free[1..], staged := t.staged + [t.free[0]], room := if t.room > 0 then t.room - 1 else 0)
  }

  /** One staged request submitted: a synchronous driver finishes it in place, a queuing one keeps it. */
  function FlushStep(t: Tx, quick: bool): Tx
    requires t.staged != []
  {
    var w, rest := t.staged[0], t.(staged := t.staged[1..]);
    if quick then Retire(rest, w) else rest.(driver := rest.driver + [w], inFlight := rest.inFlight + 1)
  }

  /** s2if_tx_complete. */
  function CompleteOne(t: Tx): Tx
    requires t.done != []
  {
    Retire(t.(done := t.done[1..]), t.done[0]).(inFlight := if t.inFlight > 0 then t.inFlight - 1 else 0)
  }

  /** What a finished read comes to: unwanted while draining, parked while out of service, else delivered or counted. */
  function FateOf(a: Arrival, draining: bool, mem: bool): (f: Fate)
    ensures f.a == a
    ensures f.Delivered? <==> !draining && !a.offline && a.good && mem
    ensures f.Offline? <==> !draining && a.offline
    ensures f.Unwanted? <==> draining
    ensures f.Error? <==> !draining && !a.offline && !a.good
  {
    if draining then Unwanted(a)
    else if a.offline then Offline(a)
    else if !a.good then Error(a)
    else if mem then Delivered(a)
    else NoMemory(a)
  }

  predicate GoesBack(f: Fate) { f.Delivered? || f.NoMemory? || f.Error? }

  /** Take the first finished read off the harvest chain. */
  function RequeueOne(x: Rx, f: Fate): Rx
    requires x.chain != []
  {
    Rx(x.driver, x.chain[1..],
       if f.Offline? then [f.a.r] + x.parked else x.parked, x.unparked,
       if GoesBack(f) then x.repost + [f.a.r] else x.repost,
       if f.Unwanted? then x.home + [f.a.r] else x.home,
       if GoesBack(f) || x.flight == 0 then x.flight else x.flight - 1,
       x.mark[f.a.r := if f.Unwanted? then AtHome else if f.Offline? then Parked else Flight],
       x.fates + [f],
       if f.Delivered? then x.out + [f.a.frame] else x.out,
       x.noMem + One(f.NoMemory?), x.errors + One(f.Error?))
  }

  /** An ONLINE event: the parked reads are to be put back in service. */
  function Unpark(x: Rx): Rx { x.(unparked := x.unparked + x.parked, parked := []) }

  function NextTx(p: Pump, s: Step): Tx
    requires Enabled(p, s)
  {
    var t := p.tx;
    match s
    case Stage => StageOne(t)
    case FlushOne(quick) => FlushStep(t, quick)
    case DriverWrite(k) => t.(driver := Without(t.driver, k))
    case Harvest => if p.port[0].WriteDone? then t.(done := [p.port[0].w] + t.done) else t
    case CompleteTx => CompleteOne(t)
    case SetDown => t.(down := true)
    case _ => t
  }

  function NextRx(p: Pump, s: Step): Rx
    requires Enabled(p, s)
  {
    var x := p.rx;
    match s
    case DriverRead(k, _, _, _) => x.(driver := Without(x.driver, k))
    case Harvest => if p.port[0].ReadDone? then x.(chain := x.chain + [p.port[0].a]) else x
    case HandleEvent(err, online) => if !p.draining && !err && online then Unpark(x) else x
    case SendUnparked =>
      x.(unparked := x.unparked[1..], driver := x.driver + [x.unparked[0]], flight := x.flight + 1,
         mark := x.mark[x.unparked[0] := Flight])
    case Requeue(mem) => RequeueOne(x, FateOf(x.chain[0], p.draining, mem))
    case Repost => x.(repost := x.repost[1..], driver := x.driver + [x.repost[0]])
    case _ => x
  }

  function NextPort(p: Pump, s: Step): seq<Item>
    requires Enabled(p, s)
  {
    match s
    case DriverWrite(k) => p.port + [WriteDone(p.tx.driver[k])]
    case DriverRead(k, frame, offline, good) => p.port + [ReadDone(Arrival(p.rx.driver[k], frame, offline, good))]
    case DriverEvent => p.port + [EventDone]
    case Harvest => p.port[1..]
    case _ => p.port
  }

  function NextEv(p: Pump, s: Step): Ev
    requires Enabled(p, s)
  {
    match s
    case DriverEvent => OnPort
    case Harvest => if p.port[0].EventDone? then Harvested else p.ev
    case HandleEvent(err, _) => if p.draining then Home else if err then Dead else Rearm
    case RearmEvent => AtDriver
    case _ => p.ev
  }

  /** s2if_pump_drained's test. */
  predicate LooksDrained(p: Pump) { p.rx.flight == 0 && (p.ev == Home || p.ev == Dead) && p.tx.inFlight == 0 }

  function Next(p: Pump, s: Step): Pump
    requires Enabled(p, s)
  {
    Pump(NextTx(p, s), NextRx(p, s), NextPort(p, s), NextEv(p, s),
         if s.Lock? then true else if s.Unlock? then false else p.held,
         p.draining || s.BeginDrain?,
         p.drained || (s.TestDrained? && LooksDrained(p)),
         if s.DriverRead? then p.arrived + [Arrival(p.rx.driver[s.k], s.frame, s.offline, s.good)] else p.arrived)
  }

  // ---- conservation ----

  /** Write request w is in exactly one place. */
  ghost predicate WriteOnce(t: Tx, port: seq<Item>, w: nat, n: nat) {
    One(w < n) == Count(t.free, w) + Count(t.staged, w) + Count(t.driver, w) + Count(Writes(port), w) + Count(t.done, w)
  }

  /** The counters say what the lists hold. */
  ghost predicate TxCounts(t: Tx, port: seq<Item>) {
    t.inFlight == |t.driver| + |Writes(port)| + |t.done| && t.room == |t.free|
  }

  /** Read request r is in exactly one place. */
  ghost predicate ReadOnce(x: Rx, port: seq<Item>, r: nat, n: nat) {
    One(r < n) ==
      Count(x.driver, r) + Count(Ids(Reads(port)), r) + Count(Ids(x.chain), r) + Count(x.repost, r) +
      Count(x.parked, r) + Count(x.unparked, r) + Count(x.home, r)
  }

  ghost predicate RxCounts(x: Rx, port: seq<Item>) {
    x.flight == |x.driver| + |Reads(port)| + |x.chain| + |x.repost|
  }

  /** Read r's state says where it is. */
  ghost predicate MarkOk(x: Rx, r: nat, n: nat) {
    r < n ==> r in x.mark && x.mark[r] == if Count(x.parked, r) + Count(x.unparked, r) > 0 then Parked else if Count(x.home, r) > 0 then AtHome else Flight
  }

  lemma {:induction false} TxPortKeeps(p: Pump, s: Step, w: nat, n: nat)
    requires Enabled(p, s) && (s.DriverWrite? || s.DriverRead? || s.DriverEvent? || s.Harvest?)
    requires WriteOnce(p.tx, p.port, w, n) && TxCounts(p.tx, p.port)
    ensures WriteOnce(NextTx(p, s), NextPort(p, s), w, n) && TxCounts(NextTx(p, s), NextPort(p, s))
  {
    hide Count, Writes;
    match s
    case DriverWrite(k) =>
      PortSnoc(p.port, WriteDone(p.tx.driver[k]));
      CountWithout(p.tx.driver, k, w);
      CountEnds(Writes(p.port), p.tx.driver[k], w);
    case DriverRead(k, frame, offline, good) => PortSnoc(p.port, ReadDone(Arrival(p.rx.driver[k], frame, offline, good)));
    case DriverEvent => PortSnoc(p.port, EventDone);
    case Harvest =>
      PortHead(p.port);
      if p.port[0].WriteDone? {
        CountEnds(p.tx.done, p.port[0].w, w);
        CountEnds(Writes(p.port[1..]), p.port[0].w, w);
      }
  }

  lemma {:induction false} TxKeeps(p: Pump, s: Step, w: nat, n: nat)
    requires Enabled(p, s) && WriteOnce(p.tx, p.port, w, n) && TxCounts(p.tx, p.port)
    ensures WriteOnce(NextTx(p, s), NextPort(p, s), w, n) && TxCounts(NextTx(p, s), NextPort(p, s))
  {
    hide Count, Writes;
    var t := p.tx;
    match s
    case Stage =>
      CountHead(t.free, w);
      CountEnds(t.staged, t.free[0], w);
    case FlushOne(_) =>
      CountHead(t.staged, w);
      CountEnds(t.free, t.staged[0], w);
      CountEnds(t.driver, t.staged[0], w);
    case CompleteTx =>
      CountHead(t.done, w);
      CountEnds(t.free, t.done[0], w);
    case DriverWrite(_) => TxPortKeeps(p, s, w, n);
    case DriverRead(_, _, _, _) => TxPortKeeps(p, s, w, n);
    case DriverEvent => TxPortKeeps(p, s, w, n);
    case Harvest => TxPortKeeps(p, s, w, n);
    case _ =>
  }

  lemma {:induction false} IdsEnds(q: seq<Arrival>, a: Arrival, r: nat)
    ensures Count(Ids(q + [a]), r) == Count(Ids(q), r) + One(a.r == r)
    ensures q != [] ==> Count(Ids(q), r) == One(q[0].r == r) + Count(Ids(q[1..]), r)
    ensures Count(Ids([a] + q), r) == Count(Ids(q), r) + One(a.r == r)
  {
    IdsConcat(q, [a]);
    assert Ids([a]) == [a.r] by {
      assert [a][1..] == [];
    }
    CountEnds(Ids(q), a.r, r);
    IdsConcat([a], q);
    if q != [] {
      CountHead(Ids(q), r);
      assert Ids(q)[1..] == Ids(q[1..]);
    }
  }

  lemma {:induction false} RxPortKeeps(p: Pump, s: Step, r: nat, n: nat)
    requires Enabled(p, s) && (s.DriverWrite? || s.DriverRead? || s.DriverEvent? || s.Harvest?)
    requires ReadOnce(p.rx, p.port, r, n) && RxCounts(p.rx, p.port)
    ensures ReadOnce(NextRx(p, s), NextPort(p, s), r, n) && RxCounts(NextRx(p, s), NextPort(p, s))
  {
    hide Count, Reads, Ids;
    match s
    case DriverRead(k, frame, offline, good) =>
      var a := Arrival(p.rx.driver[k], frame, offline, good);
      PortSnoc(p.port, ReadDone(a));
      CountWithout(p.rx.driver, k, r);
      IdsEnds(Reads(p.port), a, r);
    case DriverWrite(k) => PortSnoc(p.port, WriteDone(p.tx.driver[k]));
    case DriverEvent => PortSnoc(p.port, EventDone);
    case Harvest =>
      PortHead(p.port);
      if p.port[0].ReadDone? {
        IdsEnds(p.rx.chain, p.port[0].a, r);
        IdsEnds(Reads(p.port[1..]), p.port[0].a, r);
      }
  }

  lemma {:induction false} RequeueKeeps(x: Rx, port: seq<Item>, f: Fate, r: nat, n: nat)
    requires x.chain != [] && f.a == x.chain[0] && ReadOnce(x, port, r, n) && RxCounts(x, port)
    ensures ReadOnce(RequeueOne(x, f), port, r, n) && RxCounts(RequeueOne(x, f), port)
  {
    hide Count, Reads, Ids;
    var a := x.chain[0];
    IdsEnds(x.chain, a, r);
    CountEnds(x.home, a.r, r);
    CountEnds(x.parked, a.r, r);
    CountEnds(x.repost, a.r, r);
  }

  lemma {:induction false} RxKeeps(p: Pump, s: Step, r: nat, n: nat)
    requires Enabled(p, s) && ReadOnce(p.rx, p.port, r, n) && RxCounts(p.rx, p.port)
    ensures ReadOnce(NextRx(p, s), NextPort(p, s), r, n) && RxCounts(NextRx(p, s), NextPort(p, s))
  {
    hide Count, Reads, Ids, RequeueOne;
    var x := p.rx;
    match s
    case HandleEvent(_, _) =>
      CountConcat(x.unparked, x.parked, r);
      assert Count([], r) == 0 by {
        CountNone(r);
      }
    case SendUnparked =>
      CountHead(x.unparked, r);
      CountEnds(x.driver, x.unparked[0], r);
    case Repost =>
      CountHead(x.repost, r);
      CountEnds(x.driver, x.repost[0], r);
    case Requeue(mem) => RequeueKeeps(x, p.port, FateOf(x.chain[0], p.draining, mem), r, n);
    case DriverWrite(_) => RxPortKeeps(p, s, r, n);
    case DriverRead(_, _, _, _) => RxPortKeeps(p, s, r, n);
    case DriverEvent => RxPortKeeps(p, s, r, n);
    case Harvest => RxPortKeeps(p, s, r, n);
    case _ =>
  }

  lemma {:induction false} MarkKeeps(p: Pump, s: Step, r: nat, n: nat)
    requires Enabled(p, s) && ReadOnce(p.rx, p.port, r, n) && MarkOk(p.rx, r, n)
    ensures MarkOk(NextRx(p, s), r, n)
  {
    hide Count, Reads, Ids;
    var x := p.rx;
    match s
    case HandleEvent(_, _) =>
      CountConcat(x.unparked, x.parked, r);
      CountNone(r);
    case SendUnparked => CountHead(x.unparked, r);
    case Requeue(mem) =>
      var a := x.chain[0];
      IdsEnds(x.chain, a, r);
      CountEnds(x.home, a.r, r);
      CountEnds(x.parked, a.r, r);
    case _ =>
  }

  // ---- the flight counter counts the reads marked FLIGHT ----

  function Members(q: seq<nat>): set<nat> { set x | x in q }

  lemma {:induction false} CountIn(q: seq<nat>, x: nat)
    ensures Count(q, x) > 0 <==> x in q
  {
    if q != [] {
      CountIn(q[1..], x);
    }
  }

  lemma {:induction false} NoRepeats(q: seq<nat>)
    requires forall x: nat :: Count(q, x) <= 1
    ensures |Members(q)| == |q|
  {
    if q != [] {
      var t := q[1..];
      forall x: nat ensures Count(t, x) <= 1 {
        CountHead(q, x);
      }
      NoRepeats(t);
      CountHead(q, q[0]);
      CountIn(t, q[0]);
      assert Members(q) == Members(t) + {q[0]};
    }
  }

  function Outstanding(x: Rx, port: seq<Item>): seq<nat> { x.driver + Ids(Reads(port)) + Ids(x.chain) + x.repost }

  lemma {:induction false} FlightCounts(x: Rx, port: seq<Item>, n: nat)
    requires RxCounts(x, port) && forall r: nat :: ReadOnce(x, port, r, n) && MarkOk(x, r, n)
    ensures x.flight == |set r | 0 <= r < n && r in x.mark && x.mark[r] == Flight|
  {
    hide Reads, Ids;
    var q := Outstanding(x, port);
    IdsConcat(Reads(port), []);
    IdsConcat(x.chain, []);
    forall r: nat ensures Count(q, r) <= 1 && (r in q <==> r < n && r in x.mark && x.mark[r] == Flight) {
      CountConcat(x.driver, Ids(Reads(port)), r);
      CountConcat(x.driver + Ids(Reads(port)), Ids(x.chain), r);
      CountConcat(x.driver + Ids(Reads(port)) + Ids(x.chain), x.repost, r);
      CountIn(q, r);
      assert ReadOnce(x, port, r, n) && MarkOk(x, r, n);
      hide Count, Outstanding;
    }
    NoRepeats(q);
    assert Members(q) == set r | 0 <= r < n && r in x.mark && x.mark[r] == Flight;
    assert |q| == x.flight;
  }

  // ---- order ----

  function Arrivals(fs: seq<Fate>): seq<Arrival> { if fs == [] then [] else Arrivals(fs[..|fs| - 1]) + [fs[|fs| - 1].a] }

  function Frames(fs: seq<Fate>): seq<nat> {
    if fs == [] then []
    else Frames(fs[..|fs| - 1]) + if fs[|fs| - 1].Delivered? then [fs[|fs| - 1].a.frame] else []
  }

  function NoMems(fs: seq<Fate>): nat { if fs == [] then 0 else NoMems(fs[..|fs| - 1]) + One(fs[|fs| - 1].NoMemory?) }

  function Errors(fs: seq<Fate>): nat { if fs == [] then 0 else Errors(fs[..|fs| - 1]) + One(fs[|fs| - 1].Error?) }

  lemma {:induction false} FateSnoc(fs: seq<Fate>, f: Fate)
    ensures Arrivals(fs + [f]) == Arrivals(fs) + [f.a]
    ensures Frames(fs + [f]) == if f.Delivered? then Frames(fs) + [f.a.frame] else Frames(fs)
    ensures NoMems(fs + [f]) == NoMems(fs) + One(f.NoMemory?) && Errors(fs + [f]) == Errors(fs) + One(f.Error?)
  {
    assert (fs + [f])[..|fs|] == fs;
  }

  /** A decision fits its read: the driver's out-of-service reads are parked, its good ones delivered or dropped for memory. */
  predicate Fitting(f: Fate) {
    f.Unwanted? || ((f.Offline? <==> f.a.offline) && (!f.a.offline ==> (f.Error? <==> !f.a.good)))
  }

  ghost predicate AllFitting(fs: seq<Fate>) { forall i :: 0 <= i < |fs| ==> Fitting(fs[i]) }

  lemma {:induction false} FittingSnoc(fs: seq<Fate>, f: Fate)
    requires AllFitting(fs) && Fitting(f)
    ensures AllFitting(fs + [f])
  {
    hide Fitting;
  }

  /** Finished reads are decided in the order the driver finished them; out is the delivered ones, drops are counted. */
  ghost predicate InOrder(p: Pump) {
    && AllFitting(p.rx.fates)
    && p.arrived == Arrivals(p.rx.fates) + p.rx.chain + Reads(p.port)
    && p.rx.out == Frames(p.rx.fates) && p.rx.noMem == NoMems(p.rx.fates) && p.rx.errors == Errors(p.rx.fates)
  }

  lemma {:induction false} RequeueInOrder(x: Rx, f: Fate, tail: seq<Arrival>, arrived: seq<Arrival>)
    requires x.chain != [] && f.a == x.chain[0] && arrived == Arrivals(x.fates) + x.chain + tail
    requires x.out == Frames(x.fates) && x.noMem == NoMems(x.fates) && x.errors == Errors(x.fates)
    requires Fitting(f) && AllFitting(x.fates)
    ensures var y := RequeueOne(x, f);
      && AllFitting(y.fates)
      && arrived == Arrivals(y.fates) + y.chain + tail
      && y.out == Frames(y.fates) && y.noMem == NoMems(y.fates) && y.errors == Errors(y.fates)
  {
    hide Arrivals, Frames, NoMems, Errors, AllFitting, Fitting;
    FittingSnoc(x.fates, f);
    FateSnoc(x.fates, f);
    assert x.chain == [f.a] + x.chain[1..];
  }

  lemma {:induction false} Regroup(a: seq<Arrival>, c: seq<Arrival>, r: seq<Arrival>, x: Arrival)
    ensures a + c + r + [x] == a + c + (r + [x]) && a + c + ([x] + r) == a + (c + [x]) + r
  {
  }

  lemma {:induction false} OrderKeeps(p: Pump, s: Step)
    requires Enabled(p, s) && InOrder(p)
    ensures InOrder(Next(p, s))
  {
    hide Reads, Arrivals, Frames, NoMems, Errors, RequeueOne, NextTx, NextEv, AllFitting;
    var a, c, r := Arrivals(p.rx.fates), p.rx.chain, Reads(p.port);
    match s
    case DriverRead(k, frame, offline, good) =>
      var x := Arrival(p.rx.driver[k], frame, offline, good);
      PortSnoc(p.port, ReadDone(x));
      Regroup(a, c, r, x);
    case DriverWrite(k) => PortSnoc(p.port, WriteDone(p.tx.driver[k]));
    case DriverEvent => PortSnoc(p.port, EventDone);
    case Harvest =>
      PortHead(p.port);
      if p.port[0].ReadDone? {
        Regroup(a, c, Reads(p.port[1..]), p.port[0].a);
      }
    case Requeue(mem) => RequeueInOrder(p.rx, FateOf(p.rx.chain[0], p.draining, mem), r, p.arrived);
    case _ =>
  }

  // ---- what the lock and the teardown guarantee ----

  function Events(port: seq<Item>): nat { if port == [] then 0 else One(port[0].EventDone?) + Events(port[1..]) }

  lemma {:induction false} EventsSnoc(port: seq<Item>, i: Item)
    ensures Events(port + [i]) == Events(port) + One(i.EventDone?)
  {
    if port == [] {
      assert [] + [i] == [i] && [i][1..] == [];
    } else {
      assert (port + [i])[1..] == port[1..] + [i];
      EventsSnoc(port[1..], i);
    }
  }

  /** Nothing of ours is in the driver's hands or on its way there. */
  ghost predicate Quiet(p: Pump) {
    && p.tx.driver == [] && Writes(p.port) == [] && p.tx.staged == []
    && p.rx.driver == [] && Reads(p.port) == [] && p.rx.chain == [] && p.rx.repost == [] && p.rx.unparked == []
    && (p.ev == Home || p.ev == Dead)
  }

  ghost predicate Safe(p: Pump) {
    && (!p.held ==> p.tx.staged == [])
    && (p.draining ==> p.tx.down && p.rx.unparked == [] && p.ev != Rearm)
    && Events(p.port) == One(p.ev == OnPort)
    && (p.drained ==> p.draining && Quiet(p))
  }

  lemma {:induction false} SafeDriver(p: Pump, s: Step)
    requires Enabled(p, s) && Safe(p) && (s.DriverRead? || s.DriverWrite? || s.DriverEvent?)
    ensures Safe(Next(p, s))
  {
    match s
    case DriverRead(k, frame, offline, good) =>
      EventsSnoc(p.port, ReadDone(Arrival(p.rx.driver[k], frame, offline, good)));
      hide Events;
    case DriverWrite(k) =>
      EventsSnoc(p.port, WriteDone(p.tx.driver[k]));
      hide Events;
    case DriverEvent =>
      EventsSnoc(p.port, EventDone);
      hide Events;
  }

  lemma {:induction false} SafeKeeps(p: Pump, s: Step)
    requires Enabled(p, s) && Safe(p) && TxCounts(p.tx, p.port) && RxCounts(p.rx, p.port)
    ensures Safe(Next(p, s))
  {
    hide Count;
    if s.DriverRead? || s.DriverWrite? || s.DriverEvent? {
      hide TxCounts, RxCounts;
      SafeDriver(p, s);
    } else {
      if s.Harvest? {
        PortHead(p.port);
      }
      hide Writes, Reads;
    }
  }

  // ---- runs ----

  ghost predicate Run(ps: seq<Pump>, ss: seq<Step>) {
    |ps| == |ss| + 1 && forall i :: 0 <= i < |ss| ==> Enabled(ps[i], ss[i]) && ps[i + 1] == Next(ps[i], ss[i])
  }

  function Upto(n: nat): seq<nat> { seq(n, i requires 0 <= i < n => i) }

  /** A pump just set up: all writes free, all reads and the event request posted. */
  ghost predicate Started(p: Pump, nw: nat, nr: nat) {
    p == Pump(Tx(Upto(nw), [], [], [], 0, nw, false),
              Rx(Upto(nr), [], [], [], [], [], nr, map i: nat | i in Upto(nr) :: Flight, [], [], 0, 0), [], AtDriver, false, false, false, [])
  }

  lemma {:induction false} CountUpto(n: nat, x: nat)
    ensures Count(Upto(n), x) == One(x < n)
  {
    if n > 0 {
      CountUpto(n - 1, x);
      assert Upto(n) == Upto(n - 1) + [n - 1];
      CountEnds(Upto(n - 1), n - 1, x);
    }
  }

  ghost predicate Inv(p: Pump, w: nat, nw: nat, r: nat, nr: nat) {
    && WriteOnce(p.tx, p.port, w, nw) && TxCounts(p.tx, p.port)
    && ReadOnce(p.rx, p.port, r, nr) && RxCounts(p.rx, p.port) && MarkOk(p.rx, r, nr)
    && InOrder(p) && Safe(p)
  }

  /**
   In every run: each write request is free, staged or in flight, each read is
   with the driver, harvested, about to be reposted, parked or home, each in
   exactly one place; the two counters and the room are exact; frames come out
   in the order the driver finished them or are counted as dropped.
   */
  lemma {:induction false} RequestsConserved(ps: seq<Pump>, ss: seq<Step>, i: nat, w: nat, nw: nat, r: nat, nr: nat)
    requires Run(ps, ss) && Started(ps[0], nw, nr) && i < |ps|
    ensures Inv(ps[i], w, nw, r, nr)
  {
    if i == 0 {
      CountUpto(nw, w);
      CountUpto(nr, r);
      CountIn(Upto(nr), r);
      CountNone(r);
      hide Upto;
    } else {
      RequestsConserved(ps, ss, i - 1, w, nw, r, nr);
      assert Enabled(ps[i - 1], ss[i - 1]) && ps[i] == Next(ps[i - 1], ss[i - 1]);
      TxKeeps(ps[i - 1], ss[i - 1], w, nw);
      RxKeeps(ps[i - 1], ss[i - 1], r, nr);
      MarkKeeps(ps[i - 1], ss[i - 1], r, nr);
      OrderKeeps(ps[i - 1], ss[i - 1]);
      SafeKeeps(ps[i - 1], ss[i - 1]);
      hide WriteOnce, TxCounts, ReadOnce, RxCounts, MarkOk, InOrder, Safe, NextTx, NextRx, NextPort, NextEv, Enabled;
    }
  }

  // ---- when a read is parked ----

  /** Step j parks read r: it came back out of service and the pump does not drain. */
  ghost predicate Parks(p: Pump, s: Step, r: nat) {
    s.Requeue? && p.rx.chain != [] && !p.draining && p.rx.chain[0].offline && p.rx.chain[0].r == r
  }

  /** An ONLINE event is handled. */
  predicate GoesOnline(p: Pump, s: Step) { s == HandleEvent(false, true) && !p.draining }

  /** Handling ONLINE leaves no read parked; every one that was is next to go back to the driver. */
  lemma {:induction false} OnlineReleases(p: Pump, s: Step)
    requires Enabled(p, s) && GoesOnline(p, s)
    ensures var q := Next(p, s); q.rx.parked == [] && q.rx.unparked == p.rx.unparked + p.rx.parked && q.ev == Rearm
  {
  }

  /** Nothing else takes a read off the parked list, and nothing else puts one there. */
  lemma {:induction false} ParkedStep(p: Pump, s: Step, r: nat)
    requires Enabled(p, s)
    ensures r in Next(p, s).rx.parked <==> Parks(p, s, r) || (r in p.rx.parked && !GoesOnline(p, s))
  {
    if s.Requeue? {
      var a := p.rx.chain[0];
      assert r in [a.r] + p.rx.parked <==> r == a.r || r in p.rx.parked;
    }
  }

  /** r was parked by step j and no ONLINE has been handled since. */
  ghost predicate ParkedAt(ps: seq<Pump>, ss: seq<Step>, i: nat, j: nat, r: nat)
    requires |ps| == |ss| + 1 && i < |ps|
  {
    j < i && Parks(ps[j], ss[j], r) && forall m :: j < m < i ==> !GoesOnline(ps[m], ss[m])
  }

  /**
   Exactly when a read is parked, in every run: some step parked it and no
   ONLINE has been handled since.
   */
  lemma {:induction false} ParkedIff(ps: seq<Pump>, ss: seq<Step>, i: nat, nw: nat, r: nat, nr: nat)
    requires Run(ps, ss) && Started(ps[0], nw, nr) && i < |ps|
    ensures r in ps[i].rx.parked <==> exists j: nat :: ParkedAt(ps, ss, i, j, r)
    decreases i
  {
    hide Started, Enabled, Next, Parks, GoesOnline;
    if i == 0 {
      assert ps[0].rx.parked == [] by { NothingParked(ps[0], nw, nr); }
    } else {
      var k := i - 1;
      ParkedIff(ps, ss, k, nw, r, nr);
      assert Enabled(ps[k], ss[k]) && ps[i] == Next(ps[k], ss[k]);
      ParkedStep(ps[k], ss[k], r);
      if r in ps[i].rx.parked {
        if Parks(ps[k], ss[k], r) {
          assert ParkedAt(ps, ss, i, k, r);
        } else {
          var j: nat :| ParkedAt(ps, ss, k, j, r);
          assert ParkedAt(ps, ss, i, j, r);
        }
      }
      if j: nat :| ParkedAt(ps, ss, i, j, r) && j < k {
        assert ParkedAt(ps, ss, k, j, r);
      }
    }
  }

  lemma {:induction false} NothingParked(p: Pump, nw: nat, nr: nat)
    requires Started(p, nw, nr)
    ensures p.rx.parked == []
  {
  }

  ghost predicate Goes(p: Pump, s: Step, q: Pump) { Enabled(p, s) && q == Next(p, s) }

  function OneRead(): Rx { Rx([0], [], [], [], [], [], 1, map[0 := Flight], [], [], 0, 0) }

  lemma {:induction false} OneReadStarted(p: Pump)
    requires p == Pump(Tx([], [], [], [], 0, 0, false), OneRead(), [], AtDriver, false, false, false, [])
    ensures Started(p, 0, 1)
  {
    assert Upto(0) == [] && Upto(1) == [0];
    assert (map i: nat | i in Upto(1) :: Flight) == map[0 := Flight];
  }

  /** The read comes back out of service, then the event. */
  lemma {:induction false} EarlyReplies(p0: Pump, a: Arrival) returns (p1: Pump, p2: Pump)
    requires a == Arrival(0, 5, true, true) && p0.rx == OneRead() && p0.port == [] && p0.ev == AtDriver && p0.arrived == []
    ensures Goes(p0, DriverRead(0, 5, true, true), p1) && Goes(p1, DriverEvent, p2)
    ensures p2 == p0.(rx := OneRead().(driver := []), port := [ReadDone(a), EventDone], ev := OnPort, arrived := [a])
  {
    assert Without([0], 0) == [];
    p1 := Next(p0, DriverRead(0, 5, true, true));
    p2 := Next(p1, DriverEvent);
  }

  lemma {:induction false} EarlyHarvest(p2: Pump, a: Arrival) returns (p3: Pump, p4: Pump)
    requires p2.port == [ReadDone(a), EventDone] && p2.rx.chain == []
    ensures Goes(p2, Harvest, p3) && Goes(p3, Harvest, p4)
    ensures p4 == p2.(rx := p2.rx.(chain := [a]), port := [], ev := Harvested)
  {
    p3 := Next(p2, Harvest);
    assert p3.port == [EventDone];
    p4 := Next(p3, Harvest);
  }

  lemma {:induction false} EarlyOnline(p4: Pump, a: Arrival) returns (p5: Pump, p6: Pump, p7: Pump)
    requires p4.ev == Harvested && p4.rx.chain == [a] && p4.rx.parked == [] && a.offline && !p4.draining && !p4.held
    ensures Goes(p4, Lock, p5) && Goes(p5, HandleEvent(false, true), p6) && Goes(p6, Requeue(true), p7)
    ensures p7.rx.parked == [a.r] && p7.rx.driver == p4.rx.driver && p7.rx.repost == p4.rx.repost && !p5.draining
  {
    p5 := Next(p4, Lock);
    p6 := Next(p5, HandleEvent(false, true));
    p7 := Next(p6, Requeue(true));
  }

  /**
   So an ONLINE can come too early: a read that had come back out of service but
   was still to be looked at when ONLINE was handled is parked after it, and
   stays so, with the link up, until another ONLINE.
   */
  lemma {:induction false} OnlineTooEarly(ss: seq<Step>) returns (ps: seq<Pump>)
    requires ss == [DriverRead(0, 5, true, true), DriverEvent, Harvest, Harvest, Lock, HandleEvent(false, true), Requeue(true)]
    ensures Run(ps, ss) && Started(ps[0], 0, 1)
    ensures GoesOnline(ps[5], ss[5]) && ps[7].rx.parked == [0] && ps[7].rx.driver == [] && ps[7].rx.repost == []
  {
    hide Started, Next, Enabled;
    var a := Arrival(0, 5, true, true);
    var p0 := Pump(Tx([], [], [], [], 0, 0, false), OneRead(), [], AtDriver, false, false, false, []);
    OneReadStarted(p0);
    var p1, p2 := EarlyReplies(p0, a);
    var p3, p4 := EarlyHarvest(p2, a);
    var p5, p6, p7 := EarlyOnline(p4, a);
    ps := [p0, p1, p2, p3, p4, p5, p6, p7];
    forall i | 0 <= i < |ss| ensures Goes(ps[i], ss[i], ps[i + 1]) {
    }
  }

  /** And s2p_Flight is the number of reads marked FLIGHT. */
  lemma {:induction false} FlightIsExact(ps: seq<Pump>, ss: seq<Step>, i: nat, nw: nat, nr: nat)
    requires Run(ps, ss) && Started(ps[0], nw, nr) && i < |ps|
    ensures var x := ps[i].rx; x.flight == |set r | 0 <= r < nr && r in x.mark && x.mark[r] == Flight|
  {
    forall r: nat ensures ReadOnce(ps[i].rx, ps[i].port, r, nr) && MarkOk(ps[i].rx, r, nr) && RxCounts(ps[i].rx, ps[i].port) {
      RequestsConserved(ps, ss, i, 0, nw, r, nr);
    }
    hide ReadOnce, MarkOk, Run, Started;
    assert RxCounts(ps[i].rx, ps[i].port) by {
      RequestsConserved(ps, ss, i, 0, nw, 0, nr);
    }
    FlightCounts(ps[i].rx, ps[i].port, nr);
  }

  /**
   Once the drain test has passed, then and in every later state no request of
   ours is with the driver, on its way to it, or still to be harvested; and all
   reads are accounted for as parked or home.
   */
  lemma {:induction false} DrainedMeansQuiet(ps: seq<Pump>, ss: seq<Step>, i: nat, j: nat, nw: nat, r: nat, nr: nat)
    requires Run(ps, ss) && Started(ps[0], nw, nr) && i < j < |ps| && r < nr
    requires ss[i] == TestDrained && LooksDrained(ps[i])
    ensures Quiet(ps[j]) && Count(ps[j].rx.parked, r) + Count(ps[j].rx.home, r) == 1
  {
    StaysDrained(ps, ss, i, j);
    RequestsConserved(ps, ss, j, 0, nw, r, nr);
    hide Run, Started;
    assert ReadOnce(ps[j].rx, ps[j].port, r, nr) && Quiet(ps[j]);
    CountNone(r);
    hide Count;
    assert Ids([]) == [];
  }

  lemma {:induction false} StaysDrained(ps: seq<Pump>, ss: seq<Step>, i: nat, j: nat)
    requires Run(ps, ss) && i < j < |ps| && ss[i] == TestDrained && LooksDrained(ps[i])
    ensures ps[j].drained
    decreases j
  {
    assert ps[j] == Next(ps[j - 1], ss[j - 1]) && Enabled(ps[j - 1], ss[j - 1]);
    if j - 1 > i {
      StaysDrained(ps, ss, i, j - 1);
    }
  }

  // ---- the teardown can always finish ----

  ghost predicate Leads(p: Pump, es: seq<Step>, q: Pump)
    decreases |es|
  {
    if es == [] then q == p else Enabled(p, es[0]) && Leads(Next(p, es[0]), es[1..], q)
  }

  lemma {:induction false} LeadsOn(p: Pump, e: Step, es: seq<Step>, q: Pump)
    requires Enabled(p, e) && Leads(Next(p, e), es, q)
    ensures Leads(p, [e] + es, q)
  {
    hide Next, Enabled;
    assert ([e] + es)[1..] == es;
  }

  /** Before the drain: what is still to be sent goes out, the interface goes down, and the drain begins. */
  function TowardsDrain(p: Pump): Step {
    if p.rx.unparked != [] then SendUnparked
    else if p.ev == Rearm then RearmEvent
    else if !p.tx.down then if p.held then SetDown else Lock
    else BeginDrain
  }

  predicate Work(p: Pump) { p.tx.staged != [] || p.tx.done != [] || p.ev == Harvested || p.rx.chain != [] }

  /** While draining: everything comes back from the driver and is put away, then the test. */
  function TowardsEnd(p: Pump): Step {
    if p.rx.repost != [] then Repost
    else if p.rx.driver != [] then DriverRead(0, 0, false, false)
    else if p.tx.driver != [] then DriverWrite(0)
    else if p.ev == AtDriver then DriverEvent
    else if p.port != [] then Harvest
    else if Work(p) && !p.held then Lock
    else if p.tx.staged != [] then FlushOne(true)
    else if p.tx.done != [] then CompleteTx
    else if p.ev == Harvested then HandleEvent(false, false)
    else if p.rx.chain != [] then Requeue(true)
    else if p.held then Unlock
    else TestDrained
  }

  function Towards(p: Pump): Step { if p.draining then TowardsEnd(p) else TowardsDrain(p) }

  /** What is left to do, item by item; each step of the way takes something off. */
  function Left(p: Pump): nat {
    if p.draining then
      2 * (5 * |p.rx.repost| + 4 * |p.rx.driver| + 4 * |p.tx.driver| + 3 * |p.port| + 2 * |p.rx.chain| + 2 * |p.tx.done|
           + |p.tx.staged| + if p.ev == AtDriver then 4 else if p.ev == Harvested then 2 else 0)
      + (if p.held == Work(p) then 0 else 1)
    else 2 * |p.rx.unparked| + One(p.ev == Rearm) + 2 * One(!p.tx.down) + One(!p.tx.down && !p.held)
  }

  lemma {:induction false} TowardsDrainGoes(p: Pump)
    requires !p.draining
    ensures Enabled(p, TowardsDrain(p))
    ensures var q := Next(p, TowardsDrain(p)); q.draining || (!q.draining && Left(q) < Left(p))
  {
  }

  lemma {:induction false} PortGoes(p: Pump)
    requires p.draining && p.port != [] && p.rx.repost == [] && p.rx.driver == [] && p.tx.driver == [] && p.ev != AtDriver
    requires Events(p.port) == One(p.ev == OnPort)
    ensures Enabled(p, Harvest) && Next(p, Harvest).draining && Left(Next(p, Harvest)) < Left(p)
  {
    var m := p.port[0];
    assert p.port[0].EventDone? ==> p.ev == OnPort;
    hide Events;
  }

  lemma {:induction false} TowardsEndGoes(p: Pump)
    requires p.draining && Safe(p) && TowardsEnd(p) != TestDrained
    ensures Enabled(p, TowardsEnd(p))
    ensures var q := Next(p, TowardsEnd(p)); q.draining && Left(q) < Left(p)
  {
    hide Writes, Reads, Quiet;
    if p.rx.repost == [] && p.rx.driver == [] && p.tx.driver == [] && p.ev != AtDriver && p.port != [] {
      PortGoes(p);
    }
    hide Events;
  }

  lemma {:induction false} EndIsQuiet(p: Pump)
    requires p.draining && Safe(p) && TxCounts(p.tx, p.port) && RxCounts(p.rx, p.port) && TowardsEnd(p) == TestDrained
    ensures Enabled(p, TestDrained) && Next(p, TestDrained).drained
  {
    assert p.port == [] && Events([]) == 0;
  }

  lemma {:induction false} StepInv(p: Pump, s: Step, nw: nat, nr: nat)
    requires Inv(p, 0, nw, 0, nr) && Enabled(p, s)
    ensures Inv(Next(p, s), 0, nw, 0, nr)
  {
    TxKeeps(p, s, 0, nw);
    RxKeeps(p, s, 0, nr);
    MarkKeeps(p, s, 0, nr);
    OrderKeeps(p, s);
    SafeKeeps(p, s);
    hide WriteOnce, TxCounts, ReadOnce, RxCounts, MarkOk, InOrder, Safe, NextTx, NextRx, NextPort, NextEv, Enabled;
  }

  lemma {:induction false} DrainEnds(p: Pump, nw: nat, nr: nat) returns (es: seq<Step>, q: Pump)
    requires Inv(p, 0, nw, 0, nr)
    ensures Leads(p, es, q) && q.drained
    decreases !p.draining, Left(p)
  {
    hide Next, Enabled, Safe, TxCounts, RxCounts, WriteOnce, ReadOnce, MarkOk, InOrder, TowardsEnd, TowardsDrain, Left;
    var e := Towards(p);
    if p.draining && e == TestDrained {
      EndIsQuiet(p);
      q := Next(p, e);
      LeadsOn(p, e, [], q);
      es := [e] + [];
    } else {
      if p.draining {
        TowardsEndGoes(p);
      } else {
        TowardsDrainGoes(p);
      }
      StepInv(p, e, nw, nr);
      es, q := DrainEnds(Next(p, e), nw, nr);
      LeadsOn(p, e, es, q);
      es := [e] + es;
    }
  }

  /**
   No interleaving runs into a dead end: from every reachable state the tasks,
   with a driver that returns what it was given, can go on to a passed drain test,
   after which nothing of ours is with the driver.
   */
  lemma {:induction false} TeardownEnds(ps: seq<Pump>, ss: seq<Step>, i: nat, nw: nat, nr: nat) returns (es: seq<Step>, q: Pump)
    requires Run(ps, ss) && Started(ps[0], nw, nr) && i < |ps|
    ensures Leads(ps[i], es, q) && q.drained
  {
    RequestsConserved(ps, ss, i, 0, nw, 0, nr);
    hide Inv, Run, Started;
    es, q := DrainEnds(ps[i], nw, nr);
  }

  /** The drain test passes exactly when every write is home, no read is with the driver or on its way, and the event request is back. */
  lemma {:induction false} DrainTestExact(p: Pump, nw: nat, nr: nat)
    requires Inv(p, 0, nw, 0, nr) && Enabled(p, TestDrained)
    ensures Next(p, TestDrained).drained <==>
      p.drained || (
        && p.tx.driver == [] && Writes(p.port) == [] && p.tx.done == []
        && p.rx.driver == [] && Reads(p.port) == [] && p.rx.chain == [] && p.rx.repost == []
        && (p.ev == Home || p.ev == Dead))
  {
    hide Writes, Reads, Events;
  }

  // ---- admission ----

  /** k frames can be staged one after the other in this hold. */
  ghost predicate CanStage(t: Tx, k: nat)
    decreases k
  {
    k == 0 || (!t.down && t.free != [] && CanStage(StageOne(t), k - 1))
  }

  /** A datagram admitted for k frames never finds the pool dry. */
  lemma {:induction false} AdmittedStages(t: Tx, port: seq<Item>, k: nat)
    requires TxCounts(t, port) && !t.down && k <= t.room
    ensures CanStage(t, k)
    decreases k
  {
    if k > 0 {
      AdmittedStages(StageOne(t), port, k - 1);
    }
  }
}
