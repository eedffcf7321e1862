/**
 The netdev transmit path (port/amiga/netdev_tx.c): frames go to the driver in
 the order lwIP emits them, a refused frame waits in a bounded pending queue,
 and a buffer still armed from an earlier transmission is sent as a clone.
 */
module NetdevTx {
  import opened Words
  import opened Rings
  import opened TxCapacity
  import ReclaimRing

  type Id = nat // a pbuf

  const PEND_MIN := 128
  const FREE_MIN := 256

  /**
   cap is the interface's capacity. submitted, accepted and freed are history:
   frames handed to the driver, frames linkoutput accepted, driver references
   dropped. refs counts every reference to a pbuf, holds those of its owners.
   */
  datatype Tx = Tx(
    cap: Cap, pending: seq<Id>, submitted: seq<Id>, accepted: seq<Id>, freed: multiset<Id>,
    refs: map<Id, nat>, holds: map<Id, nat>)

  function At0(m: map<Id, nat>, id: Id): nat { if id in m then m[id] else 0 }

  function Bump(m: map<Id, nat>, id: Id): map<Id, nat> { m[id := At0(m, id) + 1] }

  function Dip(m: map<Id, nat>, id: Id): map<Id, nat> { m[id := if At0(m, id) == 0 then 0 else At0(m, id) - 1] }

  /** Whether one more reference than the owner's own makes a private copy necessary. */
  predicate Armed(t: Tx, p: Id) { At0(t.refs, p) > 1 }

  /** The frame that goes out: the pbuf with one reference more, or a clone born with one. */
  function Grab(t: Tx, p: Id, clone: Id): Tx {
    if Armed(t, p) then t.(refs := t.refs[clone := 1]) else t.(refs := Bump(t.refs, p))
  }

  function FrameOf(t: Tx, p: Id, clone: Id): Id { if Armed(t, p) then clone else p }

  predicate Direct(t: Tx, takes: bool) { t.pending == [] && takes }

  predicate Full(t: Tx) { |t.pending| >= t.cap.capacity }

  predicate Ready(t: Tx) {
    Sized(t.cap) && t.cap.active && t.cap.free + |t.pending| == t.cap.capacity
  }

  /** ndif_linkoutput; takes is the driver's answer, cloned whether a needed clone could be made. */
  function Output(t: Tx, p: Id, clone: Id, cloned: bool, takes: bool): (r: (Tx, bool))
    requires Ready(t)
    ensures Ready(r.0)
  {
    var f, g := FrameOf(t, p, clone), Grab(t, p, clone);
    if Armed(t, p) && !cloned then (t, false)
    else if Direct(t, takes) then (g.(submitted := g.submitted + [f], accepted := g.accepted + [f]), true)
    else if Full(t) then (g.(refs := Dip(g.refs, f)), false)
    else (g.(cap := TxCapacity.Next(g.cap, Taken), pending := g.pending + [f], accepted := g.accepted + [f]), true)
  }

  /** The driver takes the n oldest pending frames. */
  function PendDrain(t: Tx, n: nat): (r: Tx)
    requires Ready(t) && n <= |t.pending|
    ensures Ready(r) && r.pending == t.pending[n..]
  {
    if n == 0 then t else DrainOne(PendDrain(t, n - 1))
  }

  function DrainOne(t: Tx): (r: Tx)
    requires Ready(t) && t.pending != []
    ensures Ready(r) && r.pending == t.pending[1..]
  {
    t.(cap := TxCapacity.Next(t.cap, Freed), pending := t.pending[1..], submitted := t.submitted + [t.pending[0]])
  }

  datatype Step =
    | Link(p: Id, clone: Id, cloned: bool, takes: bool)
    | Drain(n: nat)       // a lock entry resubmits; the driver takes n frames
    | Done(id: Id)        // a completed cookie is freed by the reclaim
    | Hold(id: Id)        // an owner allocates or references a pbuf
    | Drop(id: Id)        // an owner frees its reference
    | Socket(e: TxCapacity.Step)

  predicate Enabled(t: Tx, e: Step) {
    match e
    case Link(p, clone, _, _) => At0(t.holds, p) >= 1 && clone !in t.refs
    case Drain(n) => n <= |t.pending|
    case Done(id) => id in multiset(t.submitted) - t.freed
    case Hold(_) => true
    case Drop(id) => At0(t.holds, id) >= 1
    case Socket(e) => (e.Room? || e.Poll? || e.Close?) && Bounded(t.cap, e)
  }

  function Next(t: Tx, e: Step): (r: Tx)
    requires Ready(t) && Enabled(t, e)
    ensures Ready(r)
  {
    match e
    case Link(p, clone, cloned, takes) => Output(t, p, clone, cloned, takes).0
    case Drain(n) => PendDrain(t, n)
    case Done(id) => t.(refs := Dip(t.refs, id), freed := t.freed + multiset{id})
    case Hold(id) => t.(refs := Bump(t.refs, id), holds := Bump(t.holds, id))
    case Drop(id) => t.(refs := Dip(t.refs, id), holds := Dip(t.holds, id))
    case Socket(e) => t.(cap := TxCapacity.Next(t.cap, e))
  }

  /** In flight: accepted for the driver, its reference not yet dropped. */
  function Flight(t: Tx): multiset<Id> { multiset(t.accepted) - t.freed }

  /** Every reference is an owner's or the driver's, and no pbuf is in flight twice. */
  ghost predicate Balanced(refs: map<Id, nat>, holds: map<Id, nat>, flight: multiset<Id>) {
    forall id :: At0(refs, id) == At0(holds, id) + flight[id] && flight[id] <= 1
  }

  /** Frames leave in exactly the order they were accepted, and each driver reference is dropped at most once. */
  ghost predicate InOrder(t: Tx) {
    t.submitted + t.pending == t.accepted && t.freed <= multiset(t.submitted)
  }

  ghost predicate Inv(t: Tx) {
    && Ready(t) && InOrder(t) && NoLostWake(t.cap)
    && Balanced(t.refs, t.holds, Flight(t))
  }

  lemma {:induction false} FlightGrows(t: Tx, f: Id)
    requires InOrder(t)
    ensures multiset(t.accepted + [f]) - t.freed == Flight(t) + multiset{f}
  {
    assert multiset(t.accepted) == multiset(t.submitted) + multiset(t.pending);
    assert multiset(t.accepted + [f]) == multiset(t.accepted) + multiset{f};
  }

  lemma {:induction false} FlightShrinks(t: Tx, id: Id)
    requires InOrder(t) && id in multiset(t.submitted) - t.freed
    ensures multiset(t.accepted) - (t.freed + multiset{id}) == Flight(t) - multiset{id} && id in Flight(t)
  {
    assert multiset(t.accepted) == multiset(t.submitted) + multiset(t.pending);
  }

  lemma {:induction false} BalanceGrab(refs: map<Id, nat>, holds: map<Id, nat>, flight: multiset<Id>, f: Id)
    requires Balanced(refs, holds, flight) && flight[f] == 0
    ensures Balanced(Bump(refs, f), holds, flight + multiset{f})
  {
  }

  lemma {:induction false} BalanceDone(refs: map<Id, nat>, holds: map<Id, nat>, flight: multiset<Id>, f: Id)
    requires Balanced(refs, holds, flight) && f in flight
    ensures Balanced(Dip(refs, f), holds, flight - multiset{f})
  {
  }

  lemma {:induction false} BalanceHold(refs: map<Id, nat>, holds: map<Id, nat>, flight: multiset<Id>, id: Id)
    requires Balanced(refs, holds, flight)
    ensures Balanced(Bump(refs, id), Bump(holds, id), flight)
    ensures At0(holds, id) >= 1 ==> Balanced(Dip(refs, id), Dip(holds, id), flight)
    ensures Balanced(Dip(Bump(refs, id), id), holds, flight)
  {
  }

  /** The frame chosen was not in flight: an unshared pbuf, or a fresh clone. */
  lemma {:induction false} ChosenIsIdle(t: Tx, p: Id, clone: Id)
    requires Balanced(t.refs, t.holds, Flight(t)) && At0(t.holds, p) >= 1 && clone !in t.refs
    ensures Flight(t)[FrameOf(t, p, clone)] == 0
    ensures Grab(t, p, clone).refs == Bump(t.refs, FrameOf(t, p, clone))
  {
    assert At0(t.refs, p) == At0(t.holds, p) + Flight(t)[p];
    assert At0(t.refs, clone) == At0(t.holds, clone) + Flight(t)[clone];
  }

  lemma {:induction false} DirectKeeps(t: Tx, f: Id)
    requires Inv(t) && t.pending == [] && Flight(t)[f] == 0
    ensures Inv(t.(refs := Bump(t.refs, f), submitted := t.submitted + [f], accepted := t.accepted + [f]))
  {
    FlightGrows(t, f);
    BalanceGrab(t.refs, t.holds, Flight(t), f);
    hide Balanced, Bump, NoLostWake;
    assert t.submitted + [f] + t.pending == t.accepted + [f];
    assert multiset(t.submitted + [f]) == multiset(t.submitted) + multiset{f};
  }

  lemma {:induction false} OrderQueue(t: Tx, f: Id)
    requires InOrder(t)
    ensures InOrder(t.(pending := t.pending + [f], accepted := t.accepted + [f]))
  {
    assert t.submitted + (t.pending + [f]) == t.accepted + [f];
  }

  lemma {:induction false} OrderDrain(t: Tx)
    requires InOrder(t) && t.pending != []
    ensures InOrder(t.(pending := t.pending[1..], submitted := t.submitted + [t.pending[0]]))
  {
    assert t.submitted + [t.pending[0]] + t.pending[1..] == t.submitted + t.pending;
    assert multiset(t.submitted + [t.pending[0]]) == multiset(t.submitted) + multiset{t.pending[0]};
  }

  lemma {:induction false} OrderOnly(t: Tx, r: Tx)
    requires InOrder(t)
    requires r.submitted == t.submitted && r.pending == t.pending && r.accepted == t.accepted && r.freed == t.freed
    ensures InOrder(r)
  {
  }

  lemma {:induction false} QueueKeeps(t: Tx, f: Id)
    requires Inv(t) && !Full(t) && Flight(t)[f] == 0
    ensures Inv(t.(refs := Bump(t.refs, f), cap := TxCapacity.Next(t.cap, Taken),
                   pending := t.pending + [f], accepted := t.accepted + [f]))
  {
    hide Frames;
    FlightGrows(t, f);
    BalanceGrab(t.refs, t.holds, Flight(t), f);
    StepKeepsWake(t.cap, Taken);
    assert TxCapacity.Next(t.cap, Taken) == t.cap.(free := t.cap.free - 1);
    OrderQueue(t, f);
    hide Balanced, Bump, TxCapacity.Next, NoLostWake, MaxFrames, InOrder;
    var r := t.(pending := t.pending + [f], accepted := t.accepted + [f]);
    OrderOnly(r, r.(refs := Bump(t.refs, f), cap := TxCapacity.Next(t.cap, Taken)));
  }

  lemma {:induction false} LinkKeeps(t: Tx, p: Id, clone: Id, cloned: bool, takes: bool)
    requires Inv(t) && Enabled(t, Link(p, clone, cloned, takes))
    ensures Inv(Output(t, p, clone, cloned, takes).0)
  {
    var f, g := FrameOf(t, p, clone), Grab(t, p, clone);
    ChosenIsIdle(t, p, clone);
    assert g == t.(refs := Bump(t.refs, f));
    hide Frames, FrameOf, Grab, Balanced, InOrder, NoLostWake, Bump, Dip, Armed;
    if Direct(t, takes) {
      DirectKeeps(t, f);
    } else if !Full(t) {
      QueueKeeps(t, f);
    } else {
      BalanceHold(t.refs, t.holds, Flight(t), f);
    }
  }

  lemma {:induction false} DrainKeeps(t: Tx, n: nat)
    requires Inv(t) && n <= |t.pending|
    ensures Inv(PendDrain(t, n))
  {
    if n > 0 {
      hide Frames, Balanced;
      DrainKeeps(t, n - 1);
      var s, r := PendDrain(t, n - 1), PendDrain(t, n);
      StepKeepsWake(s.cap, Freed);
      OrderDrain(s);
      hide NoLostWake, TxCapacity.Next, InOrder;
      var q := s.(pending := s.pending[1..], submitted := s.submitted + [s.pending[0]]);
      OrderOnly(q, r);
    }
  }

  lemma {:induction false} DoneKeeps(t: Tx, id: Id)
    requires Inv(t) && Enabled(t, Done(id))
    ensures Inv(Next(t, Done(id)))
  {
    hide Frames, NoLostWake, Sized;
    FlightShrinks(t, id);
    BalanceDone(t.refs, t.holds, Flight(t), id);
    hide Balanced, Dip;
  }

  lemma {:induction false} SocketKeeps(t: Tx, c: TxCapacity.Step)
    requires Inv(t) && Enabled(t, Socket(c))
    ensures Inv(Next(t, Socket(c)))
  {
    hide Frames, Balanced;
    StepKeepsWake(t.cap, c);
  }

  lemma {:induction false} Keeps(t: Tx, e: Step)
    requires Inv(t) && Enabled(t, e)
    ensures Inv(Next(t, e))
  {
    hide Frames, Balanced, Bump, Dip, NoLostWake, Output, PendDrain, Sized, TxCapacity.Next;
    match e
    case Link(p, clone, cloned, takes) => LinkKeeps(t, p, clone, cloned, takes);
    case Drain(n) => DrainKeeps(t, n);
    case Done(id) => DoneKeeps(t, id);
    case Hold(id) => BalanceHold(t.refs, t.holds, Flight(t), id);
    case Drop(id) => BalanceHold(t.refs, t.holds, Flight(t), id);
    case Socket(c) => SocketKeeps(t, c);
  }

  /** States visited from an attached interface with an empty queue. */
  ghost predicate Run(ts: seq<Tx>, es: seq<Step>, mtu: nat, capacity: nat) {
    && mtu >= 28 && MaxFrames(mtu) + 8 <= capacity
    && |ts| == |es| + 1
    && ts[0] == Tx(Cap(true, mtu, capacity, capacity, false, [], []), [], [], [], multiset{}, map[], map[])
    && forall i :: 0 <= i < |es| ==> Ready(ts[i]) && Enabled(ts[i], es[i]) && ts[i + 1] == Next(ts[i], es[i])
  }

  /**
   In every run, whatever the driver refuses and however drains interleave:
   frames reach the driver in exactly linkoutput order, no pbuf is in flight
   twice, references balance, the free count is the free pending slots, and a
   waiting sender always finds its wake armed and the pending queue non-empty,
   so the unlocked gate of the completion callback never suppresses it.
   */
  lemma {:induction false} TransmitSafe(ts: seq<Tx>, es: seq<Step>, mtu: nat, capacity: nat, i: nat)
    requires Run(ts, es, mtu, capacity) && i < |ts|
    ensures Inv(ts[i])
    ensures ts[i].submitted <= ts[i].accepted
    ensures ts[i].cap.waiters != [] ==> ts[i].cap.want && ts[i].pending != []
    decreases i
  {
    hide Frames, Next, TxCapacity.Next;
    if i > 0 {
      TransmitSafe(ts, es, mtu, capacity, i - 1);
      Keeps(ts[i - 1], es[i - 1]);
    }
  }

  /**
   Whole-datagram admission is sound: once admitted, all fragments of a
   datagram are accepted in the same lock hold whatever the driver answers,
   as long as needed clones can be made.
   */
  lemma {:induction false} AdmittedIsSent(t: Tx, frames: seq<(Id, Id)>, takes: seq<bool>)
    requires Ready(t) && |takes| == |frames| && |frames| <= t.cap.free
    ensures Emit(t, frames, takes).1
    decreases |frames|
  {
    if frames != [] {
      hide Frames;
      var n := |frames| - 1;
      AdmittedIsSent(t, frames[..n], takes[..n]);
      EmitUses(t, frames[..n], takes[..n]);
    }
  }

  /** Emit frames back to back (pbuf and spare clone id each); true when every one was accepted. */
  function Emit(t: Tx, frames: seq<(Id, Id)>, takes: seq<bool>): (r: (Tx, bool))
    requires Ready(t) && |takes| == |frames|
    ensures Ready(r.0)
  {
    if frames == [] then (t, true) else
    var n := |frames| - 1;
    var (s, ok) := Emit(t, frames[..n], takes[..n]);
    var (s', ok') := Output(s, frames[n].0, frames[n].1, true, takes[n]);
    (s', ok && ok')
  }

  /** True means just that: as many frames were accepted as there are, and never more. */
  lemma {:induction false} EmitExact(t: Tx, frames: seq<(Id, Id)>, takes: seq<bool>)
    requires Ready(t) && |takes| == |frames|
    ensures |t.accepted| <= |Emit(t, frames, takes).0.accepted| <= |t.accepted| + |frames|
    ensures Emit(t, frames, takes).1 <==> |Emit(t, frames, takes).0.accepted| == |t.accepted| + |frames|
    decreases |frames|
  {
    if frames != [] {
      hide Frames, TxCapacity.Next, Bump, Dip;
      EmitExact(t, frames[..|frames| - 1], takes[..|frames| - 1]);
    }
  }

  lemma {:induction false} EmitUses(t: Tx, frames: seq<(Id, Id)>, takes: seq<bool>)
    requires Ready(t) && |takes| == |frames|
    ensures Emit(t, frames, takes).0.cap.free >= t.cap.free - |frames|
    decreases |frames|
  {
    if frames != [] {
      hide Frames;
      EmitUses(t, frames[..|frames| - 1], takes[..|frames| - 1]);
    }
  }

  // ---- the capacity ----

  /** What the senders asked of the capacity in a run, in order. */
  function Sockets(es: seq<Step>): seq<TxCapacity.Step> {
    if es == [] then [] else Sockets(es[..|es| - 1]) + if es[|es| - 1].Socket? then [es[|es| - 1].e] else []
  }

  predicate Asks(e: TxCapacity.Step) { e.Room? || e.Poll? || e.Close? }

  function AskedOf(xs: seq<TxCapacity.Step>): seq<TxCapacity.Step> {
    if xs == [] then [] else AskedOf(xs[..|xs| - 1]) + if Asks(xs[|xs| - 1]) then [xs[|xs| - 1]] else []
  }

  lemma {:induction false} AskedSnoc(xs: seq<TxCapacity.Step>, e: TxCapacity.Step)
    ensures AskedOf(xs + [e]) == AskedOf(xs) + if Asks(e) then [e] else []
  {
    assert (xs + [e])[..|xs|] == xs;
  }

  /** xs are steps of the capacity from c to d. */
  ghost predicate CapLeads(c: Cap, xs: seq<TxCapacity.Step>, d: Cap)
    decreases |xs|
  {
    if xs == [] then d == c
    else Sized(c) && TxCapacity.Enabled(c, xs[0]) && CapLeads(TxCapacity.Next(c, xs[0]), xs[1..], d)
  }

  lemma {:induction false} CapOn(c: Cap, xs: seq<TxCapacity.Step>, m: Cap, e: TxCapacity.Step)
    requires CapLeads(c, xs, m) && Sized(m) && TxCapacity.Enabled(m, e)
    ensures CapLeads(c, xs + [e], TxCapacity.Next(m, e))
    decreases |xs|
  {
    hide Frames, TxCapacity.Next, TxCapacity.Enabled;
    if xs == [] {
      assert ([] + [e])[1..] == [];
    } else {
      assert (xs + [e])[1..] == xs[1..] + [e] && (xs + [e])[0] == xs[0];
      CapOn(TxCapacity.Next(c, xs[0]), xs[1..], m, e);
    }
  }

  /** The capacity after n drained frames: that many slots freed. */
  lemma {:induction false} DrainCap(c: Cap, xs: seq<TxCapacity.Step>, t: Tx, n: nat) returns (ys: seq<TxCapacity.Step>)
    requires Ready(t) && n <= |t.pending| && CapLeads(c, xs, t.cap)
    ensures CapLeads(c, ys, PendDrain(t, n).cap) && AskedOf(ys) == AskedOf(xs)
    decreases n
  {
    ys := xs;
    if n > 0 {
      var m := PendDrain(t, n - 1);
      var zs := DrainCap(c, xs, t, n - 1);
      hide Frames, TxCapacity.Next, CapLeads;
      CapOn(c, zs, m.cap, Freed);
      AskedSnoc(zs, Freed);
      ys := zs + [Freed];
    }
  }

  lemma {:induction false} StepCap(c: Cap, xs: seq<TxCapacity.Step>, t: Tx, e: Step) returns (ys: seq<TxCapacity.Step>)
    requires Ready(t) && Enabled(t, e) && CapLeads(c, xs, t.cap)
    ensures CapLeads(c, ys, Next(t, e).cap) && AskedOf(ys) == AskedOf(xs) + if e.Socket? then [e.e] else []
  {
    hide Frames, TxCapacity.Next, CapLeads, PendDrain, Bump, Dip;
    ys := xs;
    assert AskedOf(xs) + [] == AskedOf(xs);
    match e
    case Socket(x) =>
      CapOn(c, xs, t.cap, x);
      AskedSnoc(xs, x);
      ys := xs + [x];
    case Drain(n) => ys := DrainCap(c, xs, t, n);
    case Link(p, clone, cloned, takes) =>
      if Next(t, e).pending != t.pending {
        CapOn(c, xs, t.cap, Taken);
        AskedSnoc(xs, Taken);
        ys := xs + [Taken];
      }
    case _ =>
  }

  /**
   Queue and admission agree: in every run the interface's capacity is where the
   senders' requests, each applied once and in order, and one slot taken or freed
   for each frame queued or drained, lead it.
   */
  lemma {:induction false} CapacityIsDriven(ts: seq<Tx>, es: seq<Step>, mtu: nat, capacity: nat, i: nat) returns (xs: seq<TxCapacity.Step>)
    requires Run(ts, es, mtu, capacity) && i < |ts|
    ensures CapLeads(ts[0].cap, xs, ts[i].cap) && AskedOf(xs) == Sockets(es[..i])
    decreases i
  {
    hide Frames, Next, TxCapacity.Next, Enabled, Ready, MaxFrames;
    xs := [];
    if i == 0 {
      assert es[..0] == [];
    } else {
      var n := i - 1;
      var ys := CapacityIsDriven(ts, es, mtu, capacity, n);
      assert Ready(ts[n]) && Enabled(ts[n], es[n]) && ts[i] == Next(ts[n], es[n]);
      hide Run;
      xs := StepCap(ts[0].cap, ys, ts[n], es[n]);
      SocketsSnoc(es, n);
    }
  }

  lemma {:induction false} SocketsSnoc(es: seq<Step>, n: nat)
    requires n < |es|
    ensures Sockets(es[..n + 1]) == Sockets(es[..n]) + if es[n].Socket? then [es[n].e] else []
  {
    assert es[..n + 1][..n] == es[..n];
  }

  ghost predicate Goes(t: Tx, e: Step, r: Tx) { Ready(t) && Enabled(t, e) && r == Next(t, e) }

  lemma {:induction false} QueueOne(t: Tx, p: Id, clone: Id) returns (t1: Tx, t2: Tx)
    requires Ready(t) && t.refs == map[] && t.holds == map[] && t.pending == [] && t.accepted == [] && p != clone
    ensures Goes(t, Hold(p), t1) && Goes(t1, Link(p, clone, true, false), t2)
    ensures t2 == t.(refs := map[p := 2], holds := map[p := 1], pending := [p], accepted := [p], cap := t2.cap)
    ensures t2.cap.free == t.cap.free - 1
  {
    hide Frames;
    t1 := Next(t, Hold(p));
    assert t1.refs == map[p := 1] && t1.holds == map[p := 1];
    t2 := Next(t1, Link(p, clone, true, false));
    assert t2.refs == map[p := 2];
  }

  lemma {:induction false} DrainIt(t: Tx, p: Id) returns (t3: Tx)
    requires Ready(t) && t.pending == [p] && t.submitted == []
    ensures Goes(t, Drain(1), t3) && t3 == t.(pending := [], submitted := [p], cap := t3.cap) && t3.cap.free == t.cap.free + 1
  {
    hide Frames;
    t3 := Next(t, Drain(1));
    assert t3 == DrainOne(PendDrain(t, 0));
  }

  lemma {:induction false} CompleteIt(t: Tx, p: Id) returns (t4: Tx, t5: Tx)
    requires Ready(t) && t.submitted == [p] && t.freed == multiset{} && t.refs == map[p := 2] && t.holds == map[p := 1]
    ensures Goes(t, Done(p), t4) && Goes(t4, Drop(p), t5) && At0(t5.refs, p) == 0 && t5.cap == t.cap
  {
    hide Frames;
    assert p in multiset(t.submitted) - t.freed;
    t4 := Next(t, Done(p));
    t5 := Next(t4, Drop(p));
  }

  /** One frame's way through the queue of a fresh interface: held once, queued, drained, completed, dropped. */
  lemma {:induction false} OneFrame(t: Tx, p: Id, clone: Id) returns (ts: seq<Tx>)
    requires Ready(t) && t.refs == map[] && t.holds == map[] && t.pending == [] && t.submitted == [] && t.accepted == [] && t.freed == multiset{}
    requires p != clone
    ensures |ts| == 6 && ts[0] == t
    ensures Goes(ts[0], Hold(p), ts[1]) && Goes(ts[1], Link(p, clone, true, false), ts[2]) && Goes(ts[2], Drain(1), ts[3])
    ensures Goes(ts[3], Done(p), ts[4]) && Goes(ts[4], Drop(p), ts[5])
    ensures ts[2].pending == [p] && ts[3].submitted == [p] && At0(ts[5].refs, p) == 0 && ts[5].cap.free == t.cap.free
  {
    hide Frames, Next, Enabled;
    var t1, t2 := QueueOne(t, p, clone);
    var t3 := DrainIt(t2, p);
    var t4, t5 := CompleteIt(t3, p);
    ts := [t, t1, t2, t3, t4, t5];
  }

  // ---- teardown ----

  function DipAll(refs: map<Id, nat>, ids: seq<Id>): map<Id, nat> {
    if ids == [] then refs else Dip(DipAll(refs, ids[..|ids| - 1]), ids[|ids| - 1])
  }

  /** Destroying the interface drops each pending frame's reference once; the driver's own remain its to complete. */
  lemma {:induction false} PendFreeBalances(refs: map<Id, nat>, holds: map<Id, nat>, flight: multiset<Id>, ids: seq<Id>)
    requires Balanced(refs, holds, flight) && multiset(ids) <= flight
    ensures Balanced(DipAll(refs, ids), holds, flight - multiset(ids))
    decreases |ids|
  {
    if ids != [] {
      var pre, last := ids[..|ids| - 1], ids[|ids| - 1];
      assert ids == pre + [last];
      hide Balanced, Dip;
      PendFreeBalances(refs, holds, flight, pre);
      BalanceDone(DipAll(refs, pre), holds, flight - multiset(pre), last);
      assert flight - multiset(pre) - multiset{last} == flight - multiset(ids);
    }
  }

  // ---- the interface, in place ----

  class NetdevIf {
    const base: TxBase
    const reclaim: ReclaimRing.Ring
    const pend: array<Id>
    var head: u32
    var tail: u32
    var kickPending: bool
    ghost var rung: seq<nat> // frames submitted at each doorbell
    var refs: map<Id, nat>
    var submitted: seq<Id>
    ghost var accepted: seq<Id>
    ghost var freed: multiset<Id>
    ghost var holds: map<Id, nat>

    ghost predicate Shaped() reads this { Divides(pend.Length) && pend.Length < M32 && Sub32(tail, head) <= pend.Length }

    ghost function Pending(): seq<Id>
      requires Shaped()
      reads this, pend
    {
      Window(pend[..], head, Sub32(tail, head))
    }

    ghost function View(): Tx
      requires Shaped()
      reads this, pend, base
    {
      Tx(base.View(), Pending(), submitted, accepted, freed, refs, holds)
    }

    ghost predicate Valid() reads this, pend, base {
      Shaped() && base.capacity == pend.Length && Ready(View())
    }

    static method RingSize(want: nat) returns (n: nat)
      requires want <= 0x8000_0000
      ensures Divides(n) && want <= n < M32 && (want > 0 ==> n < 2 * want)
    {
      Pow2Word();
      hide Pow2, Divides;
      n := RoundUpPow2(want);
      if want > 0 {
        RoundUpTight(want);
      }
    }

    /**
     netdevif_create, with the driver's in-flight ceiling and ring depth: a reclaim
     ring with a slot to spare over that many cookies, and a queue for a maximum
     datagram's fragments and slack, both powers of two.
     */
    constructor (mtu: nat, inFlight: u16, ringSlots: u16)
      requires mtu >= 28
      ensures Valid() && fresh(pend) && fresh(base) && base.active && View().cap.mtu == mtu && !kickPending && rung == []
      ensures View() == Tx(Cap(true, mtu, pend.Length, pend.Length, false, [], []), [], [], [], multiset{}, map[], map[])
      ensures MaxFrames(mtu) + 8 <= pend.Length && PEND_MIN <= pend.Length
      ensures pend.Length < 2 * PEND_MIN || pend.Length < 2 * (MaxFrames(mtu) + 8)
      ensures fresh(reclaim) && fresh(reclaim.slots) && reclaim.Valid() && reclaim.Contents() == []
      ensures reclaim.slots.Length < 2 * (FREE_MIN + 1) || reclaim.slots.Length < 2 * ((if inFlight == 0 then 2 * ringSlots else inFlight) + 1)
      ensures reclaim.slots.Length > FREE_MIN && reclaim.slots.Length > if inFlight == 0 then 2 * ringSlots else inFlight
    {
      FramesBound(mtu);
      hide Frames, Divides, Window, Sub32, At;
      var cookies := if inFlight == 0 then ringSlots * 2 else inFlight;
      if cookies < FREE_MIN {
        cookies := FREE_MIN;
      }
      var r := RingSize(cookies + 1);
      reclaim := new ReclaimRing.Ring(r);
      var want := MaxFrames(mtu) + 8;
      var n := RingSize(if want < PEND_MIN then PEND_MIN else want);
      base := new TxBase(mtu, n);
      pend := new Id[n](_ => 0);
      head, tail, kickPending, rung := 0, 0, false, [];
      refs, submitted, accepted, freed, holds := map[], [], [], multiset{}, map[];
    }

    /** Offer one frame to the driver's ring; the driver decides. */
    method TxSubmit(frame: Id) returns (ok: bool)
      modifies this`submitted, this`kickPending
      ensures submitted == if ok then old(submitted) + [frame] else old(submitted)
      ensures kickPending == (ok || old(kickPending))
    {
      ok := *;
      if ok {
        submitted := submitted + [frame];
        kickPending := true;
      }
    }

    /** netdevif_tx_kick, at every outermost unlock: one doorbell for all that was submitted since the last. */
    method Kick()
      modifies this`kickPending, this`rung
      ensures !kickPending && rung == if old(kickPending) then old(rung) + [|submitted|] else old(rung)
    {
      if kickPending {
        rung := rung + [|submitted|];
        kickPending := false;
      }
    }

    method Enqueue(frame: Id)
      requires Shaped() && Sub32(tail, head) < pend.Length
      modifies this`tail, pend
      ensures Shaped() && Pending() == old(Pending()) + [frame]
    {
      ghost var n, q := pend.Length, Pending();
      EndOfQueue(tail, head, |q|);
      AddIsMod(head, |q|);
      Masked(head + |q|, n);
      WindowStore(pend[..], head, |q|, frame);
      Appended(tail, head, 1);
      hide At, Add32, Sub32;
      ghost var was := pend[..];
      pend[At(tail, pend.Length)] := frame;
      assert pend[..] == was[At(head + |q|, n) := frame];
      tail := Add32(tail, 1);
    }

    method Dequeue()
      requires Shaped() && head != tail
      modifies this`head
      ensures Shaped() && old(Pending()) != [] && Pending() == old(Pending())[1..]
      ensures Sub32(tail, head) == old(Sub32(tail, head)) - 1
    {
      ghost var q := Pending();
      EndOfQueue(tail, head, 0);
      Shortened(tail, head);
      AddIsMod(head, 1);
      WindowWrap(pend[..], head + 1, |q| - 1);
      hide At, Divides;
      head := Add32(head, 1);
      assert Pending() == q[1..];
    }

    /** The aliasing guard: a pbuf still armed from an earlier transmission goes out as a private clone. */
    method Arm(p: Id, clone: Id, cloned: bool) returns (frame: Id, armed: bool)
      requires Valid()
      modifies `refs
      ensures armed == !(Armed(old(View()), p) && !cloned)
      ensures View() == if armed then Grab(old(View()), p, clone) else old(View())
      ensures armed ==> Valid() && frame == FrameOf(old(View()), p, clone)
    {
      hide Frames, At, Divides, Sub32, Window, Bump;
      frame, armed := p, true;
      if p in refs && refs[p] > 1 {
        if !cloned {
          return frame, false;
        }
        frame := clone;
        refs := refs[clone := 1];
      } else {
        refs := Bump(refs, p);
      }
    }

    method LinkOutput(p: Id, clone: Id, cloned: bool) returns (ok: bool, ghost takes: bool)
      requires Valid()
      modifies this, pend, base
      ensures Valid() && (View(), ok) == old(Output(View(), p, clone, cloned, takes))
      ensures kickPending == (old(kickPending) || |submitted| > |old(submitted)|) && rung == old(rung)
    {
      hide Frames, At, Divides, Sub32, Window, Bump, Dip, TxCapacity.Next;
      takes := false;
      var frame, armed := Arm(p, clone, cloned);
      if !armed {
        return false, takes;
      }
      var empty := Empty();
      if empty {
        var taken := TxSubmit(frame);
        takes := taken;
        if taken {
          accepted := accepted + [frame];
          return true, takes;
        }
      }
      ok := QueueFrame(frame);
    }

    /** The pending queue takes the frame, or it is dropped. */
    method QueueFrame(frame: Id) returns (ok: bool)
      requires Valid()
      modifies `tail, `refs, `accepted, pend, base
      ensures Valid() && ok == !Full(old(View()))
      ensures var t := old(View());
        View() == if !ok then t.(refs := Dip(t.refs, frame))
                  else t.(cap := TxCapacity.Next(t.cap, Taken), pending := t.pending + [frame], accepted := t.accepted + [frame])
    {
      hide Frames, At, Divides, Sub32, Window, Bump, Dip, TxCapacity.Next;
      if Sub32(tail, head) > pend.Length - 1 {
        refs := Dip(refs, frame);
        return false;
      }
      Enqueue(frame);
      base.TxTaken();
      accepted := accepted + [frame];
      return true;
    }

    method Empty() returns (empty: bool)
      requires Shaped()
      ensures empty <==> Pending() == []
    {
      EndOfQueue(tail, head, 0);
      empty := head == tail;
    }

    /** ndif_tx_pend_drain: resubmit in order while the driver takes frames. */
    method Drain() returns (ghost n: nat, ghost refused: bool)
      requires Valid()
      modifies this, base
      ensures Valid() && n <= |old(Pending())| && View() == old(PendDrain(View(), n))
      ensures if refused then n < |old(Pending())| else Pending() == []
      ensures kickPending == (old(kickPending) || n > 0) && rung == old(rung)
    {
      hide Frames, Divides, Window, TxCapacity.Next, DrainOne;
      n, refused := 0, false;
      ghost var t := View();
      var more := true;
      while more
        invariant Valid() && n <= |t.pending| && View() == PendDrain(t, n)
        invariant !more ==> if refused then n < |t.pending| else Pending() == []
        invariant kickPending == (old(kickPending) || n > 0) && rung == old(rung)
        decreases |Pending()|, more
      {
        more, refused := TryOne();
        if more {
          n := n + 1;
        }
      }
    }

    method TryOne() returns (taken: bool, ghost refused: bool)
      requires Valid()
      modifies this`head, this`submitted, this`kickPending, base
      ensures Valid() && (taken ==> old(Pending()) != [])
      ensures !taken ==> (refused <==> old(Pending()) != [])
      ensures View() == if taken then old(DrainOne(View())) else old(View())
      ensures kickPending == (taken || old(kickPending))
    {
      hide Frames, Divides, Window, TxCapacity.Next;
      var empty := Empty();
      if empty {
        return false, false;
      }
      FrontIs(pend[..], head, Sub32(tail, head));
      taken := TxSubmit(pend[At(head, pend.Length)]);
      refused := !taken;
      if taken {
        Dequeue();
        base.TxFreed();
      }
    }

    method PendFree()
      requires Shaped()
      modifies this`head, this`refs
      ensures Shaped() && Pending() == [] && refs == DipAll(old(refs), old(Pending()))
    {
      hide Divides, Window, At, Dip;
      ghost var q, k := Pending(), 0;
      var empty := Empty();
      while !empty
        invariant Shaped() && 0 <= k <= |q| && Pending() == q[k..] && refs == DipAll(old(refs), q[..k])
        invariant empty <==> Pending() == []
        decreases |q| - k
      {
        FrontIs(pend[..], head, Sub32(tail, head));
        assert q[..k + 1][..k] == q[..k];
        refs := Dip(refs, pend[At(head, pend.Length)]);
        Dequeue();
        k := k + 1;
        empty := Empty();
      }
      assert q[..k] == q;
    }
  }
}
