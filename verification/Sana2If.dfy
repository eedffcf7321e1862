/**
 The same traffic as the objects that carry it: the transmit half of struct
 Sana2If (port/amiga/sana2_tx.c) and the receive half of struct S2Pump
 (port/amiga/sana2_pump.c).
 */
module Sana2If {
  import opened Basics
  import opened Sana2

  const ERR_OK := 0
  const ERR_MEM := -1
  const ERR_IF := -12
  const RX_BATCH := 64

  /** A batch submitted in order; each flag says whether the driver finished that request in place. */
  function FlushAll(t: Tx, quick: seq<bool>): Tx
    requires |quick| <= |t.staged|
    decreases |quick|
  {
    if quick == [] then t else FlushAll(FlushStep(t, quick[0]), quick[1..])
  }

  lemma {:induction false} FlushAllSnoc(t: Tx, quick: seq<bool>, q: bool)
    requires |quick| < |t.staged|
    ensures FlushAll(t, quick).staged == t.staged[|quick|..]
    ensures FlushAll(t, quick + [q]) == FlushStep(FlushAll(t, quick), q)
    decreases |quick|
  {
    if quick == [] {
      assert [] + [q] == [q] && [q][1..] == [];
    } else {
      assert (quick + [q])[1..] == quick[1..] + [q] && (quick + [q])[0] == quick[0];
      FlushAllSnoc(FlushStep(t, quick[0]), quick[1..], q);
    }
  }

  /** The transmit side; every member runs under the core lock. */
  class TxSide {
    var free: seq<nat>
    var staged: seq<nat>
    var done: seq<nat>
    var inFlight: nat
    var room: nat
    var down: bool
    var flushPending: bool
    var drops: nat
    var data: map<nat, nat>
    ghost var driver: seq<nat>

    ghost function View(): Tx
      reads this
    {
      Tx(free, staged, driver, done, inFlight, room, down)
    }

    /** Nothing staged goes unannounced. */
    ghost predicate Valid()
      reads this
    {
      (staged != [] ==> flushPending) && room == |free|
    }

    /** s2if_tx_retire. */
    method RetireOne(w: nat)
      modifies `free, `room, `data
      ensures View() == Retire(old(View()), w) && data == old(data) - {w}
    {
      data := data - {w};
      free := [w] + free;
      room := room + 1;
    }

    /** sana2if_tx_flush. */
    method Flush() returns (ghost quick: seq<bool>)
      requires Valid()
      modifies `free, `room, `data, `staged, `flushPending, `inFlight, `driver
      ensures Valid() && staged == [] && |quick| == |old(staged)| && View() == FlushAll(old(View()), quick)
    {
      quick := [];
      if !flushPending {
        return;
      }
      ghost var t := View();
      var req := staged;
      staged := [];
      flushPending := false;
      ghost var n := 0;
      while req != []
        invariant 0 <= n <= |t.staged| && |quick| == n && req == t.staged[n..] && staged == [] && !flushPending
        invariant View().(staged := req) == FlushAll(t, quick) && room == |free|
        decreases |req|
      {
        var w := req[0];
        var inPlace: bool := *;
        FlushAllSnoc(t, quick, inPlace);
        hide FlushAll;
        req := req[1..];
        if inPlace {
          RetireOne(w);
        } else {
          driver := driver + [w];
          inFlight := inFlight + 1;
        }
        quick := quick + [inPlace];
        n := n + 1;
      }
    }

    /** s2if_tx_complete for the first harvested write. */
    method Complete()
      requires done != [] && inFlight > 0
      modifies `free, `room, `data, `done, `inFlight
      ensures View() == CompleteOne(old(View()))
    {
      var w := done[0];
      done := done[1..];
      RetireOne(w);
      inFlight := inFlight - 1;
    }

    /**
     s2if_linkoutput: header says that the Ethernet header is whole, shared that
     an earlier transmission of the same pbuf may still be in the driver, clone
     what a copy of it came to. A frame is accepted into exactly one request,
     under its own identity or that of a private copy.
     */
    method LinkOutput(p: nat, header: bool, shared: bool, clone: Option<nat>) returns (err: int, ghost quick: seq<bool>)
      requires Valid()
      modifies this
      ensures Valid() && (err == ERR_OK || err == ERR_MEM || err == ERR_IF)
      ensures down == old(down) && drops == old(drops) + One(!down && (!header || (err == ERR_MEM && free == [])))
      ensures |quick| == (if !down && header && old(free) == [] then |old(staged)| else 0)
      ensures var t := FlushAll(old(View()), quick);
        && (err == ERR_OK ==> t.free != [] && View() == StageOne(t))
        && (err != ERR_OK ==> View() == t)
      ensures err == ERR_OK ==>
        var w := staged[|staged| - 1]; w in data && (if shared then clone.Some? && data[w] == clone.value else data[w] == p)
      ensures err == ERR_OK <==> !down && header && FlushAll(old(View()), quick).free != [] && (shared ==> clone.Some?)
    {
      quick := [];
      if down {
        return ERR_IF, [];
      }
      if !header {
        drops := drops + 1;
        return ERR_IF, [];
      }
      if free == [] {
        quick := Flush();
      }
      hide FlushAll;
      if free == [] {
        drops := drops + 1;
        return ERR_MEM, quick;
      }
      var frame := p;
      if shared {
        if clone.None? {
          return ERR_MEM, quick;
        }
        frame := clone.value;
      }
      var w := free[0];
      free := free[1..];
      room := room - 1;
      data := data[w := frame];
      staged := staged + [w];
      flushPending := true;
      err := ERR_OK;
    }
  }

  // ---- the receive side ----

  function Reversed(q: seq<nat>): seq<nat> { if q == [] then [] else Reversed(q[1..]) + [q[0]] }

  /** A batch of finished reads decided in order; mem says for which a replacement buffer was found. */
  function RequeueAll(x: Rx, draining: bool, mem: seq<bool>): Rx
    requires |mem| <= |x.chain|
    decreases |mem|
  {
    if mem == [] then x else RequeueAll(RequeueOne(x, FateOf(x.chain[0], draining, mem[0])), draining, mem[1..])
  }

  lemma {:induction false} RequeueAllSnoc(x: Rx, draining: bool, mem: seq<bool>, m: bool)
    requires |mem| < |x.chain|
    ensures RequeueAll(x, draining, mem).chain == x.chain[|mem|..]
    ensures var y := RequeueAll(x, draining, mem);
      RequeueAll(x, draining, mem + [m]) == RequeueOne(y, FateOf(y.chain[0], draining, m))
    decreases |mem|
  {
    hide RequeueOne, FateOf;
    if mem == [] {
      assert [] + [m] == [m] && [m][1..] == [];
    } else {
      assert (mem + [m])[1..] == mem[1..] + [m] && (mem + [m])[0] == mem[0];
      var f := FateOf(x.chain[0], draining, mem[0]);
      RequeueShortens(x, f);
      RequeueAllSnoc(RequeueOne(x, f), draining, mem[1..], m);
    }
  }

  lemma {:induction false} RequeueShortens(x: Rx, f: Fate)
    requires x.chain != []
    ensures RequeueOne(x, f).chain == x.chain[1..]
  {
  }

  lemma {:induction false} ReversedHead(w: nat, q: seq<nat>, done: seq<nat>)
    ensures Reversed([w] + q) + done == Reversed(q) + ([w] + done)
  {
    assert ([w] + q)[1..] == q;
    assert Reversed(q) + [w] + done == Reversed(q) + ([w] + done);
  }

  lemma {:induction false} HarvestHead(port: seq<Item>, chain: seq<Arrival>, done: seq<nat>)
    requires port != []
    ensures var m, rest := port[0], port[1..];
      && chain + Reads(port) == (if m.ReadDone? then chain + [m.a] else chain) + Reads(rest)
      && Reversed(Writes(port)) + done == Reversed(Writes(rest)) + (if m.WriteDone? then [m.w] + done else done)
  {
    hide Reads, Writes, Reversed;
    PortHead(port);
    var m, rest := port[0], port[1..];
    match m
    case ReadDone(a) => assert chain + ([a] + Reads(rest)) == chain + [a] + Reads(rest);
    case WriteDone(w) => ReversedHead(w, Writes(rest), done);
    case EventDone =>
  }

  /** What the event request with the driver waits for. */
  datatype Await = NoEvent | AwaitOffline | AwaitOnline

  class PumpSide {
    var port: seq<Item>
    var chain: seq<Arrival>
    var done: seq<nat>
    var evReplied: bool
    var evHome: bool
    var evDead: bool
    var linkUp: bool
    ghost var awaits: Await
    var parked: seq<nat>
    var unparked: seq<nat>
    var repost: seq<nat>
    var flight: nat
    var mark: map<nat, Mark>
    var draining: bool
    var noMem: nat
    var errors: nat
    ghost var driver: seq<nat>
    ghost var home: seq<nat>
    ghost var fates: seq<Fate>
    ghost var out: seq<nat>

    ghost function View(): Rx
      reads this
    {
      Rx(driver, chain, parked, unparked, repost, home, flight, mark, fates, out, noMem, errors)
    }

    /** s2if_pump_harvest: reads first in first out, writes in any order. */
    method HarvestPort()
      modifies `port, `chain, `done, `evReplied
      ensures port == [] && chain == Reads(old(port)) && done == Reversed(Writes(old(port)))
      ensures evReplied == (Events(old(port)) > 0)
    {
      chain, done, evReplied := [], [], false;
      while port != []
        invariant chain + Reads(port) == Reads(old(port))
        invariant Reversed(Writes(port)) + done == Reversed(Writes(old(port)))
        invariant evReplied || Events(port) > 0 <==> Events(old(port)) > 0
        decreases |port|
      {
        HarvestHead(port, chain, done);
        hide Reads, Writes, Reversed;
        var m := port[0];
        port := port[1..];
        match m
        case EventDone => evReplied := true;
        case ReadDone(a) => chain := chain + [a];
        case WriteDone(w) => done := [w] + done;
      }
    }

    /**
     The event part of s2if_pump_txev, with what the event request came back with:
     its error and the events that fired. ONLINE puts every parked read back in
     service; without an error the request is armed again, for the event that can
     come next.
     */
    method TxEv(err: bool, offline: bool, online: bool)
      requires unparked == []
      modifies `evHome, `evDead, `linkUp, `parked, `unparked, `driver, `flight, `mark, `awaits
      ensures var act := evReplied && !draining && !err;
        && unparked == [] && parked == (if act && online then [] else old(parked))
        && driver == old(driver) + (if act && online then old(parked) else [])
        && flight == old(flight) + (if act && online then |old(parked)| else 0)
        && linkUp == (if act && online then true else if act && offline then false else old(linkUp))
        && awaits == (if act then (if linkUp then AwaitOffline else AwaitOnline) else if evReplied then NoEvent else old(awaits))
      ensures evDead == (old(evDead) || (evReplied && !draining && err))
      ensures evHome == if evReplied then draining || err else old(evHome)
      ensures evReplied && !draining && !err && online ==>
        && (forall r :: r in old(parked) ==> r in mark && mark[r] == Flight)
        && (forall r :: r !in old(parked) && r in old(mark) ==> r in mark && mark[r] == old(mark)[r])
      ensures !(evReplied && !draining && !err && online) ==> mark == old(mark)
    {
      var rearm := LinkEvent(err, offline, online);
      // the lock is released here
      if rearm && !draining {
        awaits, evHome := if linkUp then AwaitOffline else AwaitOnline, false;
      }
      SendAllUnparked();
    }

    /** Its part under the lock. */
    method LinkEvent(err: bool, offline: bool, online: bool) returns (rearm: bool)
      requires unparked == []
      modifies `evHome, `evDead, `linkUp, `parked, `unparked, `awaits
      ensures rearm == (evReplied && !draining && !err)
      ensures if rearm && online then parked == [] && unparked == old(parked) else parked == old(parked) && unparked == []
      ensures linkUp == if rearm && online then true else if rearm && offline then false else old(linkUp)
      ensures evHome == (evReplied || old(evHome)) && awaits == if evReplied then NoEvent else old(awaits)
      ensures evDead == (old(evDead) || (evReplied && !draining && err))
    {
      rearm := false;
      if evReplied {
        evHome, awaits := true, NoEvent;
        if !draining {
          if !err {
            if offline {
              linkUp := false;
            }
            if online {
              linkUp := true;
              TakeParked();
            }
            rearm := true;
          } else {
            evDead := true;
          }
        }
      }
    }

    /** The parked list is taken over whole. */
    method TakeParked()
      requires unparked == []
      modifies `parked, `unparked
      ensures View() == Unpark(old(View())) && parked == [] && unparked == old(parked)
    {
      unparked := parked;
      parked := [];
      assert [] + old(parked) == old(parked);
    }

    /**
     s2if_pump_rx_requeue, the part under the lock: up to one batch off the
     harvest chain, each read delivered, counted, parked or sent home.
     */
    method RequeueBatch() returns (deliver: seq<nat>, ghost mems: seq<bool>)
      requires flight >= |chain|
      modifies `chain, `flight, `mark, `home, `parked, `errors, `noMem, `repost, `fates, `out
      ensures |mems| == (if |old(chain)| < RX_BATCH then |old(chain)| else RX_BATCH)
      ensures View() == RequeueAll(old(View()), draining, mems) && out == old(out) + deliver && |deliver| <= RX_BATCH
    {
      hide FateOf, RequeueOne;
      deliver, mems := [], [];
      ghost var x := View();
      var n := 0;
      while chain != [] && n < RX_BATCH
        invariant 0 <= n <= RX_BATCH && n <= |x.chain| && |mems| == n && |deliver| <= n
        invariant View() == RequeueAll(x, draining, mems) && chain == x.chain[n..] && out == x.out + deliver
        invariant flight >= |chain|
        decreases |chain|
      {
        var mem: bool := *;
        RequeueAllSnoc(x, draining, mems, mem);
        hide RequeueAll;
        var got := DecideOne(mem);
        deliver := deliver + got;
        mems := mems + [mem];
        n := n + 1;
      }
    }

    method DecideOne(mem: bool) returns (got: seq<nat>)
      requires chain != [] && flight > 0
      modifies `chain, `flight, `mark, `home, `parked, `errors, `noMem, `repost, `fates, `out
      ensures View() == RequeueOne(old(View()), FateOf(old(chain)[0], draining, mem))
      ensures out == old(out) + got && |got| <= 1 && flight >= old(flight) - 1 && chain == old(chain)[1..]
    {
      got := [];
      if draining {
        SendHome();
      } else if chain[0].offline {
        ParkOne();
      } else {
        got := PutBack(mem);
      }
      hide RequeueOne;
    }

    method SendHome()
      requires chain != [] && flight > 0
      modifies `chain, `flight, `mark, `home, `fates
      ensures View() == RequeueOne(old(View()), Unwanted(old(chain)[0]))
      ensures flight == old(flight) - 1 && chain == old(chain)[1..]
    {
      var a := chain[0];
      chain, flight := chain[1..], flight - 1;
      mark := mark[a.r := AtHome];
      home, fates := home + [a.r], fates + [Unwanted(a)];
    }

    /** Out of service: parking beats a repost spin; the ONLINE event releases the list. */
    method ParkOne()
      requires chain != [] && flight > 0
      modifies `chain, `flight, `mark, `parked, `fates
      ensures View() == RequeueOne(old(View()), Offline(old(chain)[0]))
      ensures flight == old(flight) - 1 && chain == old(chain)[1..]
    {
      var a := chain[0];
      chain, flight := chain[1..], flight - 1;
      mark := mark[a.r := Parked];
      parked, fates := [a.r] + parked, fates + [Offline(a)];
    }

    /** Detach the frame if there is a replacement for it, and put the read back in service. */
    method PutBack(mem: bool) returns (got: seq<nat>)
      requires chain != [] && flight > 0
      modifies `chain, `flight, `mark, `errors, `noMem, `repost, `fates, `out
      ensures var a := old(chain)[0];
        View() == RequeueOne(old(View()), if !a.good then Error(a) else if mem then Delivered(a) else NoMemory(a))
      ensures out == old(out) + got && |got| <= 1 && flight == old(flight) && chain == old(chain)[1..]
    {
      var a := chain[0];
      got := Settle(a, mem);
      Unchain();
    }

    /** The head read off the chain and queued for reposting: it leaves the flight and joins it again. */
    method Unchain()
      requires chain != [] && flight > 0
      modifies `chain, `flight, `mark, `repost
      ensures chain == old(chain)[1..] && flight == old(flight)
      ensures mark == old(mark)[old(chain)[0].r := Flight] && repost == old(repost) + [old(chain)[0].r]
    {
      var a := chain[0];
      chain, flight := chain[1..], flight - 1;
      mark, repost, flight := mark[a.r := Flight], repost + [a.r], flight + 1;
    }

    /** Deliver the frame, or count why not. */
    method Settle(a: Arrival, mem: bool) returns (got: seq<nat>)
      modifies `errors, `noMem, `fates, `out
      ensures var f := if !a.good then Error(a) else if mem then Delivered(a) else NoMemory(a);
        && fates == old(fates) + [f] && got == (if f.Delivered? then [a.frame] else []) && out == old(out) + got
        && noMem == old(noMem) + One(f.NoMemory?) && errors == old(errors) + One(f.Error?)
    {
      got := [];
      fates := fates + [if !a.good then Error(a) else if mem then Delivered(a) else NoMemory(a)];
      if a.good {
        if mem {
          got := [a.frame];
          out := out + got;
        } else {
          noMem := noMem + 1;
        }
      } else {
        errors := errors + 1;
      }
    }

    /** The reposts, off the lock. */
    method RepostAll()
      modifies `repost, `driver
      ensures repost == [] && driver == old(driver) + old(repost)
    {
      while repost != []
        invariant driver + repost == old(driver) + old(repost)
        decreases |repost|
      {
        driver := driver + [repost[0]];
        repost := repost[1..];
      }
    }

    /** The reads an ONLINE event puts back in service. */
    method SendAllUnparked()
      modifies `unparked, `driver, `flight, `mark
      ensures unparked == [] && driver == old(driver) + old(unparked) && flight == old(flight) + |old(unparked)|
      ensures old(unparked) == [] ==> mark == old(mark)
      ensures forall r :: r in old(unparked) ==> r in mark && mark[r] == Flight
      ensures forall r :: r !in old(unparked) && r in old(mark) ==> r in mark && mark[r] == old(mark)[r]
    {
      ghost var n := 0;
      while unparked != []
        invariant 0 <= n <= |old(unparked)| && unparked == old(unparked)[n..]
        invariant driver == old(driver) + old(unparked)[..n] && flight == old(flight) + n && (n == 0 ==> mark == old(mark))
        invariant forall r :: r in old(unparked)[..n] ==> r in mark && mark[r] == Flight
        invariant forall r :: r !in old(unparked) && r in old(mark) ==> r in mark && mark[r] == old(mark)[r]
        decreases |unparked|
      {
        var r := unparked[0];
        assert old(unparked)[..n + 1] == old(unparked)[..n] + [r];
        unparked := unparked[1..];
        mark := mark[r := Flight];
        driver := driver + [r];
        flight := flight + 1;
        n := n + 1;
      }
      assert old(unparked)[..n] == old(unparked);
    }
  }
}
