/**
 Receive injection of the netdev backend (port/amiga/netdev_rx.c, the wrap pool
 of port/amiga/netdev_if.c): driver buffers are lent to lwIP inside wraps from a
 fixed pool, frames go through the merge engine under the core lock, and a
 batch is consumed up to the first frame that finds no wrap.
 */
module NetdevRx {
  import opened Basics
  import opened TcpFrame
  import opened RxGro
  import opened RxGroPackets
  import opened RxGroMeaning

  const CHUNK := 64
  const YIELD_STRIDE := 8

  // ---- the wrap pool ----

  /** lent maps a wrap to its driver cookie; taken and released are the cookies consumed and given back so far. */
  datatype Pool = Pool(free: seq<nat>, lent: map<nat, nat>, out: nat, taken: seq<nat>, released: seq<nat>)

  function Holding(lent: map<nat, nat>, c: nat): set<nat> { set w | w in lent && lent[w] == c }

  /** Wrap w is free or lent, once. */
  ghost predicate WrapOnce(p: Pool, w: nat, n: nat) { One(w < n) == Count(p.free, w) + One(w in p.lent) }

  /** Cookie c has been released as often as consumed, but for the wraps that still hold it. */
  ghost predicate CookieOnce(p: Pool, c: nat) { Count(p.taken, c) == Count(p.released, c) + |Holding(p.lent, c)| }

  ghost predicate PoolOk(p: Pool, n: nat) {
    && |p.free| + p.out == n && p.out == |p.lent|
    && (forall w: nat :: WrapOnce(p, w, n)) && (forall c: nat :: CookieOnce(p, c))
  }

  function Lend(p: Pool, c: nat): Pool
    requires p.free != []
  {
    Pool(p.free[1..], p.lent[p.free[0] := c], p.out + 1, p.taken + [c], p.released)
  }

  /** ndif_rx_pbuf_freed. */
  function GiveBack(p: Pool, w: nat): Pool
    requires w in p.lent && p.out > 0
  {
    Pool([w] + p.free, p.lent - {w}, p.out - 1, p.taken, p.released + [p.lent[w]])
  }

  /** A frame that fails verification: its buffer goes straight back. */
  function Bounce(p: Pool, c: nat): Pool { p.(taken := p.taken + [c], released := p.released + [c]) }

  /** From p to r buffers only came back: nothing more was taken, and what was released stays released. */
  ghost predicate CameBack(p: Pool, r: Pool) { r.taken == p.taken && p.released <= r.released && r.lent.Keys <= p.lent.Keys }

  lemma {:induction false} CameBackYet(p: Pool, q: Pool, r: Pool)
    requires CameBack(p, q) && CameBack(q, r)
    ensures CameBack(p, r)
  {
  }

  lemma {:induction false} HoldingMore(lent: map<nat, nat>, w: nat, c: nat, x: nat)
    requires w !in lent
    ensures |Holding(lent[w := c], x)| == |Holding(lent, x)| + One(x == c)
  {
    assert Holding(lent[w := c], x) == if x == c then Holding(lent, x) + {w} else Holding(lent, x);
  }

  lemma {:induction false} LendKeeps(p: Pool, c: nat, n: nat)
    requires PoolOk(p, n) && p.free != []
    ensures PoolOk(Lend(p, c), n)
  {
    hide Count;
    var r, w := Lend(p, c), p.free[0];
    assert w !in p.lent by {
      assert WrapOnce(p, w, n);
      CountHead(p.free, w);
    }
    forall x: nat ensures WrapOnce(r, x, n) {
      assert WrapOnce(p, x, n);
      CountHead(p.free, x);
      hide CookieOnce;
    }
    forall x: nat ensures CookieOnce(r, x) {
      assert CookieOnce(p, x);
      CountEnds(p.taken, c, x);
      HoldingMore(p.lent, w, c, x);
      hide WrapOnce, Holding;
    }
    hide WrapOnce, CookieOnce;
  }

  lemma {:induction false} GiveBackKeeps(p: Pool, w: nat, n: nat)
    requires PoolOk(p, n) && w in p.lent
    ensures p.out > 0 && PoolOk(GiveBack(p, w), n)
  {
    hide Count;
    assert p.lent.Keys != {};
    var r, c := GiveBack(p, w), p.lent[w];
    assert |r.lent| == |p.lent| - 1 by {
      assert r.lent.Keys == p.lent.Keys - {w};
    }
    forall x: nat ensures WrapOnce(r, x, n) {
      assert WrapOnce(p, x, n);
      CountEnds(p.free, w, x);
    }
    forall x: nat ensures CookieOnce(r, x) {
      assert CookieOnce(p, x);
      CountEnds(p.released, c, x);
      assert x == c ==> w in Holding(p.lent, x);
      assert Holding(r.lent, x) == Holding(p.lent, x) - {w};
    }
    hide WrapOnce, CookieOnce;
  }

  lemma {:induction false} BounceKeeps(p: Pool, c: nat, n: nat)
    requires PoolOk(p, n)
    ensures PoolOk(Bounce(p, c), n)
  {
    hide Count;
    var r := Bounce(p, c);
    forall x: nat ensures WrapOnce(r, x, n) {
      assert WrapOnce(p, x, n);
    }
    forall x: nat ensures CookieOnce(r, x) {
      assert CookieOnce(p, x);
      CountEnds(p.taken, c, x);
      CountEnds(p.released, c, x);
    }
    hide WrapOnce, CookieOnce;
  }

  // ---- batches ----

  /** A descriptor: frame bytes, the driver's cookie, and the checksum verdict. */
  datatype Desc = Desc(f: Bytes, cookie: nat, bad: bool)

  predicate Fits(d: Desc) { |d.f| < 0x1_0000 }

  type Rxd = d: Desc | Fits(d) witness Desc([], 0, false)

  /** The frame as the engine gets it; without receive offload nothing is a merge candidate. */
  function FrameOf(d: Rxd, gro: bool): (s: Frame)
    ensures gro ==> Classified(s)
  {
    ClassifiedLocated(d.f);
    Seg(d.f, if gro then Classify(d.f) else NotTcp)
  }

  /** What a consumed prefix hands to the stack: its good frames, in order. */
  function Good(ds: seq<Rxd>, gro: bool): seq<Frame>
  {
    if ds == [] then []
    else
      var n := |ds| - 1;
      Good(ds[..n], gro) + if ds[n].bad then [] else [FrameOf(ds[n], gro)]
  }

  function Cookies(ds: seq<Rxd>): seq<nat> { if ds == [] then [] else Cookies(ds[..|ds| - 1]) + [ds[|ds| - 1].cookie] }

  lemma {:induction false} CookiesSnoc(ds: seq<Rxd>, a: nat, b: nat, pre: seq<nat>)
    requires a <= b < |ds|
    ensures pre + Cookies(ds[a..b + 1]) == pre + Cookies(ds[a..b]) + [ds[b].cookie]
  {
    assert ds[a..b + 1][..b - a] == ds[a..b];
  }

  lemma {:induction false} GoodSnoc(ds: seq<Rxd>, a: nat, b: nat, gro: bool, pre: seq<Frame>)
    requires a <= b < |ds|
    ensures pre + Good(ds[a..b + 1], gro) ==
      if ds[b].bad then pre + Good(ds[a..b], gro) else pre + Good(ds[a..b], gro) + [FrameOf(ds[b], gro)]
  {
    hide Fits;
    assert ds[a..b + 1][..b - a] == ds[a..b];
  }

  /** From t0 and a0 on, exactly ds was consumed: its cookies taken, its good frames fed. */
  ghost predicate Progress(taken: seq<nat>, fed: seq<Frame>, t0: seq<nat>, a0: seq<Frame>, ds: seq<Rxd>, gro: bool) {
    taken == t0 + Cookies(ds) && fed == a0 + Good(ds, gro)
  }

  lemma {:induction false} ProgressNext(
    taken: seq<nat>, fed: seq<Frame>, t0: seq<nat>, a0: seq<Frame>, ds: seq<Rxd>, a: nat, b: nat, gro: bool)
    requires a <= b < |ds| && Progress(taken, fed, t0, a0, ds[a..b], gro)
    ensures var d := ds[b];
      Progress(taken + [d.cookie], if d.bad then fed else fed + [FrameOf(d, gro)], t0, a0, ds[a..b + 1], gro)
  {
    hide Fits, FrameOf;
    CookiesSnoc(ds, a, b, t0);
    GoodSnoc(ds, a, b, gro, a0);
    hide Cookies, Good;
  }

  lemma {:induction false} ProgressNone(t0: seq<nat>, a0: seq<Frame>, ds: seq<Rxd>, a: nat, gro: bool)
    requires a <= |ds|
    ensures Progress(t0, a0, t0, a0, ds[a..a], gro)
  {
    assert ds[a..a] == [] && t0 + [] == t0 && a0 + [] == a0;
  }

  lemma {:induction false} ProgressJoin(
    t1: seq<nat>, a1: seq<Frame>, t2: seq<nat>, a2: seq<Frame>, t0: seq<nat>, a0: seq<Frame>,
    ds: seq<Rxd>, a: nat, b: nat, gro: bool)
    requires a <= b <= |ds|
    requires Progress(t1, a1, t0, a0, ds[..a], gro) && Progress(t2, a2, t1, a1, ds[a..b], gro)
    ensures Progress(t2, a2, t0, a0, ds[..b], gro)
  {
    hide Fits;
    CookiesConcat(ds, a, b, t0);
    GoodConcat(ds, a, b, gro, a0);
    hide Cookies, Good;
  }

  lemma {:induction false} CookiesPrefix(ds: seq<Rxd>, b: nat, pre: seq<nat>)
    requires b < |ds|
    ensures pre + Cookies(ds[..b + 1]) == pre + Cookies(ds[..b]) + [ds[b].cookie]
  {
    assert ds[..b + 1][..b] == ds[..b];
  }

  lemma {:induction false} CookiesNone(ds: seq<Rxd>, a: nat, pre: seq<nat>)
    requires a <= |ds|
    ensures pre + Cookies(ds[a..a]) == pre
  {
  }

  lemma {:induction false} CookiesConcat(ds: seq<Rxd>, a: nat, b: nat, pre: seq<nat>)
    requires a <= b <= |ds|
    ensures pre + Cookies(ds[..a]) + Cookies(ds[a..b]) == pre + Cookies(ds[..b])
    decreases b
  {
    hide Cookies;
    if a == b {
      CookiesNone(ds, a, pre + Cookies(ds[..a]));
    } else {
      CookiesConcat(ds, a, b - 1, pre);
      CookiesSnoc(ds, a, b - 1, pre + Cookies(ds[..a]));
      CookiesPrefix(ds, b - 1, pre);
    }
  }

  lemma {:induction false} GoodPrefix(ds: seq<Rxd>, b: nat, gro: bool, pre: seq<Frame>)
    requires b < |ds|
    ensures pre + Good(ds[..b + 1], gro) ==
      if ds[b].bad then pre + Good(ds[..b], gro) else pre + Good(ds[..b], gro) + [FrameOf(ds[b], gro)]
  {
    hide FrameOf;
    assert ds[..b + 1][..b] == ds[..b];
  }

  lemma {:induction false} GoodNone(ds: seq<Rxd>, a: nat, gro: bool, pre: seq<Frame>)
    requires a <= |ds|
    ensures pre + Good(ds[a..a], gro) == pre
  {
  }

  lemma {:induction false} GoodConcat(ds: seq<Rxd>, a: nat, b: nat, gro: bool, pre: seq<Frame>)
    requires a <= b <= |ds|
    ensures pre + Good(ds[..a], gro) + Good(ds[a..b], gro) == pre + Good(ds[..b], gro)
    decreases b
  {
    hide Good, FrameOf;
    if a == b {
      GoodNone(ds, a, gro, pre + Good(ds[..a], gro));
    } else {
      GoodConcat(ds, a, b - 1, gro, pre);
      GoodSnoc(ds, a, b - 1, gro, pre + Good(ds[..a], gro));
      GoodPrefix(ds, b - 1, gro, pre);
    }
  }

  lemma {:induction false} ClassifiedSnoc(evs: seq<Event>, e: Event)
    requires AllClassified(evs) && (e.Arrive? ==> Classified(e.s))
    ensures AllClassified(evs + [e])
  {
    hide Classified;
  }

  lemma {:induction false} ArrivedSnoc(evs: seq<Event>, e: Event)
    ensures Arrived(evs + [e]) == if e.Arrive? then Arrived(evs) + [e.s] else Arrived(evs)
    ensures Exec(evs + [e]) == if e.Arrive? then Rx(Exec(evs), e.s) else FlushFrom(Exec(evs), 0)
  {
    hide Rx, FlushFrom;
    assert (evs + [e])[..|evs|] == evs;
    assert Arrived(evs) + [] == Arrived(evs);
  }

  /** The items of a flow depend on the frames that arrived, not on when the engine was flushed. */
  function FrameItems(ss: seq<Frame>, k: FlowKey): seq<Item> {
    if ss == [] then [] else FrameItems(ss[..|ss| - 1], k) + FlowItems(ss[|ss| - 1].f, k)
  }

  lemma {:induction false} ItemsOfArrived(evs: seq<Event>, k: FlowKey)
    ensures InItems(evs, k) == FrameItems(Arrived(evs), k)
  {
    hide FlowItems;
    if evs != [] {
      var init := evs[..|evs| - 1];
      ItemsOfArrived(init, k);
      var e := evs[|evs| - 1];
      assert evs == init + [e];
      ArrivedSnoc(init, e);
      if e.Arrive? {
        assert (Arrived(init) + [e.s])[..|Arrived(init)|] == Arrived(init);
      } else {
        assert InItems(init, k) + [] == InItems(init, k);
      }
    }
  }

  lemma {:induction false} IdleFlush(g: Gro, i: nat)
    requires Ready(g) && i <= FLOWS
    ensures forall j :: 0 <= j < FLOWS ==> FlushFrom(g, i).flows[j] == if j < i then g.flows[j] else Idle
    decreases FLOWS - i
  {
    hide FlushPacket;
    if i < FLOWS {
      IdleFlush(FlushAt(g, i), i + 1);
    }
  }

  /** Nothing is held in the merge contexts. */
  ghost predicate Rested(g: Gro)
    requires Ready(g)
  {
    forall i :: 0 <= i < FLOWS ==> g.flows[i].Idle?
  }

  /**
   With receive offload, what the stack has been given at any lock release says
   to every flow what the consumed good frames said: all data octets and
   unmergeable segments in order, and only superseded ACKs missing.
   */
  lemma {:induction false} BatchMeaning(evs: seq<Event>, k: FlowKey)
    requires AllClassified(evs) && AllFit(evs) && Rested(Exec(evs))
    ensures var out := OutItems(Exec(evs).out, k);
      Thins(FrameItems(Arrived(evs), k), out, []) && NonAcks(out) == NonAcks(FrameItems(Arrived(evs), k))
    ensures forall p :: p in Exec(evs).out ==> Delivered(p, Arrived(evs))
  {
    hide Delivered, Thins, FlowItems, Flat, OutItems, NonAcks, Exec, InItems, AllFit;
    RunMeaning(evs, k);
    ItemsOfArrived(evs, k);
    var g := Exec(evs);
    IdleSilent(k);
    assert HeldItems(g.flows[Slot(k)], k) == [];
    hide HeldItems;
    assert OutItems(g.out, k) + [] == OutItems(g.out, k);
    ThinsKeepsData(InItems(evs, k), OutItems(g.out, k), []);
  }

  // ---- the object ----

  /** Frames fed since the last flush. */
  function Since(evs: seq<Event>): nat {
    if evs == [] || evs[|evs| - 1].FlushAll? then 0 else Since(evs[..|evs| - 1]) + 1
  }

  /** Never more than eight frames in a row without a flush. */
  ghost predicate Strides(evs: seq<Event>) { forall k :: 0 <= k <= |evs| ==> Since(evs[..k]) <= 8 }

  ghost predicate Fair(evs: seq<Event>) { Strides(evs) && Since(evs) == 0 }

  /** Somebody was waiting each time. */
  ghost predicate Wanted(looks: seq<bool>) { forall i :: 0 <= i < |looks| ==> looks[i] }

  lemma {:induction false} WantedParts(a: seq<bool>, b: seq<bool>, n: nat)
    requires n <= |a| && a <= b
    ensures Wanted(b[n..]) ==> Wanted(a[n..]) && Wanted(b[|a|..])
  {
    if Wanted(b[n..]) {
      forall i | 0 <= i < |a[n..]| ensures a[n..][i] {
        assert a[n..][i] == b[n..][i];
      }
      forall i | 0 <= i < |b[|a|..]| ensures b[|a|..][i] {
        assert b[|a|..][i] == b[n..][|a| - n + i];
      }
    }
  }

  lemma {:induction false} StridesSnoc(evs: seq<Event>, e: Event)
    ensures Since(evs + [e]) == if e.FlushAll? then 0 else Since(evs) + 1
    ensures Strides(evs) && Since(evs + [e]) <= 8 ==> Strides(evs + [e])
  {
    var es := evs + [e];
    assert es[..|evs|] == evs;
    if Strides(evs) && Since(es) <= 8 {
      forall k | 0 <= k <= |es| ensures Since(es[..k]) <= 8 {
        if k <= |evs| {
          assert es[..k] == evs[..k];
        } else {
          assert es[..k] == es;
        }
      }
    }
  }

  lemma {:induction false} StridesTurn(was: seq<Event>, evs: seq<Event>, before: nat, after: nat, d: Rxd, gro: bool)
    requires Strides(was) && Since(was) <= before < 8
    requires if d.bad then evs == was + [Event.FlushAll] && after == before
      else
        var fed := was + [Arrive(FrameOf(d, gro))];
        if before + 1 < 8 then evs == fed && after == before + 1 else evs == fed + [Event.FlushAll] && after == 0
    ensures Strides(evs) && Since(evs) <= after < 8
  {
    hide FrameOf, Strides, Since;
    if d.bad {
      StridesSnoc(was, Event.FlushAll);
    } else {
      var fed := was + [Arrive(FrameOf(d, gro))];
      StridesSnoc(was, Arrive(FrameOf(d, gro)));
      StridesSnoc(fed, Event.FlushAll);
    }
  }

  class RxSide {
    const gro: bool
    const pool: nat
    const engine: Engine
    var free: seq<nat>
    var lent: map<nat, nat>
    var out: nat
    var alive: bool
    ghost var taken: seq<nat>
    ghost var released: seq<nat>
    ghost var evs: seq<Event>
    ghost var looked: seq<bool> // whether a task was waiting for the lock, each time that was looked for

    ghost function View(): Pool
      reads this
    {
      Pool(free, lent, out, taken, released)
    }

    /** The engine is where its events led it. */
    ghost predicate Merging()
      reads this, engine, engine.flows
    {
      engine.Valid() && engine.View() == Exec(evs) && (gro ==> AllClassified(evs))
    }

    ghost predicate Valid()
      reads this, engine, engine.flows
    {
      PoolOk(View(), pool) && Merging() && alive
    }

    /** The pool of a new interface: every wrap free. */
    constructor (offload: bool, poolBufs: nat, ringSlots: nat, minWraps: nat)
      ensures Valid() && fresh(engine) && fresh(engine.flows) && Rested(Exec(evs))
      ensures pool >= poolBufs && pool >= 2 * ringSlots && pool >= minWraps
      ensures (pool == poolBufs || pool == 2 * ringSlots || pool == minWraps) && gro == offload && Fair(evs)
    {
      gro := offload;
      var count := poolBufs;
      if count < ringSlots * 2 {
        count := ringSlots * 2;
      }
      if count < minWraps {
        count := minWraps;
      }
      pool := count;
      engine := new Engine();
      lent, out, alive, taken, released, evs, looked := map[], 0, true, [], [], [], [];
      free := [];
      new;
      for i := 0 to count
        invariant |free| == i && (forall w: nat :: Count(free, w) == One(w < i))
        invariant gro == offload && lent == map[] && out == 0 && taken == [] && released == [] && evs == [] && alive
        invariant engine.Valid() && engine.View() == START && fresh(engine) && fresh(engine.flows)
      {
        forall w: nat ensures Count([i] + free, w) == One(w < i + 1) {
          CountEnds(free, i, w);
        }
        free := [i] + free;
      }
      forall c: nat ensures CookieOnce(View(), c) {
        assert Holding(lent, c) == {};
      }
    }

    /** ndif_rx_pbuf_freed; once the interface is gone a wrap is dropped without being touched. */
    method PbufFreed(w: nat)
      requires alive ==> PoolOk(View(), pool) && w in lent
      modifies `free, `lent, `out, `released
      ensures View() == if alive then GiveBack(old(View()), w) else old(View())
      ensures alive ==> PoolOk(View(), pool)
    {
      if !alive {
        return;
      }
      GiveBackKeeps(View(), w, pool);
      hide PoolOk;
      released := released + [lent[w]];
      out := out - 1;
      lent := lent - {w};
      free := [w] + free;
    }

    /** lwIP and its applications free buffers whenever they hold the lock. */
    method Env()
      requires PoolOk(View(), pool) && alive
      modifies `free, `lent, `out, `released
      ensures PoolOk(View(), pool) && CameBack(old(View()), View())
    {
      hide PoolOk;
      var n: nat := *;
      while n > 0
        invariant PoolOk(View(), pool) && CameBack(old(View()), View())
      {
        var w: nat := *;
        if w in lent {
          ghost var was := View();
          PbufFreed(w);
          CameBackYet(old(View()), was, View());
        }
        n := n - 1;
      }
    }

    method Feed(s: Frame)
      requires Merging() && (gro ==> Classified(s))
      modifies engine, engine.flows, `evs
      ensures Merging() && evs == old(evs) + [Arrive(s)]
    {
      hide Exec, RxGro.Rx, AllClassified, Arrived, Ready;
      ArrivedSnoc(evs, Arrive(s));
      if gro {
        ClassifiedSnoc(evs, Arrive(s));
      }
      engine.Input(s);
      evs := evs + [Arrive(s)];
    }

    /** The mandatory flush before the lock is released. */
    method Rest()
      requires Merging()
      modifies engine, engine.flows, `evs
      ensures Merging() && evs == old(evs) + [Event.FlushAll] && Rested(Exec(evs))
    {
      hide FlushFrom, Exec, AllClassified, Arrived;
      ArrivedSnoc(evs, Event.FlushAll);
      IdleFlush(Exec(evs), 0);
      if gro {
        ClassifiedSnoc(evs, Event.FlushAll);
      }
      assert Rested(Exec(evs + [Event.FlushAll]));
      hide Rested, Ready;
      engine.FlushAll();
      evs := evs + [Event.FlushAll];
    }

    /** rxgro_yield: nothing is held while others have the lock. */
    method Yield()
      requires Valid()
      modifies this, engine, engine.flows
      ensures Valid() && Arrived(evs) == old(Arrived(evs)) && taken == old(taken)
      ensures evs == old(evs) + [Event.FlushAll] && Rested(Exec(evs)) && looked == old(looked)
    {
      hide PoolOk, Exec, AllClassified, Arrived, Rested, Ready;
      ArrivedSnoc(evs, Event.FlushAll);
      Rest();
      Env(); // the lock is free here
    }

    /** A descriptor whose checksum failed: flush, since its headers cannot be trusted, and give the buffer back. */
    method Refuse(d: Rxd)
      requires Valid()
      modifies this, engine, engine.flows
      ensures Valid() && Arrived(evs) == old(Arrived(evs)) && taken == old(taken) + [d.cookie]
      ensures evs == old(evs) + [Event.FlushAll] && looked == old(looked)
    {
      hide PoolOk, Exec, AllClassified, Arrived, Rested, Ready;
      BounceKeeps(View(), d.cookie, pool);
      ArrivedSnoc(evs, Event.FlushAll);
      Rest();
      taken, released := taken + [d.cookie], released + [d.cookie];
      Env();
    }

    /** A good descriptor: wrap its buffer and hand the frame to the engine. */
    method Accept(d: Rxd)
      requires Valid() && free != []
      modifies this, engine, engine.flows
      ensures Valid() && taken == old(taken) + [d.cookie] && Arrived(evs) == old(Arrived(evs)) + [FrameOf(d, gro)]
      ensures evs == old(evs) + [Arrive(FrameOf(d, gro))] && looked == old(looked)
    {
      hide PoolOk, Exec, AllClassified, Arrived, Ready, Fits, FrameOf;
      LendKeeps(View(), d.cookie, pool);
      var w, s := free[0], FrameOf(d, gro);
      ArrivedSnoc(evs, Arrive(s));
      free := free[1..];
      out := out + 1;
      lent := lent[w := d.cookie];
      taken := taken + [d.cookie];
      Feed(s);
      Env();
    }

    /**
     ndif_rx_input: the batch is consumed as a prefix. The consumed cookies and
     the good frames of that prefix are exactly what the pool took and the engine
     was fed, in order; the prefix is cut short only where no wrap was free (stop is
     the pool at that moment, buffers only came back since); and nothing stays in a
     merge context. If a task was waiting for the lock whenever that was looked for,
     never more than eight frames were fed without the lock changing hands or a flush.
     */
    method RxInput(descs: seq<Rxd>) returns (consumed: nat, ghost stop: Pool)
      requires Valid()
      modifies this, engine, engine.flows
      ensures Valid() && consumed <= |descs|
      ensures consumed < |descs| ==> stop.free == [] && PoolOk(stop, pool) && CameBack(stop, View())
      ensures Progress(taken, Arrived(evs), old(taken), old(Arrived(evs)), descs[..consumed], gro)
      ensures old(Rested(Exec(evs))) ==> Rested(Exec(evs))
      ensures old(looked) <= looked && (Wanted(looked[|old(looked)|..]) && old(Fair(evs)) ==> Fair(evs))
    {
      hide PoolOk, Exec, AllClassified, Arrived, Rested, Ready, Progress, Fair, Wanted;
      consumed, stop := 0, View();
      var sinceYield := 0;
      ProgressNone(taken, Arrived(evs), descs, 0, gro);
      assert descs[0..0] == descs[..0];
      while consumed < |descs|
        invariant consumed <= |descs| && Valid()
        invariant Progress(taken, Arrived(evs), old(taken), old(Arrived(evs)), descs[..consumed], gro)
        invariant old(Rested(Exec(evs))) ==> Rested(Exec(evs))
        invariant old(looked) <= looked && (Wanted(looked[|old(looked)|..]) && old(Fair(evs)) ==> Fair(evs) && sinceYield < 8)
        decreases |descs| - consumed
      {
        var chunk := if |descs| - consumed > CHUNK then CHUNK else |descs| - consumed;
        ghost var t1, a1 := taken, Arrived(evs);
        var n, short;
        ghost var asked := looked;
        n, short, sinceYield, stop := Chunk(descs, consumed, chunk, sinceYield);
        WantedParts(asked, looked, |old(looked)|);
        ProgressJoin(t1, a1, taken, Arrived(evs), old(taken), old(Arrived(evs)), descs, consumed, consumed + n, gro);
        consumed := consumed + n;
        if short {
          return;
        }
      }
    }

    /** Whether a task is queued for the lock. */
    method Contended() returns (yes: bool)
      modifies `looked
      ensures looked == old(looked) + [yes]
    {
      yes := *;
      looked := looked + [yes];
    }

    /**
     One consumed descriptor, and the fairness yield from the eighth good one on if
     a task waits for the lock.
     */
    method Turn(d: Rxd, since: nat) returns (sinceYield: nat)
      requires Valid() && (d.bad || free != [])
      modifies this, engine, engine.flows
      ensures Valid() && taken == old(taken) + [d.cookie]
      ensures Arrived(evs) == if d.bad then old(Arrived(evs)) else old(Arrived(evs)) + [FrameOf(d, gro)]
      ensures d.bad ==> evs == old(evs) + [Event.FlushAll] && sinceYield == since && looked == old(looked)
      ensures !d.bad ==>
        var fed := old(evs) + [Arrive(FrameOf(d, gro))];
        if since + 1 < 8 then evs == fed && sinceYield == since + 1 && looked == old(looked)
        else
          && old(looked) < looked && |looked| == |old(looked)| + 1
          && if looked[|old(looked)|] then evs == fed + [Event.FlushAll] && sinceYield == 0 else evs == fed && sinceYield == since + 1
    {
      hide PoolOk, Exec, AllClassified, Arrived, Ready, Fits, FrameOf;
      sinceYield := since;
      if d.bad {
        Refuse(d);
        return;
      }
      Accept(d);
      sinceYield := sinceYield + 1;
      if sinceYield >= YIELD_STRIDE {
        var contended := Contended();
        if contended {
          sinceYield := 0;
          Yield();
        }
      }
    }

    /** Since look number from, if all was fair then and somebody waited each time: no stride was too long. */
    ghost predicate Striding(from: nat, fair: bool, since: nat)
      reads this
    {
      from <= |looked| && (fair && Wanted(looked[from..]) ==> Strides(evs) && Since(evs) <= since < 8)
    }

    lemma {:induction false} SetOut(since: nat)
      ensures Striding(|looked|, since < 8 && Fair(evs), since)
    {
    }

    lemma {:induction false} RestIsFair(from: nat, fair: bool, since: nat)
      requires Striding(from, fair, since)
      ensures fair && Wanted(looked[from..]) ==> Fair(evs + [Event.FlushAll]) && since < 8
    {
      StridesSnoc(evs, Event.FlushAll);
    }

    method FairTurn(d: Rxd, since: nat, ghost from: nat, ghost fair: bool) returns (sinceYield: nat)
      requires Valid() && (d.bad || free != []) && Striding(from, fair, since)
      modifies this, engine, engine.flows
      ensures Valid() && taken == old(taken) + [d.cookie] && old(looked) <= looked && Striding(from, fair, sinceYield)
      ensures Arrived(evs) == if d.bad then old(Arrived(evs)) else old(Arrived(evs)) + [FrameOf(d, gro)]
    {
      hide PoolOk, Exec, AllClassified, Arrived, Ready, FrameOf, Strides, Since;
      sinceYield := Turn(d, since);
      WantedParts(old(looked), looked, from);
      if Wanted(looked[|old(looked)|..]) && old(Strides(evs) && Since(evs) <= since < 8) {
        assert |old(looked)| < |looked| ==> looked[|old(looked)|] == looked[|old(looked)|..][0];
        StridesTurn(old(evs), evs, since, sinceYield, d, gro);
      }
    }

    /**
     One lock hold: up to a chunk of descriptors, then the flush, whose deliveries
     may free buffers, and the unlock. stop is the pool when the loop ended.
     */
    method Chunk(descs: seq<Rxd>, at: nat, chunk: nat, since: nat)
      returns (n: nat, short: bool, sinceYield: nat, ghost stop: Pool)
      requires Valid() && at + chunk <= |descs|
      modifies this, engine, engine.flows
      ensures Valid() && n <= chunk && short == (n < chunk) && (short ==> stop.free == [])
      ensures PoolOk(stop, pool) && CameBack(stop, View())
      ensures Progress(taken, Arrived(evs), old(taken), old(Arrived(evs)), descs[at..at + n], gro)
      ensures Rested(Exec(evs))
      ensures old(looked) <= looked && (Wanted(looked[|old(looked)|..]) && since < 8 && old(Fair(evs)) ==> Fair(evs) && sinceYield < 8)
    {
      hide PoolOk, Exec, AllClassified, Arrived, Rested, Ready, Progress, Fair, Striding, Wanted, CameBack, FrameOf;
      SetOut(since);
      n, sinceYield := 0, since;
      ProgressNone(taken, Arrived(evs), descs, at, gro);
      while n < chunk
        invariant n <= chunk && Valid()
        invariant Progress(taken, Arrived(evs), old(taken), old(Arrived(evs)), descs[at..at + n], gro)
        invariant old(looked) <= looked
        invariant Striding(|old(looked)|, since < 8 && old(Fair(evs)), sinceYield)
      {
        var d := descs[at + n];
        if !d.bad && free == [] {
          break;
        }
        ProgressNext(taken, Arrived(evs), old(taken), old(Arrived(evs)), descs, at, at + n, gro);
        sinceYield := FairTurn(d, sinceYield, |old(looked)|, since < 8 && old(Fair(evs)));
        n := n + 1;
      }
      short := n < chunk;
      stop := View();
      ArrivedSnoc(evs, Event.FlushAll);
      RestIsFair(|old(looked)|, since < 8 && old(Fair(evs)), sinceYield);
      Rest();
      Env(); // the flush delivers, and then the lock is free
    }

    /**
     netdevif_destroy: with buffers still lent the pool is leaked and its wraps
     are marked dead, so that a later free touches neither pool nor driver.
     */
    method Destroy() returns (leak: bool)
      requires Valid()
      modifies `alive
      ensures !alive && leak == (out != 0) && (!leak ==> lent == map[] && forall c: nat :: Count(taken, c) == Count(released, c))
    {
      leak := out != 0;
      if !leak {
        assert lent.Keys == {};
        forall c: nat ensures Count(taken, c) == Count(released, c) {
          assert CookieOnce(View(), c);
          assert Holding(lent, c) == {};
        }
      }
      alive := false;
    }
  }
}
