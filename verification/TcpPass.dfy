/**
 One pass of the reader's drain loop (sb_tcp_recv in src/bsdsocket/sb_io.c),
 turn by turn. The limit is fixed when the pass starts; each turn unlinks part
 of the queue under the lock, and whole runs are copied with the lock released,
 while the callback may deliver anything. Exactly when does a pass read across
 a mark?
 */
module TcpPass {
  import opened Basics
  import opened Words
  import opened TcpRecv

  /** A delivery that came in during an unlocked copy. */
  datatype Late = Late(chain: seq<Bytes>, up: Option<u32>)

  /** n bytes unlinked, leaving rest; then, for a run of whole pbufs, what arrives while they are copied. */
  datatype Turn = Turn(n: nat, rest: seq<Bytes>, during: seq<Late>)

  function Copying(s: Rx, ds: seq<Late>): Rx
    decreases |ds|
  {
    if ds == [] then s else Deliver(Copying(s, ds[..|ds| - 1]), ds[|ds| - 1].chain, ds[|ds| - 1].up)
  }

  lemma {:induction false} CopyingNone(s: Rx)
    ensures Copying(s, []) == s
  {
  }

  lemma {:induction false} CopyingSnoc(s: Rx, ds: seq<Late>, d: Late)
    ensures Copying(s, ds + [d]) == Deliver(Copying(s, ds), d.chain, d.up)
  {
    hide Deliver;
    assert (ds + [d])[..|ds|] == ds;
  }

  /** A delivery that leaves the mark alone: nothing urgent in it or announced by it. */
  predicate Calm(s: Rx, d: Late) {
    UrgentAt(s.nextSeq, |Flat(d.chain)|, d.up).None? && !Beyond(s.nextSeq, |Flat(d.chain)|, d.up)
  }

  predicate Quiet(s: Rx, ds: seq<Late>)
    decreases |ds|
  {
    ds == [] || (Quiet(s, ds[..|ds| - 1]) && Calm(Copying(s, ds[..|ds| - 1]), ds[|ds| - 1]))
  }

  /** A mark was latched by one of the deliveries. */
  predicate Latches(s: Rx, ds: seq<Late>)
    decreases |ds|
  {
    ds != [] && (Latches(s, ds[..|ds| - 1])
                 || UrgentAt(Copying(s, ds[..|ds| - 1]).nextSeq, |Flat(ds[|ds| - 1].chain)|, ds[|ds| - 1].up).Some?)
  }

  /** One turn with room bytes to go: the run of head pbufs that fits, or part of a head that does not. */
  ghost predicate TurnOk(s: Rx, t: Turn, room: nat) {
    && s.q != [] && 0 < room && t.n <= room && t.n <= s.bytes
    && exists k: nat :: MaxRun(s.q, k, if room < 0xFFFF then room else 0xFFFF) && Shaped(s.q, t, room, k)
  }

  ghost predicate Shaped(q: seq<Bytes>, t: Turn, room: nat, k: nat)
    requires q != []
  {
    if k == 0 then room < |q[0]| && t == Turn(room, [q[0][room..]] + q[1..], [])
    else k <= |q| && t.n == |Flat(q[..k])| && t.rest == q[k..]
  }

  function Relock(s: Rx, t: Turn): Rx
    requires t.n <= s.bytes
  {
    Copying(Consume(s, t.n, t.rest), t.during)
  }

  /** ts are the turns of a pass from s with room to go, up to where it leads. */
  ghost predicate Turns(s: Rx, ts: seq<Turn>, room: nat)
    decreases |ts|
  {
    ts == [] || (TurnOk(s, ts[0], room) && Turns(Relock(s, ts[0]), ts[1..], room - ts[0].n))
  }

  ghost function Along(s: Rx, ts: seq<Turn>, room: nat): Rx
    requires Turns(s, ts, room)
    decreases |ts|
  {
    if ts == [] then s else Along(Relock(s, ts[0]), ts[1..], room - ts[0].n)
  }

  /** What ts unlinks. */
  function Sum(ts: seq<Turn>): nat { if ts == [] then 0 else ts[0].n + Sum(ts[1..]) }

  /** Some turn unlinks more than the distance of the mark then latched. */
  ghost predicate Crosses(s: Rx, ts: seq<Turn>, room: nat)
    requires Turns(s, ts, room)
    decreases |ts|
  {
    ts != [] && ((Latched(s.oob) && s.markDist < ts[0].n) || Crosses(Relock(s, ts[0]), ts[1..], room - ts[0].n))
  }

  /** What the pass goes on to take before another urgent pointer comes in. */
  ghost function Ahead(s: Rx, ts: seq<Turn>, room: nat): nat
    requires Turns(s, ts, room)
    decreases |ts|
  {
    if ts == [] then 0
    else ts[0].n + if Quiet(Consume(s, ts[0].n, ts[0].rest), ts[0].during)
                   then Ahead(Relock(s, ts[0]), ts[1..], room - ts[0].n) else 0
  }

  /** After some relock, a mark latched during that copy is nearer than what the pass goes on to take. */
  ghost predicate LateMark(s: Rx, ts: seq<Turn>, room: nat)
    requires Turns(s, ts, room)
    decreases |ts|
  {
    ts != [] &&
    var r := Relock(s, ts[0]);
    || (Latches(Consume(s, ts[0].n, ts[0].rest), ts[0].during) && Latched(r.oob) && r.markDist < Ahead(r, ts[1..], room - ts[0].n))
    || LateMark(r, ts[1..], room - ts[0].n)
  }

  // ---- what deliveries do to the mark ----

  lemma {:induction false} DeliverOob(s: Rx, d: Late)
    ensures var r := Deliver(s, d.chain, d.up);
      && (Calm(s, d) ==> r.oob == s.oob && r.markDist == s.markDist)
      && (UrgentAt(s.nextSeq, |Flat(d.chain)|, d.up).Some? ==> r.oob == Have)
      && (!Calm(s, d) && UrgentAt(s.nextSeq, |Flat(d.chain)|, d.up).None? ==> r.oob == Marked)
  {
    hide Flat, UrgentAt, Beyond, InBand, Keep, Add32, Word;
  }

  lemma {:induction false} CopyingOob(s: Rx, ds: seq<Late>)
    ensures var r := Copying(s, ds);
      && (Quiet(s, ds) ==> r.oob == s.oob && r.markDist == s.markDist && !Latches(s, ds))
      && (!Quiet(s, ds) && Latched(r.oob) ==> Latches(s, ds))
    decreases |ds|
  {
    if ds != [] {
      var n := |ds| - 1;
      CopyingOob(s, ds[..n]);
      DeliverOob(Copying(s, ds[..n]), ds[n]);
      hide Deliver, UrgentAt, Beyond;
    }
  }

  // ---- the theorem ----

  lemma {:induction false} AheadBound(s: Rx, ts: seq<Turn>, room: nat)
    requires Turns(s, ts, room)
    ensures Ahead(s, ts, room) <= Sum(ts) <= room
    decreases |ts|
  {
    hide TurnOk, Relock, Quiet;
    if ts != [] {
      TurnBound(s, ts[0], room);
      AheadBound(Relock(s, ts[0]), ts[1..], room - ts[0].n);
    }
  }

  lemma {:induction false} TurnBound(s: Rx, t: Turn, room: nat)
    requires TurnOk(s, t, room)
    ensures t.n <= room && t.n <= s.bytes
  {
  }

  /** From any state on: the pass crosses the mark it starts with, or one latched later. */
  lemma {:induction false} CrossesIff(s: Rx, ts: seq<Turn>, room: nat)
    requires Turns(s, ts, room) && room < M32
    ensures Crosses(s, ts, room) <==> (Latched(s.oob) && s.markDist < Ahead(s, ts, room)) || LateMark(s, ts, room)
    decreases |ts|
  {
    if ts != [] {
      var t := ts[0];
      TurnBound(s, t, room);
      var r := Relock(s, t);
      TurnOob(s, t);
      hide TurnOk, Relock, Quiet, Latches, Consume;
      CrossesIff(r, ts[1..], room - t.n);
    }
  }

  /** A turn moves the mark along, and its copy leaves it alone, drops it or latches a new one. */
  lemma {:induction false} TurnOob(s: Rx, t: Turn)
    requires t.n <= s.bytes && t.n < M32
    ensures var mid, r := Consume(s, t.n, t.rest), Relock(s, t);
      && (Quiet(mid, t.during) ==> !Latches(mid, t.during) && r.oob == s.oob)
      && (Quiet(mid, t.during) && Latched(s.oob) && t.n <= s.markDist ==> r.markDist == s.markDist - t.n)
      && (!Quiet(mid, t.during) && Latched(r.oob) ==> Latches(mid, t.during))
  {
    hide Copying, Quiet, Latches;
    var mid := Consume(s, t.n, t.rest);
    CopyingOob(mid, t.during);
    assert Latched(s.oob) && t.n <= s.markDist ==> mid.markDist == s.markDist - t.n;
  }

  /**
   Exactly when a pass crosses a mark. Its limit never reaches past a mark
   latched when it starts, so it crosses one if and only if after some relock a
   mark latched during that copy has a distance smaller than what the pass goes
   on to take, up to the next urgent pointer.
   */
  lemma {:induction false} PassCrossesIff(s: Rx, ts: seq<Turn>, room: nat)
    requires room < M32 && Turns(s, ts, Clamp(s, room, false).0)
    ensures var lim := Clamp(s, room, false).0; Crosses(s, ts, lim) <==> LateMark(s, ts, lim)
  {
    var lim := Clamp(s, room, false).0;
    hide Turns, Crosses, LateMark, Ahead;
    AheadBound(s, ts, lim);
    CrossesIff(s, ts, lim);
  }

  // ---- crossing is losing the mark ----

  /** The mark's distance is exact after every turn, and after every copy. */
  ghost predicate Exact(s: Rx, ts: seq<Turn>, room: nat)
    requires Turns(s, ts, room)
    decreases |ts|
  {
    MarkExact(s) && (ts != [] ==>
      MarkExact(Consume(s, ts[0].n, ts[0].rest)) && Exact(Relock(s, ts[0]), ts[1..], room - ts[0].n))
  }

  /** Deliveries never bring the queue to 2^32 bytes, which the receive window ensures. */
  ghost predicate Windowed(s: Rx, ds: seq<Late>)
    decreases |ds|
  {
    ds == [] || (Windowed(s, ds[..|ds| - 1]) && Copying(s, ds[..|ds| - 1]).bytes + |Flat(ds[|ds| - 1].chain)| < M32)
  }

  ghost predicate AllWindowed(s: Rx, ts: seq<Turn>, room: nat)
    requires Turns(s, ts, room)
    decreases |ts|
  {
    ts == [] || (Windowed(Consume(s, ts[0].n, ts[0].rest), ts[0].during) && AllWindowed(Relock(s, ts[0]), ts[1..], room - ts[0].n))
  }

  lemma {:induction false} WindowedSnoc(s: Rx, ds: seq<Late>, d: Late)
    requires Windowed(s, ds) && Copying(s, ds).bytes + |Flat(d.chain)| < M32
    ensures Windowed(s, ds + [d])
  {
    assert (ds + [d])[..|ds|] == ds;
  }

  lemma {:induction false} CopyingExact(s: Rx, ds: seq<Late>)
    requires Conserves(s) && s.bytes < M32 && Windowed(s, ds)
    ensures var r := Copying(s, ds); Conserves(r) && r.bytes < M32 && (MarkExact(s) ==> MarkExact(r))
    decreases |ds|
  {
    if ds != [] {
      var n := |ds| - 1;
      var m := Copying(s, ds[..n]);
      hide Conserves, MarkExact, Copying, Deliver;
      CopyingSnoc(s, ds[..n], ds[n]);
      assert ds[..n] + [ds[n]] == ds;
      CopyingExact(s, ds[..n]);
      DeliverExact(m, ds[n]);
    }
  }

  lemma {:induction false} DeliverExact(s: Rx, d: Late)
    requires Conserves(s) && s.bytes + |Flat(d.chain)| < M32
    ensures var r := Deliver(s, d.chain, d.up); Conserves(r) && r.bytes < M32 && (MarkExact(s) ==> MarkExact(r))
  {
    hide Conserves, MarkExact, Deliver;
    DeliverKeeps(s, d.chain, d.up, 0);
    if MarkExact(s) {
      DeliverMark(s, d.chain, d.up);
    }
    DeliverBytes(s, d);
  }

  lemma {:induction false} DeliverBytes(s: Rx, d: Late)
    ensures Deliver(s, d.chain, d.up).bytes <= s.bytes + |Flat(d.chain)|
  {
    hide Flat, UrgentAt, Beyond, InBand, Add32, Word;
    var at := UrgentAt(s.nextSeq, |Flat(d.chain)|, d.up);
    KeepFlat(d.chain, if s.oobInline then None else at);
    hide Keep;
  }

  lemma {:induction false} TurnKeeps(s: Rx, t: Turn, room: nat)
    requires Conserves(s) && TurnOk(s, t, room)
    ensures Conserves(Consume(s, t.n, t.rest))
  {
    var k: nat :| MaxRun(s.q, k, if room < 0xFFFF then room else 0xFFFF) && Shaped(s.q, t, room, k);
    hide InBand, Wire, Add32, MaxRun;
    if k == 0 {
      PartSplit(s.q, room);
    } else {
      SplitFlat(s.q, k);
      var a, b := Flat(s.q[..k]), Flat(s.q[k..]);
      assert (a + b)[|a|..] == b;
    }
    hide Flat;
    ConsumeKeeps(s, t.n, t.rest, 0);
  }

  lemma {:induction false} PartSplit(q: seq<Bytes>, n: nat)
    requires q != [] && n < |q[0]|
    ensures Flat([q[0][n..]] + q[1..]) == Flat(q)[n..] && n < |Flat(q)|
  {
    var r := [q[0][n..]] + q[1..];
    assert r[1..] == q[1..];
    var t := Flat(q[1..]);
    assert (q[0] + t)[n..] == q[0][n..] + t;
    hide Flat;
  }

  /** A pass that starts with an exact mark keeps it exact throughout if and only if it crosses none. */
  lemma {:induction false} ExactIff(s: Rx, ts: seq<Turn>, room: nat)
    requires Turns(s, ts, room) && AllWindowed(s, ts, room) && Conserves(s) && s.bytes < M32 && MarkExact(s)
    ensures Exact(s, ts, room) <==> !Crosses(s, ts, room)
    decreases |ts|
  {
    if ts != [] {
      var t := ts[0];
      var mid := Consume(s, t.n, t.rest);
      TurnKeeps(s, t, room);
      hide TurnOk, Conserves;
      ConsumeMark(s, t.n, t.rest);
      if MarkExact(mid) {
        CopyingExact(mid, t.during);
        ExactIff(Relock(s, t), ts[1..], room - t.n);
      }
      hide MarkExact, Copying, Windowed, Consume;
    }
  }

  // ---- building a pass turn by turn ----

  /** ts leads from s to r with room for more bytes left, the window respected. */
  ghost predicate Leads(s: Rx, ts: seq<Turn>, room: nat, r: Rx) {
    Turns(s, ts, room) && AllWindowed(s, ts, room) && Along(s, ts, room) == r
  }

  lemma {:induction false} NoTurn(s: Rx, room: nat)
    ensures Leads(s, [], room, s)
  {
  }

  lemma {:induction false} OneMoreTurn(s: Rx, ts: seq<Turn>, room: nat, r: Rx, t: Turn)
    requires Leads(s, ts, room, r) && Sum(ts) <= room && TurnOk(r, t, room - Sum(ts)) && Windowed(Consume(r, t.n, t.rest), t.during)
    ensures Leads(s, ts + [t], room, Relock(r, t)) && Sum(ts + [t]) == Sum(ts) + t.n
    decreases |ts|
  {
    var all := ts + [t];
    hide TurnOk, Relock, Windowed, Consume;
    if ts == [] {
      assert all[1..] == [] && all[0] == t;
      TurnBound(r, t, room);
      NoTurn(Relock(r, t), room - t.n);
      assert Turns(s, all, room) && AllWindowed(s, all, room);
    } else {
      TurnBound(s, ts[0], room);
      assert all[0] == ts[0] && all[1..] == ts[1..] + [t];
      OneMoreTurn(Relock(s, ts[0]), ts[1..], room - ts[0].n, r, t);
    }
  }
}
