/**
 Who holds a socket: descriptors of any opener and entries of the parking lot
 (src/bsdsocket/sb_sockpass.c, the ownership part of src/bsdsocket/sb_socket.c).

 A socket counts its holders in an 8-bit refs, and keeps up to four owner slots,
 one per opener with descriptors on it, to know whom to wake.
 */
module SockPass {
  import opened Basics

  const OWNERS := 4

  /** Openers and sockets by number; a socket number is never used again. */
  type Base = nat
  type Sock = nat

  datatype Holder = Fd(base: Base, n: nat) | Park(id: int)
  datatype Slot = Empty | Owner(base: Base, fdrefs: nat)

  type u8 = x: int | 0 <= x < 256

  // ---- owner slots ----

  function Index(slots: seq<Slot>, b: Base): (i: int)
    ensures -1 <= i < |slots| && (i >= 0 ==> slots[i].Owner? && slots[i].base == b)
    ensures i < 0 ==> forall k :: 0 <= k < |slots| ==> !(slots[k].Owner? && slots[k].base == b)
  {
    if slots == [] then -1
    else if slots[0].Owner? && slots[0].base == b then 0
    else var j := Index(slots[1..], b); if j < 0 then -1 else
      assert slots[j + 1] == slots[1..][j];
      j + 1
  }

  function FirstEmpty(slots: seq<Slot>): (i: int)
    ensures -1 <= i < |slots| && (i >= 0 ==> slots[i].Empty?)
    ensures i < 0 ==> forall k :: 0 <= k < |slots| ==> slots[k].Owner?
  {
    if slots == [] then -1
    else if slots[0].Empty? then 0
    else var j := FirstEmpty(slots[1..]); if j < 0 then -1 else
      assert slots[j + 1] == slots[1..][j];
      j + 1
  }

  /** Descriptors an opener's slot counts. */
  function OwnerRefs(slots: seq<Slot>, b: Base): nat { var i := Index(slots, b); if i < 0 then 0 else slots[i].fdrefs }

  /** sb_owner_incref: bump the opener's slot, or take the first empty one; None when all four are others'. */
  function Inc(slots: seq<Slot>, b: Base): Option<seq<Slot>> {
    var i, e := Index(slots, b), FirstEmpty(slots);
    if i >= 0 then Some(slots[i := Owner(b, slots[i].fdrefs + 1)])
    else if e >= 0 then Some(slots[e := Owner(b, 1)])
    else None
  }

  /** sb_owner_decref: the slot empties at zero. */
  function Dec(slots: seq<Slot>, b: Base): seq<Slot> {
    var i := Index(slots, b);
    if i < 0 then slots
    else if slots[i].fdrefs <= 1 then slots[i := Empty]
    else slots[i := Owner(b, slots[i].fdrefs - 1)]
  }

  predicate SlotsOk(slots: seq<Slot>) {
    && |slots| == OWNERS
    && (forall i :: 0 <= i < |slots| && slots[i].Owner? ==> slots[i].fdrefs > 0)
    && (forall i, j :: 0 <= i < j < |slots| && slots[i].Owner? && slots[j].Owner? ==> slots[i].base != slots[j].base)
  }

  lemma {:induction false} IncRefs(slots: seq<Slot>, b: Base, x: Base)
    requires SlotsOk(slots) && Inc(slots, b).Some?
    ensures var r := Inc(slots, b).value; SlotsOk(r) && OwnerRefs(r, x) == OwnerRefs(slots, x) + if x == b then 1 else 0
  {
    hide Index, FirstEmpty;
    var r := Inc(slots, b).value;
    var i := Index(slots, x);
    if i >= 0 {
      assert r[i].Owner? && r[i].base == x;
    } else if x == b {
      assert r[FirstEmpty(slots)] == Owner(b, 1);
    }
  }

  lemma {:induction false} DecRefs(slots: seq<Slot>, b: Base, x: Base)
    requires SlotsOk(slots)
    ensures var r := Dec(slots, b);
      SlotsOk(r) && OwnerRefs(r, x) == OwnerRefs(slots, x) - if x == b && OwnerRefs(slots, b) > 0 then 1 else 0
  {
    hide Index;
    var r := Dec(slots, b);
    var i := Index(slots, x);
    if i >= 0 && x != b {
      assert r[i].Owner? && r[i].base == x;
    }
    var j := Index(slots, b);
    if j >= 0 && slots[j].fdrefs > 1 {
      assert r[j].Owner? && r[j].base == b;
    }
  }

  // ---- the state ----

  /** refs and owners exist for live sockets only; freed lists the destroyed ones in order. */
  datatype Lot = Lot(
    hold: map<Holder, Sock>, refs: map<Sock, u8>, owners: map<Sock, seq<Slot>>, born: nat, freed: seq<Sock>)

  function Holders(hold: map<Holder, Sock>, s: Sock): set<Holder> { set h | h in hold && hold[h] == s }

  function Fds(hold: map<Holder, Sock>, s: Sock, b: Base): set<Holder> {
    set h | h in hold && hold[h] == s && h.Fd? && h.base == b
  }

  ghost predicate Counted(l: Lot, s: Sock) {
    && s in l.refs && s in l.owners && SlotsOk(l.owners[s])
    && l.refs[s] == |Holders(l.hold, s)| > 0
    && forall b: Base :: OwnerRefs(l.owners[s], b) == |Fds(l.hold, s, b)|
  }

  ghost predicate Inv(l: Lot) {
    && l.refs.Keys == l.owners.Keys
    && (forall s :: s in l.refs ==> Counted(l, s))
    && (forall h :: h in l.hold ==> l.hold[h] in l.refs)
    && (forall s: Sock :: s < l.born <==> s in l.refs || s in l.freed)
    && (forall s :: s in l.refs ==> s !in l.freed)
    && (forall i, j :: 0 <= i < j < |l.freed| ==> l.freed[i] != l.freed[j])
  }

  /** s gains the holder h. */
  function Gain(l: Lot, h: Holder, s: Sock, slots: seq<Slot>): Lot
    requires s in l.refs
  {
    l.(hold := l.hold[h := s],
       refs := l.refs[s := if l.refs[s] == 255 then 0 else l.refs[s] + 1],
       owners := l.owners[s := slots])
  }

  /** sb_sock_free for a descriptor: the opener's slot first, then the count; the last reference destroys. */
  function Drop(l: Lot, h: Holder): Lot
    requires h in l.hold && h.Fd? && l.hold[h] in l.refs && l.hold[h] in l.owners
  {
    var s := l.hold[h];
    if l.refs[s] == 1 then
      l.(hold := l.hold - {h}, refs := l.refs - {s}, owners := l.owners - {s}, freed := l.freed + [s])
    else
      l.(hold := l.hold - {h},
         refs := l.refs[s := if l.refs[s] == 0 then 255 else l.refs[s] - 1],
         owners := l.owners[s := Dec(l.owners[s], h.base)])
  }

  /** A reference changes hands: its count stays. */
  function Move(l: Lot, from: Holder, to: Holder, slots: seq<Slot>): Lot
    requires from in l.hold
  {
    var s := l.hold[from];
    l.(hold := (l.hold - {from})[to := s], owners := l.owners[s := slots])
  }

  // ---- counting holders ----

  lemma {:induction false} GainCounts(hold: map<Holder, Sock>, h: Holder, s: Sock, x: Sock, b: Base)
    requires h !in hold
    ensures |Holders(hold[h := s], x)| == |Holders(hold, x)| + if x == s then 1 else 0
    ensures |Fds(hold[h := s], x, b)| == |Fds(hold, x, b)| + if x == s && h.Fd? && h.base == b then 1 else 0
  {
    assert Holders(hold[h := s], x) == if x == s then Holders(hold, x) + {h} else Holders(hold, x);
    assert Fds(hold[h := s], x, b) == if x == s && h.Fd? && h.base == b then Fds(hold, x, b) + {h} else Fds(hold, x, b);
  }

  lemma {:induction false} LoseCounts(hold: map<Holder, Sock>, h: Holder, x: Sock, b: Base)
    requires h in hold
    ensures |Holders(hold - {h}, x)| == |Holders(hold, x)| - if x == hold[h] then 1 else 0
    ensures |Fds(hold - {h}, x, b)| == |Fds(hold, x, b)| - if x == hold[h] && h.Fd? && h.base == b then 1 else 0
  {
    assert x == hold[h] ==> h in Holders(hold, x);
    assert x == hold[h] && h.Fd? && h.base == b ==> h in Fds(hold, x, b);
    assert Holders(hold - {h}, x) == Holders(hold, x) - {h};
    assert Fds(hold - {h}, x, b) == Fds(hold, x, b) - {h};
  }

  /** An opener with a descriptor on a socket has a slot there, so its further descriptors always find it. */
  lemma {:induction false} HolderHasSlot(l: Lot, b: Base, n: nat)
    requires Inv(l) && Fd(b, n) in l.hold
    ensures var s := l.hold[Fd(b, n)]; s in l.owners && Inc(l.owners[s], b).Some?
  {
    var s := l.hold[Fd(b, n)];
    assert Counted(l, s);
    assert Fd(b, n) in Fds(l.hold, s, b);
    assert OwnerRefs(l.owners[s], b) == |Fds(l.hold, s, b)|;
  }

  // ---- the three moves keep the invariant ----

  lemma {:induction false} GainKeeps(l: Lot, h: Holder, s: Sock)
    requires Inv(l) && h !in l.hold && s in l.refs && (h.Fd? ==> Inc(l.owners[s], h.base).Some?)
    ensures var slots := if h.Fd? then Inc(l.owners[s], h.base).value else l.owners[s];
      Inv(Gain(l, h, s, slots)) <==> l.refs[s] < 255
  {
    var slots := if h.Fd? then Inc(l.owners[s], h.base).value else l.owners[s];
    var r := Gain(l, h, s, slots);
    forall x | x in l.refs ensures x != s || l.refs[s] < 255 <==> Counted(r, x) {
      assert Counted(l, x);
      GainCounted(l, h, s, x);
    }
  }

  lemma {:induction false} GainCounted(l: Lot, h: Holder, s: Sock, x: Sock)
    requires Counted(l, s) && Counted(l, x) && h !in l.hold && (h.Fd? ==> Inc(l.owners[s], h.base).Some?)
    ensures var slots := if h.Fd? then Inc(l.owners[s], h.base).value else l.owners[s];
      x != s || l.refs[s] < 255 <==> Counted(Gain(l, h, s, slots), x)
  {
    hide Index, Holders, Fds;
    var slots := if h.Fd? then Inc(l.owners[s], h.base).value else l.owners[s];
    var r := Gain(l, h, s, slots);
    GainCounts(l.hold, h, s, x, 0);
    if h.Fd? {
      IncRefs(l.owners[s], h.base, 0);
    }
    forall b: Base ensures OwnerRefs(r.owners[x], b) == |Fds(r.hold, x, b)| {
      GainCounts(l.hold, h, s, x, b);
      if h.Fd? {
        IncRefs(l.owners[s], h.base, b);
      }
      assert OwnerRefs(l.owners[x], b) == |Fds(l.hold, x, b)|;
      hide Inc, OwnerRefs;
    }
    hide Inc, OwnerRefs;
  }

  lemma {:induction false} DropCounted(l: Lot, h: Holder, x: Sock)
    requires h in l.hold && h.Fd? && Counted(l, l.hold[h]) && Counted(l, x)
    ensures var r := Drop(l, h);
      (x == l.hold[h] && l.refs[x] == 1 && |Holders(r.hold, x)| == 0) || (l.refs[x] > 0 && Counted(r, x))
  {
    hide Index, Holders, Fds;
    var s, r := l.hold[h], Drop(l, h);
    LoseCounts(l.hold, h, x, 0);
    DecRefs(l.owners[s], h.base, 0);
    if !(x == s && l.refs[x] == 1) {
      forall b: Base ensures OwnerRefs(r.owners[x], b) == |Fds(r.hold, x, b)| {
        LoseCounts(l.hold, h, x, b);
        DecRefs(l.owners[s], h.base, b);
        assert OwnerRefs(l.owners[x], b) == |Fds(l.hold, x, b)|;
        HeldBySlot(l, h);
        hide Dec, OwnerRefs;
      }
      hide Dec, OwnerRefs;
    }
  }

  lemma {:induction false} HeldBySlot(l: Lot, h: Holder)
    requires h in l.hold && h.Fd? && Counted(l, l.hold[h])
    ensures OwnerRefs(l.owners[l.hold[h]], h.base) > 0
  {
    assert h in Fds(l.hold, l.hold[h], h.base);
    assert OwnerRefs(l.owners[l.hold[h]], h.base) == |Fds(l.hold, l.hold[h], h.base)|;
  }

  /** Dropping a reference destroys the socket exactly when it was the last holder. */
  lemma {:induction false} DropKeeps(l: Lot, h: Holder)
    requires Inv(l) && h in l.hold && h.Fd?
    ensures var s, r := l.hold[h], Drop(l, h);
      && Inv(r) && (s !in r.refs <==> Holders(r.hold, s) == {}) && (s in r.freed <==> s !in r.refs)
  {
    var s, r := l.hold[h], Drop(l, h);
    forall x | x in l.refs
      ensures (x == s && l.refs[x] == 1 && |Holders(r.hold, x)| == 0) || Counted(r, x)
    {
      assert Counted(l, x);
      DropCounted(l, h, x);
    }
    if l.refs[s] == 1 {
      forall k | k in r.hold ensures r.hold[k] in r.refs {
        assert r.hold[k] == s ==> k in Holders(r.hold, s);
      }
    }
    hide Dec, OwnerRefs, Fds;
  }

  /** The new slots of a socket whose reference moves: the releaser leaves, or the obtainer enters. */
  function MovedSlots(l: Lot, from: Holder, to: Holder): Option<seq<Slot>>
    requires from in l.hold && l.hold[from] in l.owners
  {
    var slots := l.owners[l.hold[from]];
    if from.Fd? && to.Park? then Some(Dec(slots, from.base))
    else if from.Park? && to.Fd? then Inc(slots, to.base)
    else None
  }

  lemma {:induction false} MoveCounted(l: Lot, from: Holder, to: Holder, x: Sock)
    requires from in l.hold && to !in l.hold && Counted(l, l.hold[from]) && Counted(l, x)
    requires MovedSlots(l, from, to).Some?
    ensures Counted(Move(l, from, to, MovedSlots(l, from, to).value), x)
  {
    hide Index, Holders, Fds;
    var s, mid := l.hold[from], l.hold - {from};
    var slots := MovedSlots(l, from, to).value;
    var r := Move(l, from, to, slots);
    LoseCounts(l.hold, from, x, 0);
    GainCounts(mid, to, s, x, 0);
    MovedRefs(l, from, to, 0);
    forall b: Base ensures OwnerRefs(r.owners[x], b) == |Fds(r.hold, x, b)| {
      LoseCounts(l.hold, from, x, b);
      GainCounts(mid, to, s, x, b);
      MovedRefs(l, from, to, b);
      assert OwnerRefs(l.owners[x], b) == |Fds(l.hold, x, b)|;
      hide MovedSlots, OwnerRefs;
    }
    hide MovedSlots, OwnerRefs;
  }

  lemma {:induction false} MovedRefs(l: Lot, from: Holder, to: Holder, b: Base)
    requires from in l.hold && Counted(l, l.hold[from]) && MovedSlots(l, from, to).Some?
    ensures var slots, old' := MovedSlots(l, from, to).value, l.owners[l.hold[from]];
      && SlotsOk(slots)
      && OwnerRefs(slots, b) == OwnerRefs(old', b) - (if from.Fd? && from.base == b then 1 else 0)
                                                   + (if to.Fd? && to.base == b then 1 else 0)
  {
    var slots := l.owners[l.hold[from]];
    if from.Fd? {
      HeldBySlot(l, from);
      DecRefs(slots, from.base, b);
    } else {
      IncRefs(slots, to.base, b);
    }
    hide Inc, Dec, OwnerRefs, SlotsOk;
  }

  lemma {:induction false} MoveKeeps(l: Lot, from: Holder, to: Holder)
    requires Inv(l) && from in l.hold && to !in l.hold && MovedSlots(l, from, to).Some?
    ensures Inv(Move(l, from, to, MovedSlots(l, from, to).value))
  {
    var r := Move(l, from, to, MovedSlots(l, from, to).value);
    forall x | x in l.refs ensures Counted(r, x) {
      assert Counted(l, x);
      MoveCounted(l, from, to, x);
    }
    hide MovedSlots, Counted;
  }

  /** socket(): a new socket with one descriptor and one owner. */
  function Create(l: Lot, b: Base, n: nat): Lot {
    l.(hold := l.hold[Fd(b, n) := l.born], refs := l.refs[l.born := 1],
       owners := l.owners[l.born := [Owner(b, 1), Empty, Empty, Empty]], born := l.born + 1)
  }

  lemma {:induction false} CreateKeeps(l: Lot, b: Base, n: nat)
    requires Inv(l) && Fd(b, n) !in l.hold
    ensures Inv(Create(l, b, n))
  {
    var s, r := l.born, Create(l, b, n);
    assert s !in l.refs;
    assert Holders(l.hold, s) == {};
    forall x | x in r.refs ensures Counted(r, x) {
      GainCounts(l.hold, Fd(b, n), s, x, 0);
      forall c: Base ensures OwnerRefs(r.owners[x], c) == |Fds(r.hold, x, c)| {
        GainCounts(l.hold, Fd(b, n), s, x, c);
        assert x != s ==> Counted(l, x);
        assert x != s ==> OwnerRefs(l.owners[x], c) == |Fds(l.hold, x, c)|;
        assert Fds(l.hold, s, c) == {};
      }
      assert x != s ==> Counted(l, x);
    }
  }

  // ---- unique ids ----

  const LAST_ID := 0x7FFF_FFFF

  /** The k-th id tried from next on: ids run 1..2^31-1 and round again. */
  function Cyc(next: int, k: nat): int { if next + k <= LAST_ID then next + k else next + k - LAST_ID }

  ghost predicate FreeAhead(hold: map<Holder, Sock>, next: int, k: nat) {
    exists j :: k <= j < LAST_ID && Park(Cyc(next, j)) !in hold
  }

  /** How many ids the search skips. */
  ghost function Skip(hold: map<Holder, Sock>, next: int, k: nat): (j: nat)
    requires FreeAhead(hold, next, k)
    ensures k <= j < LAST_ID && Park(Cyc(next, j)) !in hold
    ensures forall i :: k <= i < j ==> Park(Cyc(next, i)) in hold
    decreases LAST_ID - k
  {
    if Park(Cyc(next, k)) !in hold then k else Skip(hold, next, k + 1)
  }

  /** The first k ids of the cycle are distinct, so if all are taken there are at least k holders. */
  lemma {:induction false} TakenIds(hold: map<Holder, Sock>, next: int, k: nat, seen: set<Holder>)
    requires 1 <= next <= LAST_ID && k <= LAST_ID
    requires forall j :: 0 <= j < k ==> Park(Cyc(next, j)) in hold
    requires forall h :: h in seen ==> h in hold && exists j :: k <= j < LAST_ID && h == Park(Cyc(next, j))
    ensures k + |seen| <= |hold|
  {
    if k == 0 {
      Subset(seen, hold.Keys);
    } else {
      var h := Park(Cyc(next, k - 1));
      TakenIds(hold, next, k - 1, seen + {h});
    }
  }

  lemma {:induction false} Subset(a: set<Holder>, b: set<Holder>)
    requires a <= b
    ensures |a| <= |b|
  {
    if h :| h in a {
      Subset(a - {h}, b - {h});
    }
  }

  /** The search ends: with fewer than 2^31-1 holders some id of the cycle is free. */
  lemma {:induction false} SearchEnds(hold: map<Holder, Sock>, next: int)
    requires 1 <= next <= LAST_ID && |hold| < LAST_ID
    ensures FreeAhead(hold, next, 0)
  {
    if !FreeAhead(hold, next, 0) {
      TakenIds(hold, next, LAST_ID, {});
      assert false;
    }
  }

  // ---- the calls ----

  const EBADF := 9
  const EINVAL := 22
  const EMFILE := 24
  const EADDRINUSE := 48
  const ENOBUFS := 55

  datatype Result = Ok(value: int) | Err(errno: nat)

  /** The lot and the id counter. */
  datatype State = State(lot: Lot, next: int)

  /** A call by an opener whose descriptor table has count entries; mem and kind say what the environment decides. */
  datatype Call =
    | Socket(b: Base, count: nat)
    | Close(b: Base, count: nat, fd: int)
    | Dup2(b: Base, count: nat, old': int, new': int)
    | Release(b: Base, count: nat, fd: int, id: int, copy: bool, mem: bool)
    | Obtain(b: Base, count: nat, id: int, kind: bool)

  /** sb_fd_get. */
  predicate Open(l: Lot, b: Base, count: nat, fd: int) { 0 <= fd < count && Fd(b, fd) in l.hold }

  /** sb_fd_alloc: the lowest free descriptor from n on. */
  function FirstFree(hold: map<Holder, Sock>, b: Base, n: nat, count: nat): (r: int)
    ensures r == -1 || (n <= r < count && Fd(b, r) !in hold)
    ensures forall i :: n <= i < (if r == -1 then count else r) ==> Fd(b, i) in hold
    decreases count - n
  {
    if n >= count then -1 else if Fd(b, n) !in hold then n else FirstFree(hold, b, n + 1, count)
  }

  function IncOr(slots: seq<Slot>, b: Base): seq<Slot> { if Inc(slots, b).Some? then Inc(slots, b).value else slots }

  ghost predicate Ready(st: State) { Inv(st.lot) && 1 <= st.next <= LAST_ID && |st.lot.hold| < LAST_ID }

  /** The lot in which Dup2 adds its descriptor: an occupied target is closed first. */
  function Vacate(l: Lot, h: Holder): Lot
    requires h.Fd? && (h in l.hold ==> l.hold[h] in l.refs && l.hold[h] in l.owners)
  {
    if h in l.hold then Drop(l, h) else l
  }

  /** Give opener b the descriptor n on s, counting it. */
  function AddFd(l: Lot, b: Base, n: nat, s: Sock): Lot
    requires s in l.refs && s in l.owners
  {
    Gain(l, Fd(b, n), s, IncOr(l.owners[s], b))
  }

  ghost function Dup2Of(l: Lot, b: Base, count: nat, old': int, new': int): (r: (Lot, Result))
    requires Inv(l)
  {
    if !Open(l, b, count, old') then (l, Err(EBADF))
    else
      var s := l.hold[Fd(b, old')];
      if new' == -1 then
        var n := FirstFree(l.hold, b, 0, count);
        if n < 0 then (l, Err(EMFILE)) else (AddFd(l, b, n, s), Ok(n))
      else if new' < 0 || new' >= count then (l, Err(EBADF))
      else if Fd(b, new') in l.hold && l.hold[Fd(b, new')] == s then (l, Ok(new'))
      else
        DropSpares(l, Fd(b, new'), s);
        (AddFd(Vacate(l, Fd(b, new')), b, new', s), Ok(new'))
  }

  /** Closing one socket's descriptor leaves every other socket live. */
  lemma {:induction false} DropSpares(l: Lot, h: Holder, s: Sock)
    requires Inv(l) && h.Fd? && s in l.refs && (h in l.hold ==> l.hold[h] != s)
    ensures var r := Vacate(l, h); s in r.refs && s in r.owners && r.refs[s] == l.refs[s] && h !in r.hold && Inv(r)
    ensures forall k :: k in l.hold && k != h ==> k in Vacate(l, h).hold && Vacate(l, h).hold[k] == l.hold[k]
  {
    assert Counted(l, s);
    if h in l.hold {
      DropKeeps(l, h);
    }
  }

  /** The id a release parks under, when it can. */
  ghost function ParkId(st: State, id: int): Option<int>
    requires Ready(st)
  {
    SearchEnds(st.lot.hold, st.next);
    if id == -1 then Some(Cyc(st.next, Skip(st.lot.hold, st.next, 0)))
    else if Park(id) in st.lot.hold then None
    else Some(id)
  }

  ghost function NextAfter(st: State, id: int): int
    requires Ready(st)
  {
    SearchEnds(st.lot.hold, st.next);
    if id == -1 then Cyc(st.next, Skip(st.lot.hold, st.next, 0) + 1) else st.next
  }

  ghost function ReleaseOf(st: State, b: Base, count: nat, fd: int, id: int, copy: bool, mem: bool): (State, Result)
    requires Ready(st)
  {
    var l := st.lot;
    if !Open(l, b, count, fd) then (st, Err(EBADF))
    else
      var h, at, next := Fd(b, fd), ParkId(st, id), NextAfter(st, id);
      var s := l.hold[h];
      if at.None? then (st, Err(EADDRINUSE))
      else if !mem then (State(l, next), Err(ENOBUFS))
      else if copy then (State(Gain(l, Park(at.value), s, l.owners[s]), next), Ok(at.value))
      else (State(Move(l, h, Park(at.value), Dec(l.owners[s], b)), next), Ok(at.value))
  }

  ghost function ObtainOf(l: Lot, b: Base, count: nat, id: int, kind: bool): (Lot, Result)
    requires Inv(l)
  {
    if Park(id) !in l.hold || !kind then (l, Err(EINVAL))
    else
      var s, n := l.hold[Park(id)], FirstFree(l.hold, b, 0, count);
      if n < 0 then (l, Err(EMFILE))
      else if Inc(l.owners[s], b).None? then (l, Err(ENOBUFS))
      else (Move(l, Park(id), Fd(b, n), Inc(l.owners[s], b).value), Ok(n))
  }

  ghost function Do(st: State, c: Call): (State, Result)
    requires Ready(st)
  {
    var l := st.lot;
    match c
    case Socket(b, count) =>
      var n := FirstFree(l.hold, b, 0, count);
      if n < 0 then (st.(lot := l.(born := l.born + 1, freed := l.freed + [l.born])), Err(EMFILE))
      else (st.(lot := Create(l, b, n)), Ok(n))
    case Close(b, count, fd) =>
      if Open(l, b, count, fd) then (st.(lot := Drop(l, Fd(b, fd))), Ok(0)) else (st, Err(EBADF))
    case Dup2(b, count, old', new') => var r := Dup2Of(l, b, count, old', new'); (st.(lot := r.0), r.1)
    case Release(b, count, fd, id, copy, mem) => ReleaseOf(st, b, count, fd, id, copy, mem)
    case Obtain(b, count, id, kind) => var r := ObtainOf(l, b, count, id, kind); (st.(lot := r.0), r.1)
  }

  /** The 8-bit count is about to wrap: a successful Dup2 or ReleaseCopyOf on a socket with 255 holders. */
  ghost predicate Wraps(st: State, c: Call)
    requires Ready(st)
  {
    var l := st.lot;
    match c
    case Dup2(b, count, old', new') =>
      && Dup2Of(l, b, count, old', new').1.Ok? && l.refs[l.hold[Fd(b, old')]] == 255
      && !(Open(l, b, count, new') && l.hold[Fd(b, new')] == l.hold[Fd(b, old')])
    case Release(b, count, fd, id, copy, mem) =>
      ReleaseOf(st, b, count, fd, id, copy, mem).1.Ok? && copy && l.refs[l.hold[Fd(b, fd)]] == 255
    case _ => false
  }

  lemma {:induction false} AddFdKeeps(l: Lot, b: Base, n: nat, s: Sock)
    requires Inv(l) && Fd(b, n) !in l.hold && s in l.refs && Inc(l.owners[s], b).Some?
    ensures Inv(AddFd(l, b, n, s)) <==> l.refs[s] < 255
  {
    GainKeeps(l, Fd(b, n), s);
  }

  lemma {:induction false} Dup2Keeps(l: Lot, b: Base, count: nat, old': int, new': int)
    requires Inv(l) && Dup2Of(l, b, count, old', new').1.Ok?
    ensures var s := l.hold[Fd(b, old')];
      Inv(Dup2Of(l, b, count, old', new').0) <==>
      l.refs[s] < 255 || (Open(l, b, count, new') && l.hold[Fd(b, new')] == s)
  {
    hide Inv, Counted, Inc, Drop, Gain;
    HolderHasSlot(l, b, old');
    var s := l.hold[Fd(b, old')];
    assert s in l.refs by {
      Live(l, Fd(b, old'));
    }
    if new' == -1 {
      AddFdKeeps(l, b, FirstFree(l.hold, b, 0, count), s);
    } else if !(Open(l, b, count, new') && l.hold[Fd(b, new')] == s) {
      if Fd(b, new') in l.hold {
        Live(l, Fd(b, new'));
      }
      var v := Vacate(l, Fd(b, new'));
      DropSpares(l, Fd(b, new'), s);
      assert Fd(b, old') in v.hold;
      HolderHasSlot(v, b, old');
      AddFdKeeps(v, b, new', s);
    }
    hide Vacate, AddFd, FirstFree;
  }

  lemma {:induction false} Live(l: Lot, h: Holder)
    requires Inv(l) && h in l.hold
    ensures l.hold[h] in l.refs && l.hold[h] in l.owners
  {
  }

  lemma {:induction false} ReleaseKeeps(st: State, b: Base, count: nat, fd: int, id: int, copy: bool, mem: bool)
    requires Ready(st)
    ensures var r := ReleaseOf(st, b, count, fd, id, copy, mem);
      && (Inv(r.0.lot) <==> !Wraps(st, Release(b, count, fd, id, copy, mem)))
      && 1 <= r.0.next <= LAST_ID
  {
    hide Counted, Inc, Dec, Gain, Drop, Skip, FreeAhead;
    var l := st.lot;
    if ReleaseOf(st, b, count, fd, id, copy, mem).1.Ok? {
      var h, at := Fd(b, fd), ParkId(st, id).value;
      Live(l, h);
      assert Park(at) !in l.hold;
      if copy {
        GainKeeps(l, Park(at), l.hold[h]);
      } else {
        MoveKeeps(l, h, Park(at));
      }
    }
    hide Inv;
  }

  lemma {:induction false} ObtainKeeps(l: Lot, b: Base, count: nat, id: int, kind: bool)
    requires Inv(l)
    ensures Inv(ObtainOf(l, b, count, id, kind).0)
  {
    hide Inv, Counted, Inc, Move;
    if ObtainOf(l, b, count, id, kind).1.Ok? {
      MoveKeeps(l, Park(id), Fd(b, FirstFree(l.hold, b, 0, count)));
    }
  }

  lemma {:induction false} SocketKeeps(l: Lot, b: Base, count: nat)
    requires Inv(l)
    ensures Inv(l.(born := l.born + 1, freed := l.freed + [l.born]))
    ensures var n := FirstFree(l.hold, b, 0, count); n >= 0 ==> Inv(Create(l, b, n))
  {
    var n := FirstFree(l.hold, b, 0, count);
    if n >= 0 {
      CreateKeeps(l, b, n);
    }
    var r := l.(born := l.born + 1, freed := l.freed + [l.born]);
    assert l.born !in l.freed;
    forall s | s in r.refs ensures Counted(r, s) {
      assert Counted(l, s);
    }
    hide Counted, Create, FirstFree;
  }

  /** Every call keeps the books, except the one that takes a 256th reference, and then never. */
  lemma {:induction false} DoKeeps(st: State, c: Call)
    requires Ready(st)
    ensures Inv(Do(st, c).0.lot) <==> !Wraps(st, c)
    ensures 1 <= Do(st, c).0.next <= LAST_ID
  {
    hide Inv, Counted, Create, Drop, Dup2Of, ReleaseOf, ObtainOf, FirstFree;
    match c
    case Socket(b, count) => SocketKeeps(st.lot, b, count);
    case Close(b, count, fd) =>
      if Open(st.lot, b, count, fd) {
        DropKeeps(st.lot, Fd(b, fd));
      }
    case Dup2(b, count, old', new') => CallDup2(st, b, count, old', new');
    case Release(b, count, fd, id, copy, mem) => ReleaseKeeps(st, b, count, fd, id, copy, mem);
    case Obtain(b, count, id, kind) => ObtainKeeps(st.lot, b, count, id, kind);
  }

  lemma {:induction false} CallDup2(st: State, b: Base, count: nat, old': int, new': int)
    requires Ready(st)
    ensures Inv(Dup2Of(st.lot, b, count, old', new').0) <==> !Wraps(st, Dup2(b, count, old', new'))
  {
    var l := st.lot;
    if Dup2Of(l, b, count, old', new').1.Ok? {
      Dup2Keeps(l, b, count, old', new');
      Live(l, Fd(b, old'));
      assert l.refs[l.hold[Fd(b, old')]] <= 255;
    }
    hide Inv, Counted;
  }

  /** Fewer than 2^31-1 holders exist, and no call takes a 256th reference. */
  ghost predicate Run(ss: seq<State>, cs: seq<Call>) {
    && |ss| == |cs| + 1
    && (forall i :: 0 <= i < |ss| ==> |ss[i].lot.hold| < LAST_ID)
    && (forall i :: 0 <= i < |cs| && Ready(ss[i]) ==> !Wraps(ss[i], cs[i]) && ss[i + 1] == Do(ss[i], cs[i]).0)
  }

  ghost predicate Fresh(st: State) { st == State(Lot(map[], map[], map[], 0, []), 1) }

  /** A socket is gone exactly when it was made and nobody holds it. */
  ghost predicate DeadIff(l: Lot, s: Sock) { s in l.freed <==> s < l.born && Holders(l.hold, s) == {} }

  /**
   In every run of calls by any openers: a live socket's refs is the number of
   its descriptors and parked entries, every owner slot counts its opener's
   descriptors, and a socket is destroyed, once, exactly when both are gone.
   */
  lemma {:induction false} HandOff(ss: seq<State>, cs: seq<Call>, i: nat, s: Sock, b: Base)
    requires Run(ss, cs) && Fresh(ss[0]) && i < |ss|
    ensures Ready(ss[i]) && DeadIff(ss[i].lot, s)
    ensures var l := ss[i].lot;
      s in l.refs ==> s in l.owners && l.refs[s] == |Holders(l.hold, s)| && OwnerRefs(l.owners[s], b) == |Fds(l.hold, s, b)|
    ensures forall j, k :: 0 <= j < k < |ss[i].lot.freed| ==> ss[i].lot.freed[j] != ss[i].lot.freed[k]
  {
    hide Counted, Do, Wraps, OwnerRefs;
    if i > 0 {
      HandOff(ss, cs, i - 1, s, b);
      DoKeeps(ss[i - 1], cs[i - 1]);
    }
    InvFacts(ss[i].lot, s, b);
    hide Inv;
  }

  lemma {:induction false} InvFacts(l: Lot, s: Sock, b: Base)
    requires Inv(l)
    ensures DeadIff(l, s)
    ensures s in l.refs ==> s in l.owners && l.refs[s] == |Holders(l.hold, s)| && OwnerRefs(l.owners[s], b) == |Fds(l.hold, s, b)|
    ensures forall j, k :: 0 <= j < k < |l.freed| ==> l.freed[j] != l.freed[k]
  {
    hide OwnerRefs, Fds, SlotsOk;
    if s in l.refs {
      assert Counted(l, s);
    } else {
      assert Holders(l.hold, s) == {};
    }
  }
}
