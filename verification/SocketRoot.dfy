/**
 The library root's socket tables as the object they are: every opener's
 descriptor table, the sockets' counts and owner slots, the parking list and the
 id counter (src/bsdsocket/sb_sockpass.c, src/bsdsocket/sb_socket.c).
 */
module SocketRoot {
  import opened Basics
  import opened SockPass

  datatype Parked = Parked(id: int, s: Sock)

  function Ids(q: seq<Parked>): set<int> { set p | p in q :: p.id }

  /** hold is what the descriptor tables say. */
  ghost predicate TablesMatch(fd: map<Base, seq<Option<Sock>>>, hold: map<Holder, Sock>) {
    && (forall b: Base, n: nat :: Fd(b, n) in hold <==> b in fd && n < |fd[b]| && fd[b][n].Some?)
    && (forall b: Base, n: nat :: Fd(b, n) in hold ==> fd[b][n] == Some(hold[Fd(b, n)]))
  }

  /** hold is what the parking list says, whose ids are distinct. */
  ghost predicate LotMatches(parked: seq<Parked>, hold: map<Holder, Sock>) {
    && (forall id :: Park(id) in hold <==> id in Ids(parked))
    && (forall i :: 0 <= i < |parked| ==> Park(parked[i].id) in hold && hold[Park(parked[i].id)] == parked[i].s)
    && (forall i, j :: 0 <= i < j < |parked| ==> parked[i].id != parked[j].id)
  }

  lemma {:induction false} SetTable(fd: map<Base, seq<Option<Sock>>>, parked: seq<Parked>, hold: map<Holder, Sock>, b: Base, n: nat, s: Sock)
    requires TablesMatch(fd, hold) && LotMatches(parked, hold) && b in fd && n < |fd[b]|
    ensures TablesMatch(fd[b := fd[b][n := Some(s)]], hold[Fd(b, n) := s])
    ensures LotMatches(parked, hold[Fd(b, n) := s])
  {
  }

  lemma {:induction false} ClearTable(fd: map<Base, seq<Option<Sock>>>, parked: seq<Parked>, hold: map<Holder, Sock>, b: Base, n: nat)
    requires TablesMatch(fd, hold) && LotMatches(parked, hold) && b in fd && n < |fd[b]|
    ensures TablesMatch(fd[b := fd[b][n := None]], hold - {Fd(b, n)})
    ensures LotMatches(parked, hold - {Fd(b, n)})
  {
  }

  lemma {:induction false} AddParked(fd: map<Base, seq<Option<Sock>>>, parked: seq<Parked>, hold: map<Holder, Sock>, id: int, s: Sock)
    requires TablesMatch(fd, hold) && LotMatches(parked, hold) && Park(id) !in hold
    ensures TablesMatch(fd, hold[Park(id) := s]) && LotMatches(parked + [Parked(id, s)], hold[Park(id) := s])
  {
    assert Ids(parked + [Parked(id, s)]) == Ids(parked) + {id};
  }

  lemma {:induction false} RemoveParked(fd: map<Base, seq<Option<Sock>>>, parked: seq<Parked>, hold: map<Holder, Sock>, i: nat)
    requires TablesMatch(fd, hold) && LotMatches(parked, hold) && i < |parked|
    ensures TablesMatch(fd, hold - {Park(parked[i].id)})
    ensures LotMatches(parked[..i] + parked[i + 1..], hold - {Park(parked[i].id)})
  {
    var r := parked[..i] + parked[i + 1..];
    assert forall k :: 0 <= k < |r| ==> r[k] == parked[if k < i then k else k + 1];
    forall id ensures id in Ids(r) <==> id in Ids(parked) && id != parked[i].id {
      if id in Ids(parked) && id != parked[i].id {
        var k :| 0 <= k < |parked| && parked[k].id == id;
        assert r[if k < i then k else k - 1] == parked[k];
      }
    }
  }

  class Root {
    var fd: map<Base, seq<Option<Sock>>>
    var refs: map<Sock, u8>
    var owners: map<Sock, seq<Slot>>
    var parked: seq<Parked>
    var next: int
    ghost var hold: map<Holder, Sock>
    ghost var born: nat
    ghost var freed: seq<Sock>

    ghost function View(): State
      reads this
    {
      State(Lot(hold, refs, owners, born, freed), next)
    }

    ghost predicate Linked()
      reads this
    {
      TablesMatch(fd, hold) && LotMatches(parked, hold)
    }

    ghost predicate Valid()
      reads this
    {
      Linked() && Ready(View())
    }

    /** sb_fd_get. */
    method FdGet(b: Base, n: int) returns (s: Option<Sock>)
      requires Valid() && b in fd
      ensures s.Some? <==> Open(View().lot, b, |fd[b]|, n)
      ensures s.Some? ==> s.value == hold[Fd(b, n)]
    {
      hide Ready;
      if n < 0 || n >= |fd[b]| {
        return None;
      }
      return fd[b][n];
    }

    /** sb_fd_alloc's search. */
    method FdAlloc(b: Base) returns (n: int)
      requires Valid() && b in fd
      ensures n == FirstFree(hold, b, 0, |fd[b]|)
    {
      hide Ready;
      n := 0;
      while n < |fd[b]|
        invariant 0 <= n <= |fd[b]| && FirstFree(hold, b, 0, |fd[b]|) == FirstFree(hold, b, n, |fd[b]|)
      {
        if fd[b][n].None? {
          return;
        }
        n := n + 1;
      }
      return -1;
    }

    /** sb_owner_incref on one socket's slots. */
    static method OwnerIncref(slots: seq<Slot>, b: Base) returns (r: Option<seq<Slot>>)
      ensures r == Inc(slots, b)
    {
      var e := -1;
      assert slots[0..] == slots;
      for i := 0 to |slots|
        invariant Index(slots, b) == (if Index(slots[i..], b) < 0 then -1 else Index(slots[i..], b) + i)
        invariant e < 0 ==> FirstEmpty(slots) == (if FirstEmpty(slots[i..]) < 0 then -1 else FirstEmpty(slots[i..]) + i)
        invariant e >= 0 ==> e == FirstEmpty(slots)
      {
        assert slots[i..][1..] == slots[i + 1..];
        if slots[i].Owner? && slots[i].base == b {
          return Some(slots[i := Owner(b, slots[i].fdrefs + 1)]);
        }
        if e < 0 && slots[i].Empty? {
          e := i;
        }
      }
      if e < 0 {
        return None;
      }
      return Some(slots[e := Owner(b, 1)]);
    }

    /** sb_owner_decref. */
    static method OwnerDecref(slots: seq<Slot>, b: Base) returns (r: seq<Slot>)
      ensures r == Dec(slots, b)
    {
      assert slots[0..] == slots;
      for i := 0 to |slots|
        invariant Index(slots, b) == (if Index(slots[i..], b) < 0 then -1 else Index(slots[i..], b) + i)
      {
        assert slots[i..][1..] == slots[i + 1..];
        if slots[i].Owner? && slots[i].base == b {
          if slots[i].fdrefs <= 1 {
            return slots[i := Empty];
          }
          return slots[i := Owner(b, slots[i].fdrefs - 1)];
        }
      }
      return slots;
    }

    /** sb_released_find. */
    method ReleasedFind(id: int) returns (i: int)
      ensures -1 <= i < |parked|
      ensures if i < 0 then id !in Ids(parked) else parked[i].id == id
    {
      i := 0;
      while i < |parked|
        invariant 0 <= i <= |parked| && forall k :: 0 <= k < i ==> parked[k].id != id
      {
        if parked[i].id == id {
          return;
        }
        i := i + 1;
      }
      return -1;
    }

    // ---- changes ----

    method SetFd(b: Base, n: nat, v: Option<Sock>)
      requires b in fd && n < |fd[b]|
      modifies `fd
      ensures fd == old(fd)[b := old(fd[b])[n := v]]
    {
      fd := fd[b := fd[b][n := v]];
    }

    /** sb_sock_free: the caller clears or replaces the table entry. */
    method SockFree(b: Base, ghost n: nat, s: Sock)
      requires Ready(View()) && Fd(b, n) in hold && hold[Fd(b, n)] == s
      modifies `refs, `owners, `hold, `freed
      ensures View().lot == Drop(old(View().lot), Fd(b, n)) && hold == old(hold) - {Fd(b, n)}
    {
      Live(View().lot, Fd(b, n));
      hide Ready, Dec;
      var slots := OwnerDecref(owners[s], b);
      owners := owners[s := slots];
      hold := hold - {Fd(b, n)};
      if refs[s] == 1 {
        refs, owners := refs - {s}, owners - {s};
        freed := freed + [s];
      } else {
        refs := refs[s := if refs[s] == 0 then 255 else refs[s] - 1];
      }
    }

    /** bsd_CloseSocket. */
    method CloseSocket(b: Base, n: int) returns (r: Result)
      requires Valid() && b in fd
      modifies this
      ensures Linked() && fd.Keys == old(fd.Keys)
      ensures (View(), r) == Do(old(View()), Close(b, |old(fd)[b]|, n))
    {
      hide Ready, Drop;
      var s := FdGet(b, n);
      if s.None? {
        return Err(EBADF);
      }
      ClearTable(fd, parked, hold, b, n);
      hide TablesMatch, LotMatches;
      SockFree(b, n, s.value);
      SetFd(b, n, None);
      r := Ok(0);
    }

    /** Count one more descriptor of b on s. */
    method AddRef(b: Base, n: nat, s: Sock)
      requires s in refs && s in owners
      modifies `refs, `owners, `hold
      ensures View().lot == AddFd(old(View().lot), b, n, s) && hold == old(hold)[Fd(b, n) := s]
    {
      hide Inc;
      refs := refs[s := if refs[s] == 255 then 0 else refs[s] + 1];
      var slots := OwnerIncref(owners[s], b);
      if slots.Some? {
        owners := owners[s := slots.value];
      }
      assert owners == old(owners)[s := IncOr(old(owners)[s], b)];
      hold := hold[Fd(b, n) := s];
    }

    /** bsd_Dup2Socket. */
    method Dup2Socket(b: Base, oldSock: int, newSock: int) returns (r: Result)
      requires Valid() && b in fd
      modifies this
      ensures Linked() && fd.Keys == old(fd.Keys)
      ensures (View(), r) == Do(old(View()), Dup2(b, |old(fd)[b]|, oldSock, newSock))
    {
      hide Drop, AddFd, Inv, FirstFree, Inc;
      ghost var l := View().lot;
      var s := FdGet(b, oldSock);
      if s.None? {
        return Err(EBADF);
      }
      Live(l, Fd(b, oldSock));
      if newSock == -1 {
        var n := FdAlloc(b);
        if n < 0 {
          return Err(EMFILE);
        }
        Install(b, n, s.value);
        return Ok(n);
      }
      if newSock < 0 || newSock >= |fd[b]| {
        return Err(EBADF);
      }
      if fd[b][newSock] == Some(s.value) {
        return Ok(newSock);
      }
      DropSpares(l, Fd(b, newSock), s.value);
      Install(b, newSock, s.value);
      r := Ok(newSock);
    }

    /** Put s at descriptor n, closing what was there. */
    method Install(b: Base, n: nat, s: Sock)
      requires Valid() && b in fd && n < |fd[b]| && s in refs && fd[b][n] != Some(s)
      modifies this
      ensures Linked() && fd.Keys == old(fd.Keys) && next == old(next)
      ensures var v := Vacate(old(View().lot), Fd(b, n));
        s in v.refs && s in v.owners && View().lot == AddFd(v, b, n, s)
    {
      hide Drop, AddFd, Inv;
      DropSpares(View().lot, Fd(b, n), s);
      if fd[b][n].Some? {
        Live(View().lot, Fd(b, n));
        SockFree(b, n, fd[b][n].value);
      }
      SetTable(fd, parked, old(hold), b, n, s);
      assert hold[Fd(b, n) := s] == old(hold)[Fd(b, n) := s];
      hide TablesMatch, LotMatches;
      SetFd(b, n, Some(s));
      AddRef(b, n, s);
    }

    /** The search for a unique id; the counter moves past what it tried. */
    method UniqueId() returns (id: int)
      requires Valid()
      modifies `next
      ensures Linked() && Park(id) !in hold
      ensures Some(id) == ParkId(old(View()), -1) && next == NextAfter(old(View()), -1)
    {
      hide Inv;
      SearchEnds(hold, next);
      ghost var start, k := next, 0;
      ghost var want := Skip(hold, next, 0);
      var found := true;
      id := next;
      while found
        invariant 0 <= k <= LAST_ID && 1 <= next <= LAST_ID && next == Cyc(start, k)
        invariant found ==> k <= want
        invariant !found ==> k == want + 1 && id == Cyc(start, want)
        invariant Linked()
        decreases found, LAST_ID - k
      {
        id := next;
        next := if next == LAST_ID then 1 else next + 1;
        k := k + 1;
        var i := ReleasedFind(id);
        found := i >= 0;
        assert found <==> Park(id) in hold;
      }
    }

    /** sb_release_common: mem says whether the parking entry could be allocated. */
    method ReleaseCommon(b: Base, sock: int, id0: int, copy: bool, mem: bool) returns (r: Result)
      requires Valid() && b in fd
      modifies this
      ensures Linked() && fd.Keys == old(fd.Keys)
      ensures (View(), r) == Do(old(View()), Release(b, |old(fd)[b]|, sock, id0, copy, mem))
    {
      hide Inv, Skip, Gain, Move, Dec, FreeAhead;
      ghost var st := View();
      var s := FdGet(b, sock);
      if s.None? {
        return Err(EBADF);
      }
      Live(st.lot, Fd(b, sock));
      var id := id0;
      if id == -1 {
        id := UniqueId();
      } else {
        var i := ReleasedFind(id);
        if i >= 0 {
          return Err(EADDRINUSE);
        }
      }
      if !mem {
        return Err(ENOBUFS);
      }
      if copy {
        ParkCopy(s.value, id);
      } else {
        ParkOnly(b, sock, s.value, id);
      }
      r := Ok(id);
    }

    method ParkCopy(s: Sock, id: int)
      requires Linked() && s in refs && s in owners && Park(id) !in hold
      modifies this
      ensures Linked() && fd == old(fd) && next == old(next)
      ensures View().lot == Gain(old(View().lot), Park(id), s, old(owners[s]))
    {
      AddParked(fd, parked, hold, id, s);
      hide TablesMatch, LotMatches;
      refs := refs[s := if refs[s] == 255 then 0 else refs[s] + 1];
      parked := parked + [Parked(id, s)];
      hold := hold[Park(id) := s];
      assert owners == owners[s := owners[s]];
    }

    method ParkOnly(b: Base, n: nat, s: Sock, id: int)
      requires Linked() && Fd(b, n) in hold && hold[Fd(b, n)] == s && s in owners && Park(id) !in hold
      requires b in fd && n < |fd[b]|
      modifies this
      ensures Linked() && fd.Keys == old(fd.Keys) && next == old(next)
      ensures View().lot == Move(old(View().lot), Fd(b, n), Park(id), Dec(old(owners[s]), b))
    {
      ClearTable(fd, parked, hold, b, n);
      hide Dec, TablesMatch, LotMatches;
      SetFd(b, n, None);
      var slots := OwnerDecref(owners[s], b);
      owners := owners[s := slots];
      hold := hold - {Fd(b, n)};
      AddParked(fd, parked, hold, id, s);
      parked := parked + [Parked(id, s)];
      hold := hold[Park(id) := s];
    }

    /** bsd_ObtainSocket: kind says whether the parked socket has the asked-for type. */
    method ObtainSocket(b: Base, id: int, kind: bool) returns (r: Result)
      requires Valid() && b in fd
      modifies this
      ensures Linked() && fd.Keys == old(fd.Keys)
      ensures (View(), r) == Do(old(View()), Obtain(b, |old(fd)[b]|, id, kind))
    {
      hide Inv, Move, Inc, FirstFree;
      ghost var st := View();
      var i := ReleasedFind(id);
      if i < 0 || !kind {
        return Err(EINVAL);
      }
      var s := parked[i].s;
      Live(st.lot, Park(id));
      var n := FdAlloc(b);
      if n < 0 {
        return Err(EMFILE);
      }
      var slots := OwnerIncref(owners[s], b);
      if slots.None? {
        return Err(ENOBUFS);
      }
      Claim(b, n, i, slots.value);
      r := Ok(n);
    }

    method Claim(b: Base, n: nat, i: nat, slots: seq<Slot>)
      requires Linked() && i < |parked| && b in fd && n < |fd[b]| && Fd(b, n) !in hold
      requires Park(parked[i].id) in hold && hold[Park(parked[i].id)] == parked[i].s
      modifies this
      ensures Linked() && fd.Keys == old(fd.Keys) && next == old(next)
      ensures View().lot == Move(old(View().lot), old(Park(parked[i].id)), Fd(b, n), slots)
    {
      var p := parked[i];
      RemoveParked(fd, parked, hold, i);
      hide TablesMatch, LotMatches;
      owners := owners[p.s := slots];
      parked := parked[..i] + parked[i + 1..];
      hold := hold - {Park(p.id)};
      SetTable(fd, parked, hold, b, n, p.s);
      SetFd(b, n, Some(p.s));
      hold := hold[Fd(b, n) := p.s];
    }
  }
}
