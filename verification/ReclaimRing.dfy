/**
 The deferred transmit-reclaim ring (port/amiga/netdev_tx.c): the driver's unit
 task stages completed cookies without a lock, the holder of the core lock
 frees them. Indices are free-running 32-bit words, masked into the ring.

 Each step below is one access to a shared index or slot, so a run is any
 interleaving of the two tasks. ring, taken, committed and done are history:
 cookies ever published, ever freed from the ring, ever released, ever handed in.
 */
module ReclaimRing {
  import opened Words
  import opened Rings

  type Cookie = nat // a pbuf

  datatype Producer =
    | Idle
    | Writing(batch: seq<Cookie>, next: nat)   // room was seen; next cookies written
    | AwaitLock(batch: seq<Cookie>)            // backstop: waits for the core lock
    | Inline(batch: seq<Cookie>, next: nat)    // backstop: lock held; next cookies freed

  datatype Consumer =
    | Out                                      // nobody is draining
    | Draining(cur: u32, snap: u32)            // lock holder between snapshot and commit

  datatype State = State(
    slots: seq<Cookie>, prod: u32, cons: u32,
    p: Producer, c: Consumer, locked: bool,
    freed: seq<Cookie>,
    ring: seq<Cookie>, taken: nat, committed: nat, done: seq<Cookie>)

  datatype Step =
    | Complete(batch: seq<Cookie>) // nso_TxDone: read both indices, test for room
    | WriteSlot
    | Publish
    | Lock(backstop: bool)         // outermost netstack_lock: snapshot both indices
    | FreeOne
    | Commit
    | FreeInline
    | Unlock

  predicate Enabled(s: State, e: Step) {
    match e
    case Complete(batch) => s.p.Idle? && |batch| + |s.slots| < M32
    case WriteSlot => s.p.Writing? && s.p.next < |s.p.batch|
    case Publish => s.p.Writing? && s.p.next == |s.p.batch|
    case Lock(backstop) => !s.locked && (backstop ==> s.p.AwaitLock?)
    case FreeOne => s.c.Draining? && s.c.cur != s.c.snap
    case Commit => s.c.Draining? && s.c.cur == s.c.snap
    case FreeInline => s.p.Inline? && s.c.Out?
    case Unlock => s.locked && s.c.Out? && !s.p.Inline?
  }

  function Next(s: State, e: Step): State
    requires |s.slots| > 0 && Enabled(s, e)
  {
    var n := |s.slots|;
    match e
    case Complete(batch) =>
      var room := Sub32(s.prod, s.cons) + |batch| <= n;
      s.(p := if room then Writing(batch, 0) else AwaitLock(batch), done := s.done + batch)
    case WriteSlot =>
      s.(slots := s.slots[At(Add32(s.prod, s.p.next), n) := s.p.batch[s.p.next]], p := Writing(s.p.batch, s.p.next + 1))
    case Publish =>
      s.(prod := Add32(s.prod, |s.p.batch|), p := Idle, ring := s.ring + s.p.batch)
    case Lock(backstop) =>
      s.(locked := true, c := Draining(s.cons, s.prod), p := if backstop then Inline(s.p.batch, 0) else s.p)
    case FreeOne =>
      s.(freed := s.freed + [s.slots[At(s.c.cur, n)]], c := s.c.(cur := Add32(s.c.cur, 1)), taken := s.taken + 1)
    case Commit =>
      s.(cons := s.c.cur, c := Out, committed := s.taken)
    case FreeInline =>
      if s.p.next < |s.p.batch| then s.(freed := s.freed + [s.p.batch[s.p.next]], p := Inline(s.p.batch, s.p.next + 1))
      else s.(p := Idle)
    case Unlock => s.(locked := false)
  }

  // ---- the FIFO it refines ----

  /** Cookies handed in and neither freed nor published yet. */
  function InHand(p: Producer): seq<Cookie> {
    match p
    case Idle => []
    case Writing(batch, _) => batch
    case AwaitLock(batch) => batch
    case Inline(batch, next) => if next <= |batch| then batch[next..] else []
  }

  /** The queue: published and not yet freed. */
  function Queue(s: State): seq<Cookie>
    requires s.taken <= |s.ring|
  {
    s.ring[s.taken..]
  }

  ghost predicate Indices(s: State) {
    var n := |s.slots|;
    && Divides(n) && n < M32
    && s.committed <= s.taken <= |s.ring| <= s.committed + n
    && s.prod == |s.ring| % M32 && s.cons == s.committed % M32
    && (s.c.Out? ==> s.committed == s.taken)
    && (s.c.Draining? ==> s.locked && s.c.cur == s.taken % M32)
  }

  ghost predicate Tasks(s: State) {
    && (s.c.Draining? ==> exists to :: s.taken <= to <= |s.ring| && s.c.snap == to % M32 && (s.p.Inline? ==> to == |s.ring|))
    && (s.p.Writing? ==> s.p.next <= |s.p.batch| && |s.ring| + |s.p.batch| <= s.committed + |s.slots|)
    && (s.p.Inline? ==>
          s.locked && s.p.next <= |s.p.batch| && (s.c.Out? ==> s.taken == |s.ring|) && (s.c.Draining? ==> s.p.next == 0))
  }

  /** Every unread slot still holds the cookie that was published into it. */
  ghost predicate Unread(s: State)
    requires |s.slots| > 0
  {
    forall j :: s.taken <= j < |s.ring| ==> s.slots[At(j, |s.slots|)] == s.ring[j]
  }

  ghost predicate Written(s: State)
    requires |s.slots| > 0
  {
    s.p.Writing? ==> forall j :: 0 <= j < s.p.next <= |s.p.batch| ==>
      s.slots[At(|s.ring| + j, |s.slots|)] == s.p.batch[j]
  }

  /** Freed, then queued, then in hand: all that was ever handed in, once and in order. */
  ghost predicate Fifo(s: State) {
    s.taken <= |s.ring| && s.freed + Queue(s) + InHand(s.p) == s.done
  }

  ghost predicate Inv(s: State) { Indices(s) && Tasks(s) && Unread(s) && Written(s) && Fifo(s) }

  function Start(n: nat): State {
    State(seq(n, _ => 0), 0, 0, Idle, Out, false, [], [], 0, 0, [])
  }

  // ---- every step keeps the queue exact ----

  lemma {:induction false} KeepsComplete(s: State, batch: seq<Cookie>)
    requires Inv(s) && Enabled(s, Complete(batch))
    ensures Inv(Next(s, Complete(batch)))
  {
    Sub32Distance(|s.ring|, s.committed);
    assert s.freed + Queue(s) + [] == s.done;
  }

  /** No unread slot is overwritten: the slot written lies beyond every unread one. */
  lemma {:induction false} KeepsWrite(s: State)
    requires Inv(s) && Enabled(s, WriteSlot)
    ensures Inv(Next(s, WriteSlot))
  {
    hide At, Divides, Add32;
    var n, r, k := |s.slots|, |s.ring|, s.p.next;
    var t := Next(s, WriteSlot);
    Add32OfMod(r, k);
    Masked(r + k, n);
    forall j | s.taken <= j < r ensures t.slots[At(j, n)] == s.ring[j] {
      Apart(j, r + k, n);
    }
    forall j | 0 <= j < t.p.next ensures t.slots[At(r + j, n)] == s.p.batch[j] {
      if j < k {
        Apart(r + j, r + k, n);
      }
    }
  }

  lemma {:induction false} PublishUnread(s: State)
    requires Inv(s) && Enabled(s, Publish)
    ensures Unread(Next(s, Publish))
  {
    assert |s.slots| > 0;
    hide At, Divides, Add32, Fifo, Tasks;
    var r, t := |s.ring|, Next(s, Publish);
    forall j | t.taken <= j < |t.ring| ensures t.slots[At(j, |s.slots|)] == t.ring[j] {
      if j >= r {
        assert s.slots[At(r + (j - r), |s.slots|)] == s.p.batch[j - r];
      }
    }
  }

  lemma {:induction false} PublishFifo(s: State)
    requires Inv(s) && Enabled(s, Publish)
    ensures Fifo(Next(s, Publish))
  {
    assert |s.slots| > 0;
    hide At, Divides, Add32, Tasks, Unread, Written;
    var t := Next(s, Publish);
    assert Queue(t) == Queue(s) + s.p.batch;
    assert s.freed + (Queue(s) + s.p.batch) + [] == s.done;
  }

  lemma {:induction false} PublishIndices(s: State)
    requires Inv(s) && Enabled(s, Publish)
    ensures Indices(Next(s, Publish)) && Tasks(Next(s, Publish))
  {
    Add32OfMod(|s.ring|, |s.p.batch|);
    hide At, Divides, Add32, Fifo, Unread, Written;
    if s.c.Draining? {
      var to :| s.taken <= to <= |s.ring| && s.c.snap == to % M32;
      assert to <= |Next(s, Publish).ring|;
    }
  }

  lemma {:induction false} KeepsPublish(s: State)
    requires Inv(s) && Enabled(s, Publish)
    ensures Inv(Next(s, Publish))
  {
    PublishUnread(s);
    PublishFifo(s);
    PublishIndices(s);
    hide Indices, Tasks, Unread, Fifo;
  }

  lemma {:induction false} KeepsLock(s: State, backstop: bool)
    requires Inv(s) && Enabled(s, Lock(backstop))
    ensures Inv(Next(s, Lock(backstop)))
  {
    var t := Next(s, Lock(backstop));
    assert s.taken <= |s.ring| <= |s.ring| && t.c.snap == |s.ring| % M32;
  }

  /** The consumer stops exactly at its snapshot, whatever was published since. */
  lemma {:induction false} AtSnapshot(s: State, to: nat)
    requires Indices(s) && s.c.Draining? && s.taken <= to <= |s.ring| && s.c.snap == to % M32
    ensures s.c.cur == s.c.snap <==> s.taken == to
  {
    Sub32Distance(to, s.taken);
  }

  lemma {:induction false} KeepsFree(s: State)
    requires Inv(s) && Enabled(s, FreeOne)
    ensures Inv(Next(s, FreeOne))
  {
    var to :| s.taken <= to <= |s.ring| && s.c.snap == to % M32 && (s.p.Inline? ==> to == |s.ring|);
    var t := Next(s, FreeOne);
    hide At, Divides, Add32;
    AtSnapshot(s, to);
    Masked(s.taken, |s.slots|);
    Add32OfMod(s.taken, 1);
    assert t.taken <= to;
    assert Queue(s) == [s.ring[s.taken]] + Queue(t);
    assert t.freed + Queue(t) == s.freed + Queue(s);
  }

  lemma {:induction false} KeepsCommit(s: State)
    requires Inv(s) && Enabled(s, Commit)
    ensures Inv(Next(s, Commit))
  {
    var to :| s.taken <= to <= |s.ring| && s.c.snap == to % M32 && (s.p.Inline? ==> to == |s.ring|);
    AtSnapshot(s, to);
  }

  lemma {:induction false} KeepsInline(s: State)
    requires Inv(s) && Enabled(s, FreeInline)
    ensures Inv(Next(s, FreeInline))
  {
    var t := Next(s, FreeInline);
    hide At, Divides;
    assert Queue(s) == [];
    if s.p.next < |s.p.batch| {
      assert s.p.batch[s.p.next..] == [s.p.batch[s.p.next]] + s.p.batch[s.p.next + 1..];
    }
  }

  lemma {:induction false} Keeps(s: State, e: Step)
    requires Inv(s) && Enabled(s, e)
    ensures Inv(Next(s, e))
  {
    hide Inv, Next;
    match e
    case Complete(batch) => KeepsComplete(s, batch);
    case WriteSlot => KeepsWrite(s);
    case Publish => KeepsPublish(s);
    case Lock(backstop) => KeepsLock(s, backstop);
    case FreeOne => KeepsFree(s);
    case Commit => KeepsCommit(s);
    case FreeInline => KeepsInline(s);
    case Unlock => KeepsUnlock(s);
  }

  lemma {:induction false} KeepsUnlock(s: State)
    requires Inv(s) && Enabled(s, Unlock)
    ensures Inv(Next(s, Unlock))
  {
    assert |s.slots| > 0;
    hide At, Divides, InHand;
    var t := Next(s, Unlock);
    assert Fifo(t) by { assert Queue(t) == Queue(s); }
    hide Queue, Fifo;
    assert Indices(t) && Tasks(t);
  }

  // ---- whole runs ----

  /** The states of a run of n slots: each follows from the one before by an enabled step. */
  ghost predicate Run(states: seq<State>, steps: seq<Step>, n: nat) {
    && |states| == |steps| + 1 && states[0] == Start(n)
    && forall i :: 0 <= i < |steps| ==>
         |states[i].slots| > 0 && Enabled(states[i], steps[i]) && states[i + 1] == Next(states[i], steps[i])
  }

  /**
   The ring refines a FIFO under every interleaving and across index wrap: at
   every state of every run the cookies freed so far are the first cookies
   handed in, in order and once each, and once both tasks are idle and the
   ring is drained all of them are.
   */
  lemma {:induction false} RingIsFifo(states: seq<State>, steps: seq<Step>, n: nat, i: nat)
    requires Divides(n) && n < M32 && Run(states, steps, n) && i < |states|
    ensures Inv(states[i])
    ensures var s := states[i]; s.freed <= s.done
    ensures var s := states[i]; s.p.Idle? && s.c.Out? && s.cons == s.prod ==> s.freed == s.done
    decreases i
  {
    if i == 0 {
      assert Inv(Start(n));
    } else {
      hide Next, Inv;
      RingIsFifo(states, steps, n, i - 1);
      Keeps(states[i - 1], steps[i - 1]);
    }
    FifoFacts(states[i]);
  }

  lemma {:induction false} FifoFacts(s: State)
    requires Inv(s)
    ensures s.freed <= s.done
    ensures s.p.Idle? && s.c.Out? && s.cons == s.prod ==> s.freed == s.done
  {
    Sub32Distance(|s.ring|, s.committed);
    assert s.freed + (Queue(s) + InHand(s.p)) == s.done;
  }

  // ---- no state is a dead end ----

  /** The steps es can be taken from s one after the other and lead to t. */
  ghost predicate Leads(s: State, es: seq<Step>, t: State)
    decreases |es|
  {
    if es == [] then t == s else |s.slots| > 0 && Enabled(s, es[0]) && Leads(Next(s, es[0]), es[1..], t)
  }

  lemma {:induction false} LeadsOn(s: State, e: Step, es: seq<Step>, t: State)
    requires |s.slots| > 0 && Enabled(s, e) && Leads(Next(s, e), es, t)
    ensures Leads(s, [e] + es, t)
  {
    hide Next, Enabled;
    assert ([e] + es)[1..] == es;
  }

  lemma {:induction false} LeadsJoin(s: State, es: seq<Step>, t: State, fs: seq<Step>, u: State)
    requires Leads(s, es, t) && Leads(t, fs, u)
    ensures Leads(s, es + fs, u)
    decreases |es|
  {
    hide Next, Enabled;
    if es == [] {
      assert es + fs == fs;
    } else {
      LeadsJoin(Next(s, es[0]), es[1..], t, fs, u);
      assert es + fs == [es[0]] + (es[1..] + fs);
      LeadsOn(s, es[0], es[1..] + fs, u);
    }
  }

  lemma {:induction false} LeadsNone(s: State)
    ensures Leads(s, [], s)
  {
  }

  lemma {:induction false} HasSlots(s: State)
    requires Inv(s)
    ensures |s.slots| > 0 && s.taken <= |s.ring|
  {
  }

  /** The completion path takes the ring exactly when the batch fits behind what is not yet committed. */
  lemma {:induction false} RoomIff(s: State, batch: seq<Cookie>)
    requires Inv(s) && Enabled(s, Complete(batch))
    ensures |s.slots| > 0
    ensures var room := |s.ring| - s.committed + |batch| <= |s.slots|;
      Next(s, Complete(batch)) == s.(p := if room then Writing(batch, 0) else AwaitLock(batch), done := s.done + batch)
  {
    Sub32Distance(|s.ring|, s.committed);
  }

  /** A producer left alone writes the rest of its batch and publishes it. */
  lemma {:induction false} ProducerFinishes(s: State) returns (es: seq<Step>, t: State)
    requires Inv(s) && s.p.Writing?
    ensures Leads(s, es, t) && Inv(t)
    ensures t == s.(slots := t.slots, prod := t.prod, p := Idle, ring := s.ring + s.p.batch)
    decreases if s.p.next <= |s.p.batch| then |s.p.batch| - s.p.next else 0
  {
    HasSlots(s);
    assert s.p.next <= |s.p.batch|;
    if s.p.next == |s.p.batch| {
      t := Next(s, Publish);
      Keeps(s, Publish);
      LeadsOn(s, Publish, [], t);
      es := [Publish] + [];
    } else {
      var r := Next(s, WriteSlot);
      Keeps(s, WriteSlot);
      es, t := ProducerFinishes(r);
      LeadsOn(s, WriteSlot, es, t);
      es := [WriteSlot] + es;
    }
  }

  /** The lock holder frees up to its snapshot and commits. */
  lemma {:induction false} DrainFinishes(s: State, to: nat) returns (es: seq<Step>, t: State)
    requires Inv(s) && s.c.Draining? && s.taken <= to <= |s.ring| && s.c.snap == to % M32
    ensures Leads(s, es, t) && Inv(t)
    ensures t == s.(cons := to % M32, c := Out, freed := s.freed + s.ring[s.taken..to], taken := to, committed := to)
    decreases if s.taken <= to then to - s.taken else 0
  {
    hide Inv, Next, Enabled, Leads;
    DrainEnabled(s, to);
    if s.taken == to {
      t := Next(s, Commit);
      Keeps(s, Commit);
      CommitIs(s, to);
      LeadsNone(t);
      LeadsOn(s, Commit, [], t);
      es := [Commit] + [];
      assert s.ring[to..to] == [] && s.freed + [] == s.freed;
    } else {
      var r := Next(s, FreeOne);
      Keeps(s, FreeOne);
      FreeOneIs(s);
      es, t := DrainFinishes(r, to);
      LeadsOn(s, FreeOne, es, t);
      es := [FreeOne] + es;
      assert s.ring[s.taken..to] == [s.ring[s.taken]] + s.ring[s.taken + 1..to];
      assert s.freed + [s.ring[s.taken]] + s.ring[s.taken + 1..to] == s.freed + s.ring[s.taken..to];
    }
  }

  lemma {:induction false} DrainEnabled(s: State, to: nat)
    requires Inv(s) && s.c.Draining? && s.taken <= to <= |s.ring| && s.c.snap == to % M32
    ensures |s.slots| > 0 && Enabled(s, if s.taken == to then Commit else FreeOne)
  {
    AtSnapshot(s, to);
  }

  lemma {:induction false} CommitIs(s: State, to: nat)
    requires Inv(s) && Enabled(s, Commit) && s.taken == to && |s.slots| > 0
    ensures Next(s, Commit) == s.(cons := to % M32, c := Out, committed := to)
  {
  }

  lemma {:induction false} FreeOneIs(s: State)
    requires Inv(s) && Enabled(s, FreeOne) && s.taken < |s.ring| && |s.slots| > 0
    ensures Next(s, FreeOne) ==
      s.(freed := s.freed + [s.ring[s.taken]], c := Draining((s.taken + 1) % M32, s.c.snap), taken := s.taken + 1)
  {
    Masked(s.taken, |s.slots|);
    Add32OfMod(s.taken, 1);
  }

  /** The backstop frees the rest of its batch. */
  lemma {:induction false} InlineFinishes(s: State) returns (es: seq<Step>, t: State)
    requires Inv(s) && s.p.Inline? && s.c.Out?
    ensures Leads(s, es, t) && Inv(t) && s.p.next <= |s.p.batch|
    ensures t == s.(freed := s.freed + s.p.batch[s.p.next..], p := Idle)
    decreases if s.p.next <= |s.p.batch| then |s.p.batch| - s.p.next else 0
  {
    HasSlots(s);
    var r := Next(s, FreeInline);
    Keeps(s, FreeInline);
    assert s.p.next <= |s.p.batch|;
    if s.p.next == |s.p.batch| {
      t := r;
      LeadsOn(s, FreeInline, [], t);
      es := [FreeInline] + [];
      assert s.freed + [] == s.freed;
    } else {
      es, t := InlineFinishes(r);
      LeadsOn(s, FreeInline, es, t);
      es := [FreeInline] + es;
      assert s.p.batch[s.p.next..] == [s.p.batch[s.p.next]] + s.p.batch[s.p.next + 1..];
    }
  }

  /** Whoever holds the lock gets to its release, and what it set out to do is done. */
  lemma {:induction false} HolderFinishes(s: State) returns (es: seq<Step>, t: State)
    requires Inv(s) && s.locked
    ensures Leads(s, es, t) && Inv(t) && !t.locked && t.c.Out? && !t.p.Inline? && t.done == s.done
    ensures s.p.Inline? ==> t.p.Idle?
  {
    var es1, es2, r, u := [], [], s, s;
    if s.c.Draining? {
      var to :| s.taken <= to <= |s.ring| && s.c.snap == to % M32;
      es1, r := DrainFinishes(s, to);
    }
    u := r;
    if r.p.Inline? {
      es2, u := InlineFinishes(r);
    }
    hide Inv;
    LeadsJoin(s, es1, r, es2, u);
    HasSlots(u);
    t := Next(u, Unlock);
    Keeps(u, Unlock);
    LeadsOn(u, Unlock, [], t);
    LeadsJoin(s, es1 + es2, u, [Unlock] + [], t);
    es := es1 + es2 + ([Unlock] + []);
  }

  /** With the lock free, a hold drains the ring whole and, if it is the backstop's, frees its batch too. */
  lemma {:induction false} HoldDrains(s: State, backstop: bool) returns (es: seq<Step>, t: State)
    requires Inv(s) && !s.locked && s.c.Out? && (backstop ==> s.p.AwaitLock?) && !s.p.Inline?
    ensures Leads(s, es, t) && Inv(t) && !t.locked && t.c.Out? && t.cons == t.prod && t.done == s.done && s.taken <= |s.ring|
    ensures t.freed == s.freed + Queue(s) + (if backstop then s.p.batch else [])
    ensures t.p == if backstop then Idle else s.p
  {
    HasSlots(s);
    var r := Next(s, Lock(backstop));
    Keeps(s, Lock(backstop));
    assert r.c.snap == |s.ring| % M32 by { Snapshot(s); }
    var es1, u := DrainFinishes(r, |s.ring|);
    var es2, v := [], u;
    assert s.ring[s.taken..|s.ring|] == Queue(s);
    if backstop {
      es2, v := InlineFinishes(u);
      assert u.p.batch[0..] == s.p.batch;
    }
    assert Queue(s) + [] == Queue(s);
    assert v.freed == s.freed + Queue(s) + (if backstop then s.p.batch else []);
    hide Inv;
    LeadsJoin(r, es1, u, es2, v);
    HasSlots(v);
    t := Next(v, Unlock);
    Keeps(v, Unlock);
    LeadsOn(v, Unlock, [], t);
    LeadsJoin(r, es1 + es2, v, [Unlock] + [], t);
    LeadsOn(s, Lock(backstop), es1 + es2 + ([Unlock] + []), t);
    es := [Lock(backstop)] + (es1 + es2 + ([Unlock] + []));
    DrainedEqual(v);
  }

  lemma {:induction false} Snapshot(s: State)
    requires Inv(s)
    ensures s.prod == |s.ring| % M32
  {
  }

  lemma {:induction false} DrainedEqual(s: State)
    requires Inv(s) && s.c.Out? && s.committed == |s.ring|
    ensures s.cons == s.prod
  {
  }

  /**
   No interleaving runs into a dead end: from every reachable state the tasks can
   go on to one where the lock is free, both are idle, the ring is empty, and
   every cookie ever handed in has been freed, in order.
   */
  lemma {:induction false} NeverStuck(states: seq<State>, steps: seq<Step>, n: nat, i: nat) returns (es: seq<Step>, t: State)
    requires Divides(n) && n < M32 && Run(states, steps, n) && i < |states|
    ensures Leads(states[i], es, t)
    ensures t.p.Idle? && t.c.Out? && !t.locked && t.cons == t.prod && t.freed == t.done == states[i].done
  {
    hide Inv, Next, Enabled;
    var s := states[i];
    RingIsFifo(states, steps, n, i);
    var es1, r := [], s;
    if s.locked {
      es1, r := HolderFinishes(s);
    } else {
      Unlocked(s);
    }
    var es2, u := [], r;
    if r.p.Writing? {
      es2, u := ProducerFinishes(r);
    }
    LeadsJoin(s, es1, r, es2, u);
    var es3;
    es3, t := HoldDrains(u, u.p.AwaitLock?);
    LeadsJoin(s, es1 + es2, u, es3, t);
    es := es1 + es2 + es3;
    FifoFacts(t);
  }

  lemma {:induction false} Unlocked(s: State)
    requires Inv(s) && !s.locked
    ensures s.c.Out? && !s.p.Inline?
  {
  }

  // ---- the two sides without interference ----

  class Ring {
    const slots: array<Cookie>
    var prod: u32
    var cons: u32
    var freed: seq<Cookie>

    ghost predicate Valid() reads this {
      Divides(slots.Length) && slots.Length < M32 && Sub32(prod, cons) <= slots.Length
    }

    ghost function Contents(): (q: seq<Cookie>)
      requires Valid()
      reads this, slots
    {
      Window(slots[..], cons, Sub32(prod, cons))
    }

    constructor (n: nat)
      requires Divides(n) && n < M32
      ensures Valid() && fresh(slots) && slots.Length == n && Contents() == [] && freed == []
    {
      slots := new Cookie[n](_ => 0);
      prod, cons, freed := 0, 0, [];
    }

    /** netdevif_tx_reclaim's first half: snapshot, free up to it, commit. */
    method Reclaim()
      requires Valid()
      modifies this
      ensures Valid() && prod == old(prod)
      ensures freed == old(freed) + old(Contents()) && Contents() == []
    {
      var cur, snap := cons, prod;
      ghost var k, q := 0, Contents();
      EndOfQueue(prod, cons, 0);
      hide At, Divides, Add32;
      while cur != snap
        invariant 0 <= k <= |q| && cur == Add32(cons, k) && (cur == snap <==> k == |q|)
        invariant cons == old(cons) && snap == prod == old(prod)
        invariant freed == old(freed) + q[..k]
        decreases |q| - k
      {
        Masked(cons + k, slots.Length);
        AddIsMod(cons, k);
        freed := freed + [slots[At(cur, slots.Length)]];
        assert q[..k + 1] == q[..k] + [q[k]];
        Add32Assoc(cons, k, 1);
        cur := Add32(cur, 1);
        k := k + 1;
        EndOfQueue(prod, cons, k);
      }
      cons := cur;
      assert q[..k] == q;
    }

    /** ndif_tx_done up to the wake: stage the batch, or free it under the lock when it cannot fit. */
    method TxDone(cookies: seq<Cookie>)
      requires Valid() && |cookies| + slots.Length < M32
      modifies this, slots
      ensures Valid()
      ensures if |old(Contents())| + |cookies| <= slots.Length
              then Contents() == old(Contents()) + cookies && freed == old(freed)
              else Contents() == [] && freed == old(freed) + old(Contents()) + cookies
    {
      if Sub32(prod, cons) + |cookies| > slots.Length {
        Reclaim();
        FreeAll(cookies);
        return;
      }
      Stage(cookies);
    }

    method Stage(cookies: seq<Cookie>)
      requires Valid() && Sub32(prod, cons) + |cookies| <= slots.Length
      modifies this`prod, slots
      ensures Valid() && Contents() == old(Contents()) + cookies
    {
      var n, p := slots.Length, prod;
      ghost var q := Contents();
      EndOfQueue(prod, cons, |q|);
      Appended(prod, cons, |cookies|);
      hide At, Divides, Add32, Sub32;
      for i := 0 to |cookies|
        invariant n > 0 && p == Add32(cons, |q| + i) && prod == old(prod)
        invariant Window(slots[..], cons, |q| + i) == q + cookies[..i]
      {
        AddIsMod(cons, |q| + i);
        Masked(cons + |q| + i, n);
        WindowStore(slots[..], cons, |q| + i, cookies[i]);
        ghost var was := slots[..];
        slots[At(p, n)] := cookies[i];
        assert slots[..] == was[At(cons + |q| + i, n) := cookies[i]];
        Add32Assoc(cons, |q| + i, 1);
        p := Add32(p, 1);
      }
      Add32Assoc(cons, |q|, |cookies|);
      prod := p;
    }

    method FreeAll(cookies: seq<Cookie>)
      requires Valid()
      modifies this`freed
      ensures freed == old(freed) + cookies
    {
      for i := 0 to |cookies|
        invariant freed == old(freed) + cookies[..i]
      {
        freed := freed + [cookies[i]];
      }
    }
  }
}
