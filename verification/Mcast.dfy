/**
 The multicast receive filter (port/amiga/netif_base.c): a bounded, reference
 counted set of group MACs with an overflow counter for joins that found no
 slot, and the snapshot the stack task pushes to the driver.
 */
module Mcast {
  import opened Words

  const MCAST_MAX := 32

  /** An IPv4 group address in 224.0.0.0/4, host order. */
  type Group = g: int | 0xE000_0000 <= g < 0xF000_0000 witness 0xE000_0000

  type Mac = m: seq<byte> | |m| == 6 witness [0, 0, 0, 0, 0, 0]

  /** 01:00:5e and the low 23 bits of the group. */
  function MacOf(g: Group): Mac {
    var n: int := g;
    [0x01, 0x00, 0x5e, n / 0x1_0000 % 0x80, n / 0x100 % 0x100, n % 0x100]
  }

  function Low23(g: Group): nat { var n: int := g; n % 0x80_0000 }

  /** The five bits of a group its MAC does not show. */
  function Top(g: Group): (t: nat)
    ensures 448 <= t < 480 && g == t * 0x80_0000 + Low23(g)
  {
    var n: int := g;
    n / 0x80_0000
  }

  lemma {:induction false} Unique16(x: nat, q: nat, r: nat)
    requires r < 0x1_0000 && x == q * 0x1_0000 + r
    ensures x / 0x1_0000 == q
  {
  }

  lemma {:induction false} Unique23(x: nat, q: nat, r: nat)
    requires r < 0x80_0000 && x == q * 0x80_0000 + r
    ensures x % 0x80_0000 == r
  {
  }

  /** The low three octets as a number. */
  function Number(m: Mac): nat {
    var a: int, b: int, c: int := m[3], m[4], m[5];
    a * 0x1_0000 + b * 0x100 + c
  }

  /** The IANA block 01:00:5e with a clear bit above the low 23 bits of the group (section 6.4 of RFC 1112). */
  lemma {:induction false} MacBytes(g: Group)
    ensures MacOf(g)[..3] == [0x01, 0x00, 0x5e] && MacOf(g)[3] < 0x80
    ensures Number(MacOf(g)) == Low23(g)
  {
    var n: int := g;
    var q, c := n / 0x100, n % 0x100;
    var h, b := q / 0x100, q % 0x100;
    var k, a := h / 0x80, h % 0x80;
    Unique16(n, h, b * 0x100 + c);
    Unique23(n, k, a * 0x1_0000 + b * 0x100 + c);
  }

  /** Two groups share a MAC exactly when their low 23 bits agree. */
  lemma {:induction false} AliasIff(a: Group, b: Group)
    ensures MacOf(a) == MacOf(b) <==> Low23(a) == Low23(b)
  {
    MacBytes(a);
    MacBytes(b);
    var x, y := MacOf(a), MacOf(b);
    assert x[0] == y[0] && x[1] == y[1] && x[2] == y[2];
    hide MacOf, Low23;
    if x != y {
      assert x[3] != y[3] || x[4] != y[4] || x[5] != y[5];
    }
  }

  /** How many joined groups use this MAC. */
  ghost function Joined(groups: set<Group>, m: Mac): nat { |Aliases(groups, m)| }

  ghost function Aliases(groups: set<Group>, m: Mac): set<Group> { set g | g in groups && MacOf(g) == m }

  /** The filter: distinct MACs, their join counts, joins that did not fit, and whether the driver is stale. */
  datatype Mc = Mc(list: seq<Mac>, refs: seq<u16>, overflow: u16, dirty: bool)

  predicate Shape(s: Mc) { |s.refs| == |s.list| <= MCAST_MAX }

  function Find(list: seq<Mac>, m: Mac): (i: int)
    ensures -1 <= i < |list| && (i >= 0 ==> list[i] == m) && (i < 0 ==> m !in list)
    ensures forall k :: 0 <= k < i ==> list[k] != m
  {
    if list == [] then -1
    else if list[0] == m then 0
    else var j := Find(list[1..], m); if j < 0 then -1 else j + 1
  }

  function Mark(s: Mc, changed: bool, had: bool): Mc { s.(dirty := s.dirty || changed || (s.overflow > 0) != had) }

  /** 16-bit increment and decrement. */
  function Bump(x: u16): u16 { if x == 0xFFFF then 0 else x + 1 }
  function Drop(x: u16): u16 { if x == 0 then 0xFFFF else x - 1 }

  /** NETIF_ADD_MAC_FILTER. */
  function Join(s: Mc, m: Mac): Mc
    requires Shape(s)
  {
    var i, had := Find(s.list, m), s.overflow > 0;
    if i >= 0 then Mark(s.(refs := s.refs[i := Bump(s.refs[i])]), false, had)
    else if |s.list| < MCAST_MAX then Mark(s.(list := s.list + [m], refs := s.refs + [1]), true, had)
    else Mark(s.(overflow := Bump(s.overflow)), false, had)
  }

  /** Move the last slot over slot i. */
  function SwapRemove<T>(q: seq<T>, i: nat): seq<T>
    requires i < |q|
  {
    q[i := q[|q| - 1]][..|q| - 1]
  }

  /** NETIF_DEL_MAC_FILTER. */
  function Leave(s: Mc, m: Mac): Mc
    requires Shape(s)
  {
    var i, had := Find(s.list, m), s.overflow > 0;
    if i >= 0 then
      if s.refs[i] == 1 then Mark(s.(list := SwapRemove(s.list, i), refs := SwapRemove(s.refs, i)), true, had)
      else Mark(s.(refs := s.refs[i := Drop(s.refs[i])]), false, had)
    else if s.overflow > 0 then Mark(s.(overflow := s.overflow - 1), false, had)
    else s
  }

  // ---- the invariant ----

  /** Joins recorded for m in the list. */
  function RefsOf(s: Mc, m: Mac): nat
    requires Shape(s)
  {
    var i := Find(s.list, m);
    if i >= 0 then s.refs[i] else 0
  }

  predicate Distinct(list: seq<Mac>) { forall i, j :: 0 <= i < j < |list| ==> list[i] != list[j] }

  /**
   The filter with its history: the groups joined, each MAC's share of the
   overflow counter, and what the last snapshot saw.
   */
  datatype History = History(mc: Mc, groups: set<Group>, share: multiset<Mac>, snapMacs: set<Mac>, snapOver: bool)

  function Macs(list: seq<Mac>): set<Mac> { set m | m in list }

  ghost predicate Split(h: History)
    requires Shape(h.mc)
  {
    forall m: Mac :: Joined(h.groups, m) == RefsOf(h.mc, m) + h.share[m]
  }

  ghost predicate Inv(h: History) {
    && Shape(h.mc) && Distinct(h.mc.list)
    && (forall i :: 0 <= i < |h.mc.refs| ==> h.mc.refs[i] > 0)
    && Split(h)
    && |h.share| == h.mc.overflow
    && (!h.mc.dirty ==> Macs(h.mc.list) == h.snapMacs && (h.mc.overflow > 0) == h.snapOver)
  }

  datatype Event = JoinGroup(g: Group) | LeaveGroup(g: Group) | Snapshot

  /** lwIP asks for the filter on the first join and the last leave of a group. */
  ghost predicate Legal(h: History, e: Event) {
    Shape(h.mc) && (e.JoinGroup? ==> e.g !in h.groups) && (e.LeaveGroup? ==> e.g in h.groups)
  }

  ghost function Apply(h: History, e: Event): History
    requires Legal(h, e)
  {
    match e
    case JoinGroup(g) =>
      h.(mc := Join(h.mc, MacOf(g)), groups := h.groups + {g},
         share := if Overflows(h.mc, MacOf(g)) then h.share + multiset{MacOf(g)} else h.share)
    case LeaveGroup(g) =>
      h.(mc := Leave(h.mc, MacOf(g)), groups := h.groups - {g},
         share := if MacOf(g) in h.mc.list then h.share else h.share - multiset{MacOf(g)})
    case Snapshot =>
      h.(mc := h.mc.(dirty := false), snapMacs := Macs(h.mc.list), snapOver := h.mc.overflow > 0)
  }

  /** A join that finds neither its MAC nor a free slot. */
  predicate Overflows(s: Mc, m: Mac) { m !in s.list && |s.list| == MCAST_MAX }

  // ---- counting aliases ----

  lemma {:induction false} JoinCounts(groups: set<Group>, g: Group, m: Mac)
    requires g !in groups
    ensures Joined(groups + {g}, m) == Joined(groups, m) + if MacOf(g) == m then 1 else 0
  {
    hide MacOf;
    assert Aliases(groups + {g}, m) == if MacOf(g) == m then Aliases(groups, m) + {g} else Aliases(groups, m);
  }

  lemma {:induction false} LeaveCounts(groups: set<Group>, g: Group, m: Mac)
    requires g in groups
    ensures Joined(groups - {g}, m) == Joined(groups, m) - if MacOf(g) == m then 1 else 0
  {
    hide MacOf;
    assert Aliases(groups - {g}, m) == if MacOf(g) == m then Aliases(groups, m) - {g} else Aliases(groups, m);
    assert MacOf(g) == m ==> g in Aliases(groups, m);
  }

  /** At most 32 groups share a MAC, so a join count never wraps. */
  lemma {:induction false} AliasBound(groups: set<Group>, m: Mac)
    ensures Joined(groups, m) <= 32
  {
    var a := Aliases(groups, m);
    forall x, y | x in a && y in a && Top(x) == Top(y) ensures x == y {
      AliasIff(x, y);
    }
    CardBound(a, 448, 480);
  }

  lemma {:induction false} CardBound(a: set<Group>, lo: nat, hi: nat)
    requires lo <= hi
    requires forall x :: x in a ==> lo <= Top(x) < hi
    requires forall x, y :: x in a && y in a && Top(x) == Top(y) ==> x == y
    ensures |a| <= hi - lo
    decreases hi - lo
  {
    if lo == hi {
      assert a == {} by {
        forall x ensures x !in a {
        }
      }
    } else if x :| x in a && Top(x) == hi - 1 {
      CardBound(a - {x}, lo, hi - 1);
    } else {
      CardBound(a, lo, hi - 1);
    }
  }

  // ---- one step ----

  lemma {:induction false} SwapRemoveAt<T>(q: seq<T>, i: nat)
    requires i < |q|
    ensures var r := SwapRemove(q, i);
      |r| == |q| - 1 && forall k :: 0 <= k < |r| ==> r[k] == if k == i then q[|q| - 1] else q[k]
  {
  }

  lemma {:induction false} SwapRemoveRefs(s: Mc, i: nat, x: Mac)
    requires Shape(s) && Distinct(s.list) && i < |s.list|
    ensures var t := s.(list := SwapRemove(s.list, i), refs := SwapRemove(s.refs, i));
      && Shape(t) && Distinct(t.list)
      && RefsOf(t, x) == if x == s.list[i] then 0 else RefsOf(s, x)
  {
    SwapRemoveAt(s.list, i);
    SwapRemoveAt(s.refs, i);
    hide SwapRemove, Find;
    var t, n := s.(list := SwapRemove(s.list, i), refs := SwapRemove(s.refs, i)), |s.list| - 1;
    var j := Find(s.list, x);
    if j >= 0 && j != i {
      assert t.list[if j == n then i else j] == x;
    }
  }

  lemma {:induction false} JoinRefs(s: Mc, m: Mac, x: Mac)
    requires Shape(s) && Distinct(s.list) && RefsOf(s, m) < 0xFFFF
    ensures Shape(Join(s, m)) && Distinct(Join(s, m).list)
    ensures RefsOf(Join(s, m), x) == RefsOf(s, x) + if x == m && !Overflows(s, m) then 1 else 0
  {
    var t := Join(s, m);
    if Find(s.list, m) < 0 && |s.list| < MCAST_MAX {
      assert t.list[|s.list|] == m;
      assert forall k :: 0 <= k < |s.list| ==> t.list[k] == s.list[k];
    }
  }

  lemma {:induction false} LeaveRefs(s: Mc, m: Mac, x: Mac)
    requires Shape(s) && Distinct(s.list) && (forall i :: 0 <= i < |s.refs| ==> s.refs[i] > 0)
    ensures Shape(Leave(s, m)) && Distinct(Leave(s, m).list)
    ensures RefsOf(Leave(s, m), x) == RefsOf(s, x) - if x == m && m in s.list then 1 else 0
  {
    var i := Find(s.list, m);
    if i >= 0 && s.refs[i] == 1 {
      SwapRemoveRefs(s, i, x);
    }
  }

  /** The one join that breaks the count: a full list with 65535 joins already past it. */
  ghost predicate Wraps(h: History, e: Event) {
    e.JoinGroup? && Overflows(h.mc, MacOf(e.g)) && h.mc.overflow == 0xFFFF
  }

  lemma {:induction false} JoinSplits(h: History, g: Group)
    requires Shape(h.mc) && Distinct(h.mc.list) && Split(h) && g !in h.groups
    ensures var t := Apply(h, JoinGroup(g)); Shape(t.mc) && Distinct(t.mc.list) && Split(t)
  {
    hide MacOf, Find;
    var m, t := MacOf(g), Apply(h, JoinGroup(g));
    AliasBound(h.groups, m);
    assert Joined(h.groups, m) == RefsOf(h.mc, m) + h.share[m];
    forall x: Mac ensures Joined(t.groups, x) == RefsOf(t.mc, x) + t.share[x] {
      JoinCounts(h.groups, g, x);
      JoinRefs(h.mc, m, x);
      hide Join, RefsOf, Joined;
      assert Joined(h.groups, x) == RefsOf(h.mc, x) + h.share[x];
    }
    JoinRefs(h.mc, m, m);
    hide Join, RefsOf, Joined;
  }

  lemma {:induction false} LeaveSplits(h: History, g: Group)
    requires Shape(h.mc) && Distinct(h.mc.list) && Split(h) && g in h.groups
    requires forall i :: 0 <= i < |h.mc.refs| ==> h.mc.refs[i] > 0
    ensures var t := Apply(h, LeaveGroup(g)); Shape(t.mc) && Distinct(t.mc.list) && Split(t)
    ensures MacOf(g) in h.mc.list || MacOf(g) in h.share
  {
    hide MacOf, Find, SwapRemove;
    var m, t := MacOf(g), Apply(h, LeaveGroup(g));
    assert g in Aliases(h.groups, m);
    assert Joined(h.groups, m) == RefsOf(h.mc, m) + h.share[m];
    LeaveRefs(h.mc, m, m);
    forall x: Mac ensures Joined(t.groups, x) == RefsOf(t.mc, x) + t.share[x] {
      LeaveCounts(h.groups, g, x);
      LeaveRefs(h.mc, m, x);
      hide Leave, RefsOf, Joined;
      assert Joined(h.groups, x) == RefsOf(h.mc, x) + h.share[x];
    }
    hide Leave, RefsOf, Joined;
  }

  lemma {:induction false} SwapRemoveShape(s: Mc, i: nat)
    requires Shape(s) && i < |s.list| && forall k :: 0 <= k < |s.refs| ==> s.refs[k] > 0
    ensures var r := SwapRemove(s.refs, i); |r| == |s.list| - 1 && forall k :: 0 <= k < |r| ==> r[k] > 0
  {
  }

  /** A join keeps the whole invariant unless it is the one that wraps the counter, and then never. */
  lemma {:induction false} JoinKeeps(h: History, g: Group)
    requires Inv(h) && g !in h.groups
    ensures Inv(Apply(h, JoinGroup(g))) <==> !Wraps(h, JoinGroup(g))
  {
    hide MacOf, Distinct, Find;
    var m, t := MacOf(g), Apply(h, JoinGroup(g));
    assert |t.share| == |h.share| + if Overflows(h.mc, m) then 1 else 0;
    AliasBound(h.groups, m);
    assert RefsOf(h.mc, m) <= 32 by {
      assert Joined(h.groups, m) == RefsOf(h.mc, m) + h.share[m];
    }
    JoinSplits(h, g);
    hide Macs, Split;
    assert t.mc.list == h.mc.list ==> Macs(t.mc.list) == Macs(h.mc.list);
  }

  lemma {:induction false} LeaveKeeps(h: History, g: Group)
    requires Inv(h) && g in h.groups
    ensures Inv(Apply(h, LeaveGroup(g)))
  {
    hide MacOf, Split, Distinct, Macs;
    LeaveSplits(h, g);
    var i := Find(h.mc.list, MacOf(g));
    if i >= 0 {
      SwapRemoveShape(h.mc, i);
    }
    hide SwapRemove, Find;
  }

  // ---- runs ----

  ghost predicate Run(hs: seq<History>, es: seq<Event>) {
    |hs| == |es| + 1 && forall i :: 0 <= i < |es| ==> Legal(hs[i], es[i]) && hs[i + 1] == Apply(hs[i], es[i])
  }

  /** A fresh interface: nothing joined, nothing pushed. */
  ghost predicate Fresh(h: History) { h == History(Mc([], [], 0, false), {}, multiset{}, {}, false) }

  lemma {:induction false} FreshInv(h: History)
    requires Fresh(h)
    ensures Inv(h)
  {
    forall m: Mac ensures Joined(h.groups, m) == 0 {
      assert Aliases(h.groups, m) == {};
    }
  }

  lemma {:induction false} StepKeeps(h: History, e: Event)
    requires Inv(h) && Legal(h, e)
    ensures Inv(Apply(h, e)) <==> !Wraps(h, e)
  {
    match e
    case JoinGroup(g) => JoinKeeps(h, g);
    case LeaveGroup(g) => LeaveKeeps(h, g);
    case Snapshot =>
      hide Joined, MacOf;
      assert Inv(Apply(h, e)) by {
        assert forall m: Mac :: RefsOf(Apply(h, e).mc, m) == RefsOf(h.mc, m);
      }
  }

  /** Every joined MAC is in the list, or the overflow counter says that something is missing. */
  ghost predicate Covered(h: History) {
    forall m: Mac :: Joined(h.groups, m) > 0 ==> m in h.mc.list || h.mc.overflow > 0
  }

  /** With no overflow the list is exactly the joined MACs. */
  ghost predicate Exact(h: History) {
    h.mc.overflow == 0 ==> forall m: Mac :: m in h.mc.list <==> Joined(h.groups, m) > 0
  }

  lemma {:induction false} InvCovers(h: History)
    requires Inv(h)
    ensures Covered(h) && Exact(h)
  {
    hide MacOf, Joined;
    forall m: Mac
      ensures Joined(h.groups, m) > 0 ==> m in h.mc.list || h.mc.overflow > 0
      ensures h.mc.overflow == 0 ==> (m in h.mc.list <==> Joined(h.groups, m) > 0)
    {
      assert Joined(h.groups, m) == RefsOf(h.mc, m) + h.share[m];
      assert h.share[m] <= |h.share| by {
        assert h.share == h.share[m := 0] + multiset{}[m := h.share[m]];
      }
    }
  }

  /** Over every legal history in which no join wraps the counter, the filter covers what is joined. */
  lemma {:induction false} FilterCovers(hs: seq<History>, es: seq<Event>, i: nat)
    requires Run(hs, es) && Fresh(hs[0]) && i < |hs|
    requires forall k :: 0 <= k < |es| ==> !Wraps(hs[k], es[k])
    ensures Inv(hs[i]) && Covered(hs[i]) && Exact(hs[i])
  {
    hide Apply, Wraps, Legal;
    if i == 0 {
      FreshInv(hs[0]);
    } else {
      FilterCovers(hs, es, i - 1);
      StepKeeps(hs[i - 1], es[i - 1]);
    }
    InvCovers(hs[i]);
  }

  /** Step e changes what the driver should hear: the set of MACs listed, or whether all of them are. */
  ghost predicate Changes(h: History, e: Event)
    requires Legal(h, e)
  {
    var r := Apply(h, e);
    Macs(r.mc.list) != Macs(h.mc.list) || (r.mc.overflow > 0) != (h.mc.overflow > 0)
  }

  lemma {:induction false} GrowsBy(l: seq<Mac>, m: Mac)
    requires m !in l
    ensures Macs(l + [m]) != Macs(l)
  {
    assert (l + [m])[|l|] == m;
    assert m in Macs(l + [m]) && m !in Macs(l);
  }

  lemma {:induction false} ShrinksBy(l: seq<Mac>, i: nat)
    requires Distinct(l) && i < |l|
    ensures Macs(SwapRemove(l, i)) != Macs(l)
  {
    var r := SwapRemove(l, i);
    assert forall k :: 0 <= k < |r| ==> r[k] != l[i];
    assert l[i] in Macs(l) && l[i] !in Macs(r);
  }

  lemma {:induction false} DirtyStep(h: History, e: Event)
    requires Legal(h, e) && Distinct(h.mc.list)
    ensures Apply(h, e).mc.dirty <==> !e.Snapshot? && (h.mc.dirty || Changes(h, e))
  {
    hide MacOf, SwapRemove, Macs;
    if e.JoinGroup? {
      var m := MacOf(e.g);
      if m !in h.mc.list {
        GrowsBy(h.mc.list, m);
      }
    } else if e.LeaveGroup? {
      var i := Find(h.mc.list, MacOf(e.g));
      if i >= 0 {
        ShrinksBy(h.mc.list, i);
      }
    }
  }

  /** A change was made by step j and no snapshot was taken since. */
  ghost predicate Stale(hs: seq<History>, es: seq<Event>, i: nat, j: nat)
    requires Run(hs, es) && i < |hs|
  {
    j < i && Changes(hs[j], es[j]) && forall k :: j <= k < i ==> !es[k].Snapshot?
  }

  /** Exactly when the filter is to be pushed again: a change since the last snapshot, and nothing else. */
  lemma {:induction false} DirtyIff(hs: seq<History>, es: seq<Event>, i: nat)
    requires Run(hs, es) && Fresh(hs[0]) && i < |hs|
    requires forall k :: 0 <= k < |es| ==> !Wraps(hs[k], es[k])
    ensures hs[i].mc.dirty <==> exists j: nat :: Stale(hs, es, i, j)
    decreases i
  {
    hide Apply, Wraps, Changes;
    if i > 0 {
      var n := i - 1;
      DirtyIff(hs, es, n);
      FilterCovers(hs, es, n);
      assert Legal(hs[n], es[n]) && Distinct(hs[n].mc.list);
      hide Legal, Inv, Covered, Exact;
      DirtyStep(hs[n], es[n]);
      if hs[i].mc.dirty {
        if j: nat :| Stale(hs, es, n, j) {
          assert Stale(hs, es, i, j);
        } else {
          assert Stale(hs, es, i, n);
        }
      }
      if j: nat :| Stale(hs, es, i, j) && j < n {
        assert Stale(hs, es, n, j);
      }
    }
  }

  /** 65535 joined groups or fewer never wrap it. */
  lemma {:induction false} FewGroupsNeverWrap(h: History, e: Event)
    requires Inv(h) && Legal(h, e) && |h.groups| < 0xFFFF
    ensures !Wraps(h, e)
  {
    hide MacOf, RefsOf, Distinct, Find;
    if h.mc.overflow == 0xFFFF {
      ShareBound(h.groups, h.share);
    }
  }

  lemma {:induction false} ShareBound(groups: set<Group>, share: multiset<Mac>)
    requires forall m: Mac :: share[m] <= Joined(groups, m)
    ensures |share| <= |groups|
    decreases |share|
  {
    hide MacOf;
    if share != multiset{} {
      var m :| m in share;
      assert Aliases(groups, m) != {};
      var g :| g in Aliases(groups, m);
      forall x: Mac ensures (share - multiset{m})[x] <= Joined(groups - {g}, x) {
        LeaveCounts(groups, g, x);
      }
      ShareBound(groups - {g}, share - multiset{m});
    }
  }

  /** A clean filter with no overflow, pushed as snapshotted, makes the driver hear exactly the joined MACs. */
  lemma {:induction false} DriverHearsJoined(h: History, driver: set<Mac>)
    requires Inv(h) && !h.mc.dirty && !h.snapOver && driver == h.snapMacs
    ensures forall m: Mac :: m in driver <==> Joined(h.groups, m) > 0
  {
    InvCovers(h);
    hide Joined, Split, RefsOf;
    forall m: Mac ensures m in driver <==> Joined(h.groups, m) > 0 {
      assert m in Macs(h.mc.list) <==> m in h.mc.list;
    }
  }

  // ---- where the counter wraps ----

  function Nth(i: nat): (g: Group)
    requires i < 0x80_0000
    ensures Low23(g) == i
  {
    Unique23(0xE000_0000 + i, 448, i);
    0xE000_0000 + i
  }

  /** The history that joins the first n groups of 224.0.0.0/9. */
  ghost function JoinFirst(n: nat): (h: History)
    requires n <= 0x80_0000
    ensures Shape(h.mc) && forall g :: g in h.groups ==> Low23(g) < n
  {
    if n == 0 then History(Mc([], [], 0, false), {}, multiset{}, {}, false)
    else Apply(JoinFirst(n - 1), JoinGroup(Nth(n - 1)))
  }

  /** The filter once the first n groups have joined. */
  ghost predicate Filled(h: History, n: nat)
    requires n <= 0x1_0020
  {
    && |h.mc.list| == (if n < MCAST_MAX then n else MCAST_MAX)
    && (forall k :: 0 <= k < |h.mc.list| ==> h.mc.list[k] == MacOf(Nth(k)))
    && h.mc.overflow == (if n <= MCAST_MAX || n == 0x1_0020 then 0 else n - MCAST_MAX)
    && (forall k :: 0 <= k < n ==> Nth(k) in h.groups)
  }

  lemma {:induction false} NthUnlisted(h: History, n: nat, i: nat)
    requires n <= 0x1_0020 && Filled(h, n) && |h.mc.list| <= i < 0x80_0000
    ensures MacOf(Nth(i)) !in h.mc.list
  {
    hide MacOf, Low23;
    forall k | 0 <= k < |h.mc.list| ensures h.mc.list[k] != MacOf(Nth(i)) {
      AliasIff(Nth(k), Nth(i));
    }
  }

  lemma {:induction false} FilledStep(p: History, n: nat)
    requires 0 < n <= 0x1_0020 && Filled(p, n - 1) && Legal(p, JoinGroup(Nth(n - 1)))
    ensures Filled(Apply(p, JoinGroup(Nth(n - 1))), n)
  {
    NthUnlisted(p, n - 1, n - 1);
    hide MacOf, Nth, Find, Low23;
    var g := Nth(n - 1);
    var h := Apply(p, JoinGroup(g));
    assert h.groups == p.groups + {g};
    assert h.mc.list == if |p.mc.list| < MCAST_MAX then p.mc.list + [MacOf(g)] else p.mc.list;
  }

  lemma {:induction false} JoinFirstIs(n: nat)
    requires n <= 0x1_0020
    ensures Filled(JoinFirst(n), n)
  {
    hide MacOf, Low23, Apply, Nth;
    if n > 0 {
      JoinFirstIs(n - 1);
      FilledStep(JoinFirst(n - 1), n);
      hide Filled;
    }
  }

  lemma {:induction false} FilledUncovered(h: History, n: nat)
    requires n == 0x1_0020 && Filled(h, n)
    ensures !Covered(h)
  {
    var g := Nth(40);
    NthUnlisted(h, n, 40);
    assert g in h.groups;
    hide MacOf, Nth, Filled, Low23;
    assert g in Aliases(h.groups, MacOf(g));
    assert Joined(h.groups, MacOf(g)) > 0;
  }

  /** After 65568 joins of distinct MACs the counter reads zero, yet most of them are in no list. */
  lemma {:induction false} OverflowWraps(n: nat)
    requires n == 0x1_0020
    ensures JoinFirst(n).mc.overflow == 0 && !Covered(JoinFirst(n))
  {
    hide JoinFirst, Covered;
    JoinFirstIs(n);
    FilledUncovered(JoinFirst(n), n);
  }

  // ---- the object ----

  /** The interface's filter tables (the IGMP part of struct NetIfBase). */
  class RxFilter {
    const list: array<Mac>
    const refs: array<u16>
    var count: nat
    var overflow: u16
    var dirty: bool

    ghost predicate Valid()
      reads this, list, refs
    {
      list.Length == MCAST_MAX && refs.Length == MCAST_MAX && count <= MCAST_MAX
    }

    ghost function View(): (s: Mc)
      requires Valid()
      reads this, list, refs
      ensures Shape(s)
    {
      Mc(list[..count], refs[..count], overflow, dirty)
    }

    constructor ()
      ensures Valid() && fresh(list) && fresh(refs) && View() == Mc([], [], 0, false)
    {
      list := new Mac[MCAST_MAX];
      refs := new u16[MCAST_MAX];
      count, overflow, dirty := 0, 0, false;
    }

    static method MacEq(a: Mac, b: Mac) returns (eq: bool)
      ensures eq == (a == b)
    {
      for i := 0 to 6
        invariant forall k :: 0 <= k < i ==> a[k] == b[k]
      {
        if a[i] != b[i] {
          return false;
        }
      }
      assert a == b;
      return true;
    }

    method Lookup(m: Mac) returns (idx: int)
      requires Valid()
      ensures idx == Find(View().list, m)
    {
      for i := 0 to count
        invariant m !in list[..i]
      {
        var eq := MacEq(list[i], m);
        if eq {
          assert list[..count][i] == m;
          return i;
        }
      }
      return -1;
    }

    method AddMac(mac: Mac, idx: int) returns (changed: bool)
      requires Valid() && idx == Find(View().list, mac)
      modifies `count, `overflow, list, refs
      ensures Valid() && Mark(View(), changed, old(overflow > 0)) == Join(old(View()), mac)
    {
      hide Find;
      changed := false;
      if idx >= 0 {
        refs[idx] := Bump(refs[idx]);
      } else if count < MCAST_MAX {
        list[count], refs[count] := mac, 1;
        count := count + 1;
        changed := true;
      } else {
        overflow := Bump(overflow);
      }
    }

    method DelMac(mac: Mac, idx: int) returns (changed: bool)
      requires Valid() && idx == Find(View().list, mac)
      modifies `count, `overflow, list, refs
      ensures Valid() && Mark(View(), changed, old(overflow > 0)) == Leave(old(View()), mac)
    {
      hide Find;
      changed := false;
      if idx >= 0 {
        refs[idx] := Drop(refs[idx]);
        if refs[idx] == 0 {
          count := count - 1;
          list[idx], refs[idx] := list[count], refs[count];
          changed := true;
        }
      } else if overflow > 0 {
        overflow := overflow - 1;
      }
    }

    /** netifbase_igmp_mac_filter. */
    method MacFilter(g: Group, add: bool)
      requires Valid()
      modifies this, list, refs
      ensures Valid()
      ensures View() == if add then Join(old(View()), MacOf(g)) else Leave(old(View()), MacOf(g))
    {
      hide MacOf;
      var mac := MacOf(g);
      var idx := Lookup(mac);
      hide Find;
      var had := overflow > 0;
      var changed := false;
      if add {
        changed := AddMac(mac, idx);
      } else {
        changed := DelMac(mac, idx);
      }
      if changed || (overflow > 0) != had {
        dirty := true;
      }
    }

    /** netifbase_mcast_snapshot: copy the list out and call the driver up to date with it. */
    method TakeSnapshot(out: array<Mac>) returns (n: nat, over: u16)
      requires Valid() && out.Length == MCAST_MAX && out != list
      modifies `dirty, out
      ensures Valid() && View() == old(View()).(dirty := false)
      ensures n == count && over == overflow && out[..n] == View().list
    {
      n, over := count, overflow;
      for i := 0 to n
        invariant out[..i] == list[..i] && list[..] == old(list[..])
      {
        out[i] := list[i];
      }
      dirty := false;
    }
  }

  /** What a device may answer to a multicast command. */
  datatype Reply = Done | Failed | NoCommand

  /** The SANA-II push: deltas against the shadow of what was last programmed. */
  class SanaMcast {
    var shadow: seq<Mac>
    var unsupported: bool
    ghost var driver: set<Mac>
    ghost var clean: bool
    ghost var dropped: set<Mac> // what was ever taken out

    /** The shadow is accurate. */
    ghost predicate Valid()
      reads this
    {
      driver == Macs(shadow) && clean
    }

    static method MacIn(list: seq<Mac>, m: Mac) returns (found: bool)
      ensures found == (m in list)
    {
      for i := 0 to |list|
        invariant m !in list[..i]
      {
        var eq := RxFilter.MacEq(list[i], m);
        if eq {
          return true;
        }
      }
      return false;
    }

    /** One S2_ADD/DELMULTICASTADDRESS; the device may refuse. */
    method Command(add: bool, m: Mac) returns (r: Reply)
      modifies `driver, `clean, `dropped
      ensures dropped == if add then old(dropped) else old(dropped) + {m}
      ensures r == Done ==> driver == (if add then old(driver) + {m} else old(driver) - {m}) && clean == old(clean)
      ensures r != Done ==> !clean
    {
      r := *;
      dropped := if add then dropped else dropped + {m};
      if r == Done {
        driver := if add then driver + {m} else driver - {m};
      } else {
        clean := false;
      }
    }

    /**
     sb_sana_mcast_sync on a snapshot. When every command succeeds the driver
     holds exactly the snapshot. In any case only addresses that left the snapshot
     are taken out: none it keeps is lost, not even for a moment.
     */
    method Sync(snap: seq<Mac>)
      requires Valid() && !unsupported
      modifies this
      ensures clean ==> Valid() && shadow == snap && driver == Macs(snap) && !unsupported
      ensures !unsupported ==> shadow == snap
      ensures unsupported ==> shadow == old(shadow) && !clean
      ensures dropped <= old(dropped) + (Macs(old(shadow)) - Macs(snap))
      ensures clean ==> dropped == old(dropped) + (Macs(old(shadow)) - Macs(snap))
    {
      ghost var kept := Macs(shadow) * Macs(snap);
      for i := 0 to |shadow|
        invariant shadow == old(shadow) && !unsupported
        invariant clean ==> kept <= driver <= Macs(shadow)
        invariant old(dropped) <= dropped <= old(dropped) + (Macs(shadow) - Macs(snap))
        invariant forall m :: m in shadow[..i] && m !in snap ==> m in dropped
        invariant clean ==> forall m :: m in driver ==> m in snap || m in shadow[i..]
      {
        var found := MacIn(snap, shadow[i]);
        if !found {
          var r := Command(false, shadow[i]);
          if r == NoCommand {
            unsupported := true;
            return;
          }
        }
      }
      assert shadow[..|shadow|] == shadow;
      assert dropped == old(dropped) + (Macs(shadow) - Macs(snap));
      assert clean ==> driver == kept;
      for i := 0 to |snap|
        invariant shadow == old(shadow) && !unsupported
        invariant clean ==> driver == kept + Macs(snap[..i])
        invariant dropped == old(dropped) + (Macs(shadow) - Macs(snap))
      {
        var found := MacIn(shadow, snap[i]);
        if !found {
          var r := Command(true, snap[i]);
          if r == NoCommand {
            unsupported := true;
            return;
          }
        }
        assert Macs(snap[..i + 1]) == Macs(snap[..i]) + {snap[i]};
      }
      assert snap[..|snap|] == snap;
      shadow := snap;
    }
  }
}
