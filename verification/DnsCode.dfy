/**
 The resolver's encoders and decoders as loops over buffers
 (src/bsdsocket/sb_rdns.c, src/mdns/mdns.c), against the model of Dns.
 */
module DnsCode {
  import opened Basics
  import opened Words
  import opened Dns

  /** One label as written. */
  function Lab(l: Bytes): Bytes
    requires |l| < 256
  {
    [|l|] + l
  }

  lemma {:induction false} WireSnoc(ls: seq<Bytes>, l: Bytes)
    requires LabelsOk(ls) && LabelOk(l)
    ensures Wire(ls + [l]) == Wire(ls) + Lab(l)
  {
    if ls == [] {
      assert ([] + [l])[1..] == [];
    } else {
      assert (ls + [l])[1..] == ls[1..] + [l] && (ls + [l])[0] == ls[0];
      WireSnoc(ls[1..], l);
    }
  }

  // ---- encoders ----

  /** Decimal digits, most significant first. */
  function Dec(n: nat): (d: Bytes)
    ensures |d| > 0 && (n < 10 ==> |d| == 1) && (n < 100 ==> |d| <= 2) && (n < 1000 ==> |d| <= 3)
  {
    if n < 10 then [48 + n] else Dec(n / 10) + [48 + n % 10]
  }

  function Value(d: Bytes): int { if d == [] then 0 else Value(d[..|d| - 1]) * 10 + (d[|d| - 1] as int - 48) }

  /** The digits read back as the number, and start with a zero only for zero. */
  lemma {:induction false} DecReads(n: nat)
    ensures Value(Dec(n)) == n && (n > 0 ==> Dec(n)[0] != 48)
  {
    if n >= 10 {
      DecReads(n / 10);
      assert Dec(n)[..|Dec(n)| - 1] == Dec(n / 10);
    } else {
      assert Dec(n)[..0] == [];
    }
  }

  function Reversed(d: Bytes): Bytes { if d == [] then [] else [d[|d| - 1]] + Reversed(d[..|d| - 1]) }

  /** The digit loop: least significant first. */
  method Digits(octet: byte) returns (tmp: Bytes)
    ensures Reversed(tmp) == Dec(octet) && |tmp| == |Dec(octet)|
  {
    var o: int := octet;
    tmp := [48 + o % 10];
    o := o / 10;
    while o != 0
      invariant 0 <= o && |tmp| > 0
      invariant Dec(octet) == (if o == 0 then [] else Dec(o)) + Reversed(tmp)
      invariant |Dec(octet)| == (if o == 0 then 0 else |Dec(o)|) + |tmp|
    {
      ghost var was := tmp;
      tmp := tmp + [48 + o % 10];
      assert tmp[..|tmp| - 1] == was;
      o := o / 10;
    }
  }

  /** sb_dns_put_octet. */
  method PutOctet(buf: array<byte>, pos: nat, max: int, octet: byte) returns (r: int)
    requires max <= buf.Length
    modifies buf
    ensures r == if pos + 1 + |Dec(octet)| > max then -1 else pos + 1 + |Dec(octet)|
    ensures r >= 0 ==> buf[..r] == old(buf[..pos]) + Lab(Dec(octet))
  {
    var tmp := Digits(octet);
    var n := |tmp|;
    if pos + 1 + n > max {
      return -1;
    }
    r := pos;
    buf[r] := n;
    r := r + 1;
    assert tmp[..n] == tmp && buf[..r] == old(buf[..pos]) + [n];
    while n > 0
      invariant 0 <= n <= |tmp| && r == pos + 1 + |tmp| - n
      invariant buf[..r] + Reversed(tmp[..n]) == old(buf[..pos]) + Lab(Dec(octet))
    {
      n := n - 1;
      assert tmp[..n + 1][..n] == tmp[..n];
      buf[r] := tmp[n];
      r := r + 1;
      assert buf[..r] == buf[..r - 1] + [tmp[n]];
    }
  }

  /** sb_dns_put_label. */
  method PutLabel(buf: array<byte>, pos: nat, max: int, lab: Bytes) returns (r: int)
    requires max <= buf.Length && |lab| < 64
    modifies buf
    ensures r == if pos + 1 + |lab| > max then -1 else pos + 1 + |lab|
    ensures r >= 0 ==> buf[..r] == old(buf[..pos]) + Lab(lab)
  {
    var n := |lab|;
    if pos + 1 + n > max {
      return -1;
    }
    r := pos;
    buf[r] := n;
    r := r + 1;
    for i := 0 to n
      invariant r == pos + 1 + i && buf[..r] == old(buf[..pos]) + [n] + lab[..i]
    {
      buf[r] := lab[i];
      r := r + 1;
      assert buf[..r] == buf[..r - 1] + [lab[i]];
    }
  }

  const IN_ADDR: Bytes := [105, 110, 45, 97, 100, 100, 114]
  const ARPA: Bytes := [97, 114, 112, 97]

  /** Octet k of an address, least significant first. */
  function Octet(addr: u32, k: nat): byte
    requires k < 4
  {
    var n: int := addr;
    if k == 0 then n % 256 else if k == 1 then n / 0x100 % 256 else if k == 2 then n / 0x1_0000 % 256 else n / 0x100_0000
  }

  /** d.c.b.a.in-addr.arpa (section 3.5 of RFC 1035). */
  function PtrLabels(addr: u32): (ls: seq<Bytes>)
    ensures LabelsOk(ls)
  {
    [Dec(Octet(addr, 0)), Dec(Octet(addr, 1)), Dec(Octet(addr, 2)), Dec(Octet(addr, 3)), IN_ADDR, ARPA]
  }

  /** The query header: recursion desired, one question. */
  function Header(id: u16): Bytes {
    var n: int := id;
    [n / 256, n % 256, 1, 0, 0, 1, 0, 0, 0, 0, 0, 0]
  }

  /** A PTR question's tail: root label, type 12, class 1. */
  const TAIL: Bytes := [0, 0, 12, 0, 1]

  function Query(addr: u32, id: u16): Bytes { Header(id) + Wire(PtrLabels(addr)) + TAIL }

  /** The buffer holds head and the labels ls up to pos, or they did not fit. */
  ghost predicate Written(buf: Bytes, pos: int, max: int, head: Bytes, ls: seq<Bytes>) {
    && LabelsOk(ls)
    && pos == (if |head| + |Wire(ls)| > max then -1 else |head| + |Wire(ls)|)
    && (pos >= 0 ==> pos <= |buf| && buf[..pos] == head + Wire(ls))
  }

  lemma {:induction false} WrittenNext(a: Bytes, b: Bytes, pos: nat, r: int, max: int, head: Bytes, ls: seq<Bytes>, l: Bytes)
    requires Written(a, pos, max, head, ls) && LabelOk(l) && r == if pos + 1 + |l| > max then -1 else pos + 1 + |l|
    requires r >= 0 ==> r <= |b| && b[..r] == a[..pos] + Lab(l)
    ensures Written(b, r, max, head, ls + [l])
  {
    WireSnoc(ls, l);
    hide Wire;
    assert head + Wire(ls) + Lab(l) == head + (Wire(ls) + Lab(l));
  }

  lemma {:induction false} WrittenNot(a: Bytes, max: int, head: Bytes, ls: seq<Bytes>, l: Bytes)
    requires Written(a, -1, max, head, ls) && LabelOk(l)
    ensures Written(a, -1, max, head, ls + [l])
  {
    WireSnoc(ls, l);
  }

  method NextOctet(buf: array<byte>, pos: int, max: int, octet: byte, ghost head: Bytes, ghost ls: seq<Bytes>) returns (r: int)
    requires max <= buf.Length && Written(buf[..], pos, max, head, ls)
    modifies buf
    ensures Written(buf[..], r, max, head, ls + [Dec(octet)])
  {
    hide Dec, Wire;
    ghost var was := buf[..];
    r := pos;
    if pos >= 0 {
      r := PutOctet(buf, pos, max, octet);
      WrittenNext(was, buf[..], pos, r, max, head, ls, Dec(octet));
    } else {
      WrittenNot(was, max, head, ls, Dec(octet));
    }
  }

  method NextLabel(buf: array<byte>, pos: int, max: int, lab: Bytes, ghost head: Bytes, ghost ls: seq<Bytes>) returns (r: int)
    requires max <= buf.Length && Written(buf[..], pos, max, head, ls) && LabelOk(lab)
    modifies buf
    ensures Written(buf[..], r, max, head, ls + [lab])
  {
    hide Wire;
    ghost var was := buf[..];
    r := pos;
    if pos >= 0 {
      r := PutLabel(buf, pos, max, lab);
      WrittenNext(was, buf[..], pos, r, max, head, ls, lab);
    } else {
      WrittenNot(was, max, head, ls, lab);
    }
  }

  /** The labels, each put only while the last one fitted. */
  method PutPtr(buf: array<byte>, max: int, addr: u32, ghost head: Bytes) returns (pos: int)
    requires 12 <= max <= buf.Length && buf[..12] == head
    modifies buf
    ensures Written(buf[..], pos, max, head, PtrLabels(addr))
  {
    hide Dec, Wire, Octet, Written;
    pos := 12;
    assert Written(buf[..], 12, max, head, []) by {
      WrittenNone(buf[..], max, head);
    }
    ghost var d := seq(4, k requires 0 <= k < 4 => Dec(Octet(addr, k)));
    pos := NextOctet(buf, pos, max, Octet(addr, 0), head, []);
    pos := NextOctet(buf, pos, max, Octet(addr, 1), head, [] + [d[0]]);
    pos := NextOctet(buf, pos, max, Octet(addr, 2), head, [] + [d[0]] + [d[1]]);
    pos := NextOctet(buf, pos, max, Octet(addr, 3), head, [] + [d[0]] + [d[1]] + [d[2]]);
    pos := NextLabel(buf, pos, max, IN_ADDR, head, [] + [d[0]] + [d[1]] + [d[2]] + [d[3]]);
    pos := NextLabel(buf, pos, max, ARPA, head, [] + [d[0]] + [d[1]] + [d[2]] + [d[3]] + [IN_ADDR]);
    assert [] + [d[0]] + [d[1]] + [d[2]] + [d[3]] + [IN_ADDR] + [ARPA] == PtrLabels(addr);
  }

  lemma {:induction false} WrittenNone(buf: Bytes, max: int, head: Bytes)
    requires |head| <= max && |head| <= |buf| && buf[..|head|] == head
    ensures Written(buf, |head|, max, head, [])
  {
    assert head + [] == head;
  }

  /** sb_rdns_build: the PTR query for an address, if it fits. */
  method Build(buf: array<byte>, max: int, addr: u32, id: u16) returns (r: int)
    requires max <= buf.Length
    modifies buf
    ensures r == if |Query(addr, id)| > max then -1 else |Query(addr, id)|
    ensures r >= 0 ==> buf[..r] == Query(addr, id)
  {
    hide Dec, Wire;
    if max < 12 {
      return -1;
    }
    var n: int := id;
    buf[0], buf[1], buf[2], buf[3], buf[4], buf[5] := n / 256, n % 256, 1, 0, 0, 1;
    buf[6], buf[7], buf[8], buf[9], buf[10], buf[11] := 0, 0, 0, 0, 0, 0;
    assert buf[..12] == Header(id);
    hide Header;
    var pos := PutPtr(buf, max, addr, Header(id));
    hide PtrLabels;
    if pos < 0 || pos + 5 > max {
      return -1;
    }
    buf[pos], buf[pos + 1], buf[pos + 2], buf[pos + 3], buf[pos + 4] := 0, 0, 12, 0, 1;
    r := pos + 5;
    assert buf[..r] == buf[..pos] + TAIL;
  }

  /**
   dns_encode of mdns.c: succeeds exactly when every label is 1 to 63 octets long
   and the name with its root label fits below max, and then writes that name.
   */
  method Encode(buf: array<byte>, max: int, name: Bytes) returns (out: int)
    requires max <= buf.Length
    modifies buf
    ensures out >= 0 <==> LabelsOk(Split(name)) && |Wire(Split(name))| + 1 < max
    ensures out >= 0 ==> out == |Wire(Split(name))| + 1 && buf[..out] == Wire(Split(name)) + [0]
  {
    hide DotAt, Split;
    out := 0;
    var p := 0;
    ghost var ls: seq<Bytes> := [];
    assert name[0..] == name && [] + Split(name) == Split(name);
    while p < |name|
      invariant 0 <= p <= |name| && 0 <= out && LabelsOk(ls) && (out < max || p == 0)
      invariant out == |Wire(ls)| && out <= buf.Length && buf[..out] == Wire(ls)
      invariant ls + Split(name[p..]) == Split(name)
    {
      var n := LabelLength(name, p);
      ghost var l := name[p..p + n];
      SplitAt(name, p, n);
      ghost var next := if p + n < |name| then p + n + 1 else p + n;
      assert ls + ([l] + Split(name[next..])) == (ls + [l]) + Split(name[next..]);
      if n == 0 || n > 63 || out + n + 1 >= max {
        EncodeFails(ls, l, Split(name[next..]), max);
        return -1;
      }
      WireSnoc(ls, l);
      out := PutRun(buf, out, name, p, n);
      ls := ls + [l];
      p := if p + n < |name| then p + n + 1 else p + n;
    }
    assert name[p..] == [] && Split([]) == [] by {
      SplitNil();
    }
    assert ls + [] == ls;
    if out + 1 >= max {
      return -1;
    }
    buf[out] := 0;
    out := out + 1;
    assert buf[..out] == buf[..out - 1] + [0];
  }

  lemma {:induction false} SplitNil()
    ensures Split([]) == []
  {
  }

  method LabelLength(name: Bytes, p: nat) returns (n: nat)
    requires p <= |name|
    ensures n == DotAt(name[p..])
  {
    n := 0;
    while p + n < |name| && name[p + n] != DOT
      invariant p + n <= |name| && forall k :: 0 <= k < n ==> name[p..][k] != DOT
    {
      n := n + 1;
    }
    var t := DotAt(name[p..]);
    assert n < |name| - p ==> name[p..][n] == DOT;
    assert t < |name| - p ==> name[p..][t] == DOT;
  }

  lemma {:induction false} SplitAt(name: Bytes, p: nat, n: nat)
    requires p < |name| && n == DotAt(name[p..])
    ensures var next := if p + n < |name| then p + n + 1 else p + n;
      Split(name[p..]) == [name[p..p + n]] + Split(name[next..])
  {
    var t := name[p..];
    SplitStep(t, n);
    assert t[..n] == name[p..p + n];
    if p + n < |name| {
      assert t[n + 1..] == name[p + n + 1..];
    } else {
      assert name[p + n..] == [];
      assert [t] + [] == [t];
    }
  }

  /** One bad or oversized label fails the whole name. */
  lemma {:induction false} EncodeFails(ls: seq<Bytes>, l: Bytes, rest: seq<Bytes>, max: int)
    requires LabelsOk(ls) && (!LabelOk(l) || |Wire(ls)| + |l| + 1 >= max)
    ensures var all := ls + [l] + rest; !(LabelsOk(all) && |Wire(all)| + 1 < max)
  {
    var all := ls + [l] + rest;
    assert all[|ls|] == l;
    if LabelsOk(all) {
      assert forall i :: 0 <= i < |rest| ==> all[|ls| + 1 + i] == rest[i];
      WireSnoc(ls, l);
      WireGrows(ls + [l], rest);
    }
  }

  lemma {:induction false} WireGrows(a: seq<Bytes>, b: seq<Bytes>)
    requires LabelsOk(a) && LabelsOk(b)
    ensures LabelsOk(a + b) && |Wire(a + b)| == |Wire(a)| + |Wire(b)|
  {
    if a == [] {
      assert a + b == b;
    } else {
      assert (a + b)[1..] == a[1..] + b;
      WireGrows(a[1..], b);
    }
  }

  /** A length octet and n bytes of the name. */
  method PutRun(buf: array<byte>, pos: nat, name: Bytes, p: nat, n: nat) returns (r: nat)
    requires pos + n + 1 <= buf.Length && p + n <= |name| && n < 64
    modifies buf
    ensures r == pos + n + 1 && buf[..r] == old(buf[..pos]) + Lab(name[p..p + n])
  {
    r := pos;
    buf[r] := n;
    r := r + 1;
    for i := 0 to n
      invariant r == pos + 1 + i && buf[..r] == old(buf[..pos]) + [n] + name[p..p + i]
    {
      buf[r] := name[p + i];
      r := r + 1;
      assert buf[..r] == buf[..r - 1] + [name[p + i]];
      assert name[p..p + i + 1] == name[p..p + i] + [name[p + i]];
    }
  }
}
