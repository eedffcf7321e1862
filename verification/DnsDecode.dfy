/**
 The decoders over arbitrary bytes: sb_dns_skip_name, sb_dns_name and
 sb_rdns_parse (src/bsdsocket/sb_rdns.c), dns_name (src/mdns/mdns.c). Every
 index below is proved in range and every loop to end.
 */
module DnsDecode {
  import opened Basics
  import opened Words
  import opened Dns
  import opened DnsCode

  predicate NonEmpty(ls: seq<Bytes>) { forall i :: 0 <= i < |ls| ==> ls[i] != [] }

  /** What fits of a text in a buffer of max octets with its NUL. */
  function Clip(t: Bytes, max: int): Bytes { if max <= 0 then [] else if |t| < max then t else t[..max - 1] }

  lemma {:induction false} TextSnoc(ls: seq<Bytes>, l: Bytes)
    ensures Text(ls + [l]) == if ls == [] then l else Text(ls) + [DOT] + l
  {
    if |ls| > 1 {
      assert (ls + [l])[1..] == ls[1..] + [l];
      TextSnoc(ls[1..], l);
    } else if |ls| == 1 {
      assert (ls + [l])[1..] == [l];
    } else {
      assert ls + [l] == [l];
    }
  }

  lemma {:induction false} TextNonEmpty(ls: seq<Bytes>)
    requires NonEmpty(ls)
    ensures Text(ls) == [] <==> ls == []
  {
    if ls != [] {
      assert ls[0] != [];
    }
  }

  /** The buffer holds what fits of t. */
  ghost predicate Shows(out: Bytes, o: nat, max: int, t: Bytes) { o <= |out| && out[..o] == Clip(t, max) && max <= |out| }

  /** Append one octet while there is room for it and a NUL. */
  method PutChar(out: array<byte>, o: nat, max: int, c: byte, ghost t: Bytes) returns (r: nat)
    requires Shows(out[..], o, max, t)
    modifies out
    ensures Shows(out[..], r, max, t + [c])
  {
    r := o;
    if o < max - 1 {
      out[o] := c;
      r := o + 1;
      assert out[..][..r] == old(out[..])[..o] + [c];
    } else {
      assert max > 0 ==> (t + [c])[..max - 1] == t[..max - 1];
    }
  }

  /** Append a label, after a dot when it is not the first. */
  method PutText(out: array<byte>, o: nat, max: int, l: Bytes, ghost ls: seq<Bytes>) returns (r: nat)
    requires Shows(out[..], o, max, Text(ls)) && NonEmpty(ls) && l != []
    modifies out
    ensures Shows(out[..], r, max, Text(ls + [l])) && NonEmpty(ls + [l])
  {
    hide Text;
    TextSnoc(ls, l);
    TextNonEmpty(ls);
    ghost var t := Text(ls);
    r := o;
    if o != 0 && o < max - 1 {
      r := PutChar(out, r, max, DOT, t);
    } else if ls != [] {
      assert max > 0 ==> Clip(t + [DOT], max) == Clip(t, max);
    }
    ghost var base := if ls == [] then t else t + [DOT];
    assert base + l[..0] == base;
    hide Clip;
    for i := 0 to |l|
      invariant Shows(out[..], r, max, base + l[..i])
    {
      r := PutChar(out, r, max, l[i], base + l[..i]);
      assert base + l[..i] + [l[i]] == base + l[..i + 1];
    }
    assert l[..|l|] == l;
  }

  /** sb_dns_skip_name. */
  method SkipName(pkt: Bytes, pos: nat) returns (r: int)
    ensures r == Skip(pkt, pos)
  {
    r := pos;
    while r < |pkt|
      invariant 0 <= r && Skip(pkt, r) == Skip(pkt, pos)
      decreases |pkt| - r
    {
      var b: int := pkt[r];
      if b >= 0xC0 {
        return if r + 2 <= |pkt| then r + 2 else -1;
      }
      if b == 0 {
        return r + 1;
      }
      r := r + 1 + b;
    }
    return -1;
  }

  lemma {:induction false} AppendPrepend(ls: seq<Bytes>, l: Bytes, r: Option<seq<Bytes>>)
    ensures Append(ls, Prepend(l, r)) == Append(ls + [l], r)
  {
    if r.Some? {
      assert ls + ([l] + r.value) == (ls + [l]) + r.value;
    }
  }

  /** What a finished decode leaves in the buffer: the text that fits, and a NUL. */
  ghost predicate Result(out: Bytes, max: int, ls: seq<Bytes>) {
    var t := Clip(Text(ls), max); |t| < max <= |out| && out[..|t|] == t && out[|t|] == 0
  }

  /**
   sb_dns_name: fails on a malformed name and on an empty one; otherwise the
   buffer shows the name, cut to fit.
   */
  method SbName(pkt: Bytes, start: nat, out: array<byte>, max: int) returns (r: int)
    requires max <= out.Length
    modifies out
    ensures r == 0 || r == -1
    ensures r == 0 <==> max > 1 && Walk(pkt, start, 0).Some? && Walk(pkt, start, 0).value != []
    ensures r == 0 ==> Result(out[..], max, Walk(pkt, start, 0).value)
  {
    hide Text;
    var pos: nat, o: nat, guard := start, 0, 0;
    ghost var ls: seq<Bytes> := [];
    TextNonEmpty([]);
    AppendStep([], Walk(pkt, start, 0));
    while pos < |pkt|
      invariant 0 <= guard <= 128 && NonEmpty(ls) && Shows(out[..], o, max, Text(ls))
      invariant Walk(pkt, start, 0) == Append(ls, Walk(pkt, pos, guard))
      decreases 128 - guard
    {
      var b: int := pkt[pos];
      if b >= 0xC0 {
        if pos + 1 >= |pkt| {
          return -1;
        }
        pos := Target(pkt, pos);
        guard := guard + 1;
        if guard > 128 {
          return -1;
        }
        continue;
      }
      if b == 0 {
        break;
      }
      pos := pos + 1;
      if b > 63 || pos + b > |pkt| {
        return -1;
      }
      ghost var l := pkt[pos..pos + b];
      o := PutText(out, o, max, pkt[pos..pos + b], ls);
      pos := pos + b;
      guard := guard + 1;
      if guard > 128 {
        return -1;
      }
      AppendPrepend(ls, l, Walk(pkt, pos, guard));
      ls := ls + [l];
    }
    assert ls + [] == ls;
    TextNonEmpty(ls);
    if max <= 0 {
      return -1;
    }
    out[if o < max then o else max - 1] := 0;
    r := if o > 0 then 0 else -1;
  }

  /**
   dns_name of mdns.c: fails exactly on what its walk finds malformed, and
   otherwise returns where the skipper says the name ends.
   */
  method MdnsName(pkt: Bytes, start: nat, dst: array<byte>, max: int) returns (r: int)
    requires 1 <= max <= dst.Length
    modifies dst
    ensures r == if Hop(pkt, start, 0).None? then -1 else Skip(pkt, start)
    ensures Hop(pkt, start, 0).Some? ==> Result(dst[..], max, Hop(pkt, start, 0).value)
  {
    hide Text;
    var off: nat, o: nat, hops := start, 0, 0;
    r := -1;
    ghost var ls: seq<Bytes> := [];
    TextNonEmpty([]);
    AppendStep([], Hop(pkt, start, 0));
    while off < |pkt|
      invariant 0 <= hops <= 16 && NonEmpty(ls) && Shows(dst[..], o, max, Text(ls))
      invariant Hop(pkt, start, 0) == Append(ls, Hop(pkt, off, hops))
      invariant Skip(pkt, start) == if r < 0 then Skip(pkt, off) else r
      decreases 16 - hops, |pkt| - off
    {
      var n: int := pkt[off];
      if n >= 0xC0 {
        if off + 1 >= |pkt| || hops == 16 {
          return -1;
        }
        hops := hops + 1;
        if r < 0 {
          r := off + 2;
        }
        off := Target(pkt, off);
        continue;
      }
      if n == 0 {
        if r < 0 {
          r := off + 1;
        }
        break;
      }
      if off + 1 + n > |pkt| {
        return -1;
      }
      ghost var l := pkt[off + 1..off + 1 + n];
      o := PutText(dst, o, max, pkt[off + 1..off + 1 + n], ls);
      off := off + 1 + n;
      AppendPrepend(ls, l, Hop(pkt, off, hops));
      ls := ls + [l];
    }
    assert ls + [] == ls;
    dst[o] := 0;
  }

  // ---- the reply parser ----

  function Word16(pkt: Bytes, i: nat): nat
    requires i + 1 < |pkt|
  {
    var hi: int, lo: int := pkt[i], pkt[i + 1];
    hi * 0x100 + lo
  }

  /** A word reads as n exactly if it was written as n, most significant byte first. */
  lemma {:induction false} WordReads(pkt: Bytes, i: nat, n: u16)
    requires i + 1 < |pkt|
    ensures Word16(pkt, i) == n <==> pkt[i..i + 2] == [n / 256, n % 256]
  {
    assert pkt[i..i + 2] == [pkt[i], pkt[i + 1]];
  }

  /** Past n questions, or -1. */
  function SkipQuestions(pkt: Bytes, pos: nat, n: nat): (r: int)
    ensures r == -1 || r >= 0
    decreases n
  {
    if n == 0 then pos
    else var p := Skip(pkt, pos); if p < 0 || p + 4 > |pkt| then -1 else SkipQuestions(pkt, p + 4, n - 1)
  }

  /** The data of the first PTR record among n answers, or -1. */
  function FindPtr(pkt: Bytes, pos: nat, n: nat): (r: int)
    ensures r == -1 || 0 <= r <= |pkt|
    decreases n
  {
    if n == 0 then -1
    else
      var p := Skip(pkt, pos);
      if p < 0 || p + 10 > |pkt| || p + 10 + Word16(pkt, p + 8) > |pkt| then -1
      else if Word16(pkt, p) == 12 then p + 10
      else FindPtr(pkt, p + 10 + Word16(pkt, p + 8), n - 1)
  }

  /** A response to our query, without error, with an answer. */
  predicate IsReply(pkt: Bytes, id: u16) {
    |pkt| >= 12 && Word16(pkt, 0) == id && pkt[2] >= 0x80 && pkt[3] % 16 == 0 && Word16(pkt, 6) != 0
  }

  /** Where the wanted name is, or -1. */
  function PtrAt(pkt: Bytes, id: u16): (r: int)
    ensures r == -1 || r >= 0
  {
    if !IsReply(pkt, id) then -1
    else var q := SkipQuestions(pkt, 12, Word16(pkt, 4)); if q < 0 then -1 else FindPtr(pkt, q, Word16(pkt, 6))
  }

  /** sb_rdns_parse. */
  method Parse(pkt: Bytes, id: u16, out: array<byte>, max: int) returns (r: int)
    requires max <= out.Length
    modifies out
    ensures r == 0 || r == -1
    ensures r == 0 <==> max > 1 && PtrAt(pkt, id) >= 0 && Walk(pkt, PtrAt(pkt, id), 0).Some? && Walk(pkt, PtrAt(pkt, id), 0).value != []
    ensures r == 0 ==> Result(out[..], max, Walk(pkt, PtrAt(pkt, id), 0).value)
  {
    hide Walk, Skip, Text, Result;
    if |pkt| < 12 || Word16(pkt, 0) != id || pkt[2] < 0x80 || pkt[3] % 16 != 0 {
      return -1;
    }
    var qd, an := Word16(pkt, 4), Word16(pkt, 6);
    if an == 0 {
      return -1;
    }
    var pos: nat := 12;
    for i := 0 to qd
      invariant SkipQuestions(pkt, 12, qd) == SkipQuestions(pkt, pos, qd - i)
    {
      var p := SkipName(pkt, pos);
      if p < 0 || p + 4 > |pkt| {
        return -1;
      }
      pos := p + 4;
    }
    ghost var first := pos;
    for i := 0 to an
      invariant FindPtr(pkt, first, an) == FindPtr(pkt, pos, an - i)
    {
      var p := SkipName(pkt, pos);
      if p < 0 || p + 10 > |pkt| {
        return -1;
      }
      var rdlen := Word16(pkt, p + 8);
      var rdata := p + 10;
      if rdata + rdlen > |pkt| {
        return -1;
      }
      if Word16(pkt, p) == 12 {
        r := SbName(pkt, rdata, out, max);
        return;
      }
      pos := rdata + rdlen;
    }
    return -1;
  }

  // ---- end to end ----

  /** A text's characters as bytes. */
  function Ascii(s: string): Bytes
    requires forall i :: 0 <= i < |s| ==> (s[i] as int) < 256
  {
    seq(|s|, i requires 0 <= i < |s| => s[i] as int)
  }

  /** The labels of the name asked for, octet by octet. */
  lemma {:induction false} PtrIs(a: byte, b: byte, c: byte, d: byte, addr: u32)
    requires addr == Quad(a, b, c, d)
    ensures PtrLabels(addr) == [Dec(d), Dec(c), Dec(b), Dec(a), Ascii("in-addr"), Ascii("arpa")]
  {
    hide Dec;
    assert Octet(addr, 0) == d && Octet(addr, 1) == c && Octet(addr, 2) == b && Octet(addr, 3) == a by {
      hide PtrLabels;
      Quartered(a, b, c, d, addr);
    }
    assert IN_ADDR == Ascii("in-addr") && ARPA == Ascii("arpa");
  }

  function Quad(a: byte, b: byte, c: byte, d: byte): nat {
    var w: int, x: int, y: int, z: int := a, b, c, d;
    w * 0x100_0000 + x * 0x1_0000 + y * 0x100 + z
  }

  lemma {:induction false} Quartered(a: byte, b: byte, c: byte, d: byte, addr: u32)
    requires addr == Quad(a, b, c, d)
    ensures Octet(addr, 0) == d && Octet(addr, 1) == c && Octet(addr, 2) == b && Octet(addr, 3) == a
  {
    var n: int := addr;
    assert n / 0x100 == a * 0x1_0000 + b * 0x100 + c;
    assert n / 0x1_0000 == a * 0x100 + b;
  }

  /**
   The query for address a.b.c.d: the name d.c.b.a.in-addr.arpa, for both
   decoders and the skipper, asked for once as type PTR of class IN with recursion
   desired (sections 3.5 and 4.1 of RFC 1035).
   */
  lemma {:induction false} QueryDecodes(a: byte, b: byte, c: byte, d: byte, addr: u32, id: u16)
    requires addr == Quad(a, b, c, d)
    ensures var q, ls := Query(addr, id), [Dec(d), Dec(c), Dec(b), Dec(a), Ascii("in-addr"), Ascii("arpa")];
      && Walk(q, 12, 0) == Some(ls) && Hop(q, 12, 0) == Some(ls)
      && Skip(q, 12) == |q| - 4
    ensures var q, n: int := Query(addr, id), id;
      && |q| > 16 && q[..12] == [n / 256, n % 256, 0x01, 0x00, 0, 1, 0, 0, 0, 0, 0, 0]
      && q[|q| - 4..] == [0, 12, 0, 1]
  {
    PtrIs(a, b, c, d, addr);
    hide Dec, Octet, Walk, Hop, Skip, PtrLabels, Quad, Ascii;
    var q, ls := Query(addr, id), PtrLabels(addr);
    assert |ls| == 6 by {
      PtrCount(addr);
    }
    assert q[12..12 + |Wire(ls)| + 1] == Wire(ls) + [0] by {
      assert TAIL[0] == 0;
      hide Wire;
    }
    RoundTrip(q, 12, ls);
    hide Wire;
    assert q[|q| - 4..] == TAIL[1..];
  }

  lemma {:induction false} PtrCount(addr: u32)
    ensures |PtrLabels(addr)| == 6
  {
  }

  /** Different addresses ask for different names. */
  lemma {:induction false} PtrInjective(a: u32, b: u32)
    requires PtrLabels(a) == PtrLabels(b)
    ensures a == b
  {
    hide Dec;
    forall k | 0 <= k < 4 ensures Octet(a, k) == Octet(b, k) {
      assert PtrLabels(a)[k] == PtrLabels(b)[k];
      DecReads(Octet(a, k));
      DecReads(Octet(b, k));
    }
    OctetsMake(a);
    OctetsMake(b);
  }

  lemma {:induction false} OctetsMake(a: u32)
    ensures var w, x, y, z := Octet(a, 0) as int, Octet(a, 1) as int, Octet(a, 2) as int, Octet(a, 3) as int;
      a == z * 0x100_0000 + y * 0x1_0000 + x * 0x100 + w
  {
    var n: int := a;
    assert n == n / 0x100 * 0x100 + n % 0x100;
    assert n / 0x100 / 0x100 == n / 0x1_0000 && n / 0x1_0000 / 0x100 == n / 0x100_0000;
  }

  /** Encoding a name and decoding it gives the name back, but for one final dot. */
  lemma {:induction false} NameRoundTrip(name: Bytes, pkt: Bytes)
    requires LabelsOk(Split(name)) && pkt == Wire(Split(name)) + [0]
    ensures Hop(pkt, 0, 0).Some? && Skip(pkt, 0) == |pkt|
    ensures Text(Hop(pkt, 0, 0).value) == Undotted(name)
    ensures Text(Hop(pkt, 0, 0).value) == name <==> !Dotted(name)
  {
    hide Text, Split, Wire, Hop, Skip;
    assert pkt[0..|pkt|] == pkt;
    RoundTrip(pkt, 0, Split(name));
    SplitText(name);
  }

  /**
   A reply that repeats the question and answers it with a compressed owner name
   and a PTR record parses to the name in that record.
   */
  lemma {:induction false} ReplyParses(pkt: Bytes, id: u16, qs: seq<Bytes>, ls: seq<Bytes>)
    requires |pkt| >= 12 && pkt[..2] == [id / 256, id % 256] && pkt[2] >= 0x80 && pkt[3] % 16 == 0
    requires pkt[4..6] == [0, 1] && pkt[6..8] != [0, 0]
    requires LabelsOk(qs) && LabelsOk(ls) && |ls| <= 128 && |Wire(ls)| < 0xFFFF && At(pkt, 12, Wire(qs) + [0])
    requires var e, n := 12 + |Wire(qs)| + 5, |Wire(ls)| + 1;
      && e + 12 <= |pkt| && pkt[e] >= 0xC0 && pkt[e + 2..e + 4] == [0, 12] && pkt[e + 10..e + 12] == [n / 256, n % 256]
      && At(pkt, e + 12, Wire(ls) + [0])
    ensures var e := 12 + |Wire(qs)| + 5; PtrAt(pkt, id) == e + 12 && Walk(pkt, e + 12, 0) == Some(ls)
  {
    hide Wire, Walk, Hop, Text;
    RoundTrip(pkt, 12, qs);
    var e := 12 + |Wire(qs)| + 5;
    RoundTrip(pkt, e + 12, ls);
    assert Skip(pkt, e) == e + 2;
    hide Skip;
    WordReads(pkt, 0, id);
    WordReads(pkt, 4, 1);
    WordReads(pkt, 6, 0);
    WordReads(pkt, e + 2, 12);
    WordReads(pkt, e + 10, |Wire(ls)| + 1);
    assert pkt[0..2] == pkt[..2];
    hide Word16;
    assert SkipQuestions(pkt, e, 0) == e;
  }
}
