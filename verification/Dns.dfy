/**
 Domain names on the wire (section 3.1 and section 4.1.4 of RFC 1035): what the
 encoders of src/bsdsocket/sb_rdns.c and src/mdns/mdns.c write, what their
 decoders make of arbitrary bytes, and how the two relate.
 */
module Dns {
  import opened Basics
  import opened Words

  type Bytes = seq<byte>

  const DOT: byte := 46

  predicate LabelOk(l: Bytes) { 1 <= |l| <= 63 }

  predicate LabelsOk(ls: seq<Bytes>) { forall i :: 0 <= i < |ls| ==> LabelOk(ls[i]) }

  /** Length-prefixed labels, without the root label that ends a name. */
  function Wire(ls: seq<Bytes>): Bytes
    requires LabelsOk(ls)
  {
    if ls == [] then [] else [|ls[0]|] + ls[0] + Wire(ls[1..])
  }

  /** The dotted form. */
  function Text(ls: seq<Bytes>): Bytes {
    if ls == [] then [] else if |ls| == 1 then ls[0] else ls[0] + [DOT] + Text(ls[1..])
  }

  // ---- the text side ----

  /** Where the first label of a dotted name ends. */
  function DotAt(t: Bytes): (i: nat)
    ensures i <= |t| && (i < |t| ==> t[i] == DOT) && forall k :: 0 <= k < i ==> t[k] != DOT
  {
    if t == [] || t[0] == DOT then 0 else 1 + DotAt(t[1..])
  }

  /** What the encoder makes of a dotted name; one final dot ends the last label and no more. */
  function Split(t: Bytes): seq<Bytes> {
    if t == [] then []
    else var i := DotAt(t); [t[..i]] + if i < |t| then Split(t[i + 1..]) else []
  }

  function Undotted(t: Bytes): Bytes { if Dotted(t) then t[..|t| - 1] else t }

  predicate Dotted(t: Bytes) { t != [] && t[|t| - 1] == DOT }

  /** One label off the front of a dotted name. */
  lemma {:induction false} SplitStep(t: Bytes, i: nat)
    requires t != [] && i == DotAt(t)
    ensures i == |t| ==> Split(t) == [t] && !Dotted(t)
    ensures i < |t| ==> Split(t) == [t[..i]] + Split(t[i + 1..])
  {
    hide DotAt;
    assert i == |t| ==> t[..i] == t;
  }

  lemma {:induction false} Rejoin(t: Bytes, i: nat)
    requires i < |t| && t[i] == DOT
    ensures Undotted(t) == if t[i + 1..] == [] then t[..i] else t[..i] + [DOT] + Undotted(t[i + 1..])
  {
    var head, rest := t[..i], t[i + 1..];
    assert t == head + [DOT] + rest;
    if rest != [] && Dotted(rest) {
      assert t[..|t| - 1] == head + [DOT] + rest[..|rest| - 1];
    }
  }

  lemma {:induction false} TextStep(l: Bytes, ls: seq<Bytes>)
    ensures Text([l] + ls) == if ls == [] then l else l + [DOT] + Text(ls)
  {
    assert ([l] + ls)[1..] == ls;
  }

  /** Splitting loses a final dot and nothing else. */
  lemma {:induction false} SplitText(t: Bytes)
    ensures Text(Split(t)) == Undotted(t)
    decreases |t|
  {
    if t != [] {
      var i := DotAt(t);
      SplitStep(t, i);
      if i == |t| {
        TextStep(t, []);
        assert [t] + [] == [t];
      } else {
        var rest := t[i + 1..];
        SplitText(rest);
        TextStep(t[..i], Split(rest));
        Rejoin(t, i);
        assert Split(rest) == [] <==> rest == [];
        hide Text, Split, DotAt, Undotted;
      }
    }
  }

  // ---- the decoders ----

  /** A compression pointer's target. */
  function Target(pkt: Bytes, pos: nat): nat
    requires pos + 1 < |pkt| && pkt[pos] >= 0xC0
  {
    var hi: int, lo: int := pkt[pos], pkt[pos + 1];
    (hi - 0xC0) * 0x100 + lo
  }

  /**
   sb_dns_name's walk: the labels met from pos on, or None for a malformed name.
   Every label and every pointer costs one of 128 steps. A walk that leaves the
   packet just ends.
   */
  function Walk(pkt: Bytes, pos: nat, guard: nat): Option<seq<Bytes>>
    requires guard <= 128
    decreases 128 - guard
  {
    if pos >= |pkt| || pkt[pos] == 0 then Some([])
    else if pkt[pos] >= 0xC0 then
      if pos + 1 >= |pkt| || guard == 128 then None else Walk(pkt, Target(pkt, pos), guard + 1)
    else if pkt[pos] > 63 || pos + 1 + pkt[pos] > |pkt| || guard == 128 then None
    else Prepend(pkt[pos + 1..pos + 1 + pkt[pos]], Walk(pkt, pos + 1 + pkt[pos], guard + 1))
  }

  function Prepend(l: Bytes, r: Option<seq<Bytes>>): Option<seq<Bytes>> {
    if r.None? then None else Some([l] + r.value)
  }

  /** dns_name's walk in mdns.c: any length below 192 is a label, and only pointers are counted, to 16. */
  function Hop(pkt: Bytes, pos: nat, hops: nat): Option<seq<Bytes>>
    requires hops <= 16
    decreases 16 - hops, |pkt| - pos
  {
    if pos >= |pkt| || pkt[pos] == 0 then Some([])
    else if pkt[pos] >= 0xC0 then
      if pos + 1 >= |pkt| || hops == 16 then None else Hop(pkt, Target(pkt, pos), hops + 1)
    else if pos + 1 + pkt[pos] > |pkt| then None
    else Prepend(pkt[pos + 1..pos + 1 + pkt[pos]], Hop(pkt, pos + 1 + pkt[pos], hops))
  }

  /** sb_dns_skip_name: just past the name as written at pos, or -1. */
  function Skip(pkt: Bytes, pos: nat): (r: int)
    ensures r == -1 || pos < r <= |pkt|
    decreases |pkt| - pos
  {
    if pos >= |pkt| then -1
    else if pkt[pos] >= 0xC0 then (if pos + 2 <= |pkt| then pos + 2 else -1)
    else if pkt[pos] == 0 then pos + 1
    else Skip(pkt, pos + 1 + pkt[pos])
  }

  // ---- reading back what was written ----

  predicate At(pkt: Bytes, pos: nat, w: Bytes) { pos + |w| <= |pkt| && pkt[pos..pos + |w|] == w }

  lemma {:induction false} AtSplit(pkt: Bytes, pos: nat, a: Bytes, b: Bytes)
    ensures At(pkt, pos, a + b) <==> At(pkt, pos, a) && At(pkt, pos + |a|, b)
  {
    if At(pkt, pos, a + b) {
      assert pkt[pos..pos + |a|] == (a + b)[..|a|] == a;
      assert pkt[pos + |a|..pos + |a| + |b|] == (a + b)[|a|..] == b;
    }
    if At(pkt, pos, a) && At(pkt, pos + |a|, b) {
      assert pkt[pos..pos + |a + b|] == a + b;
    }
  }

  lemma {:induction false} WireHead(pkt: Bytes, pos: nat, ls: seq<Bytes>)
    requires LabelsOk(ls) && ls != [] && At(pkt, pos, Wire(ls))
    ensures pos < |pkt| && pkt[pos] == |ls[0]| && pos + 1 + |ls[0]| <= |pkt| && pkt[pos + 1..pos + 1 + |ls[0]|] == ls[0]
    ensures At(pkt, pos + 1 + |ls[0]|, Wire(ls[1..])) && |Wire(ls)| == 1 + |ls[0]| + |Wire(ls[1..])|
  {
    AtSplit(pkt, pos, [|ls[0]|] + ls[0], Wire(ls[1..]));
    AtSplit(pkt, pos, [|ls[0]|], ls[0]);
  }

  function Append(ls: seq<Bytes>, r: Option<seq<Bytes>>): Option<seq<Bytes>> {
    if r.None? then None else Some(ls + r.value)
  }

  lemma {:induction false} AppendStep(ls: seq<Bytes>, r: Option<seq<Bytes>>)
    ensures Append([], r) == r
    ensures ls != [] ==> Prepend(ls[0], Append(ls[1..], r)) == Append(ls, r)
  {
    if r.Some? {
      assert [] + r.value == r.value;
      assert ls != [] ==> [ls[0]] + (ls[1..] + r.value) == ls + r.value;
    }
  }

  /** One label of either walk. */
  lemma {:induction false} LabelStep(pkt: Bytes, pos: nat, n: nat)
    requires pos < |pkt| && pkt[pos] == n && 1 <= n <= 63 && pos + 1 + n <= |pkt|
    ensures forall hops :: 0 <= hops <= 16 ==> Hop(pkt, pos, hops) == Prepend(pkt[pos + 1..pos + 1 + n], Hop(pkt, pos + 1 + n, hops))
    ensures forall g :: 0 <= g < 128 ==> Walk(pkt, pos, g) == Prepend(pkt[pos + 1..pos + 1 + n], Walk(pkt, pos + 1 + n, g + 1))
    ensures Skip(pkt, pos) == Skip(pkt, pos + 1 + n)
  {
  }

  /** The mdns decoder reads written labels and goes on with whatever follows them, a pointer included. */
  lemma {:induction false} HopWire(pkt: Bytes, pos: nat, ls: seq<Bytes>, hops: nat)
    requires LabelsOk(ls) && At(pkt, pos, Wire(ls)) && hops <= 16
    ensures Hop(pkt, pos, hops) == Append(ls, Hop(pkt, pos + |Wire(ls)|, hops))
    ensures Skip(pkt, pos) == Skip(pkt, pos + |Wire(ls)|)
    decreases |ls|
  {
    hide Hop, Skip;
    AppendStep(ls, Hop(pkt, pos + |Wire(ls)|, hops));
    if ls != [] {
      WireHead(pkt, pos, ls);
      LabelStep(pkt, pos, |ls[0]|);
      HopWire(pkt, pos + 1 + |ls[0]|, ls[1..], hops);
      hide Append, Prepend, Wire;
    }
  }

  lemma {:induction false} WalkWire(pkt: Bytes, pos: nat, ls: seq<Bytes>, guard: nat)
    requires LabelsOk(ls) && At(pkt, pos, Wire(ls)) && guard + |ls| <= 128
    ensures Walk(pkt, pos, guard) == Append(ls, Walk(pkt, pos + |Wire(ls)|, guard + |ls|))
    decreases |ls|
  {
    hide Walk;
    AppendStep(ls, Walk(pkt, pos + |Wire(ls)|, guard + |ls|));
    if ls != [] {
      WireHead(pkt, pos, ls);
      LabelStep(pkt, pos, |ls[0]|);
      WalkWire(pkt, pos + 1 + |ls[0]|, ls[1..], guard + 1);
      hide Append, Prepend, Wire;
    }
  }

  /** Both decoders give back a written name, with the end the skipper finds. */
  lemma {:induction false} RoundTrip(pkt: Bytes, pos: nat, ls: seq<Bytes>)
    requires LabelsOk(ls) && At(pkt, pos, Wire(ls) + [0])
    ensures Hop(pkt, pos, 0) == Some(ls) && Skip(pkt, pos) == pos + |Wire(ls)| + 1
    ensures |ls| <= 128 ==> Walk(pkt, pos, 0) == Some(ls)
  {
    AtSplit(pkt, pos, Wire(ls), [0]);
    HopWire(pkt, pos, ls, 0);
    assert pkt[pos + |Wire(ls)|] == [0][0];
    if |ls| <= 128 {
      WalkWire(pkt, pos, ls, 0);
    }
    assert ls + [] == ls;
  }

  /** A name that ends in a pointer reads as its own labels followed by the name pointed to. */
  lemma {:induction false} Compressed(pkt: Bytes, pos: nat, ls: seq<Bytes>, hi: byte, lo: byte)
    requires LabelsOk(ls) && hi >= 0xC0 && At(pkt, pos, Wire(ls) + [hi, lo]) && |ls| < 128
    ensures var at := (hi as int - 0xC0) * 0x100 + lo;
      && Hop(pkt, pos, 0) == Append(ls, Hop(pkt, at, 1))
      && Walk(pkt, pos, 0) == Append(ls, Walk(pkt, at, |ls| + 1))
      && Skip(pkt, pos) == pos + |Wire(ls)| + 2
  {
    AtSplit(pkt, pos, Wire(ls), [hi, lo]);
    var e := pos + |Wire(ls)|;
    assert pkt[e] == [hi, lo][0] && pkt[e + 1] == [hi, lo][1];
    PointerStep(pkt, e, |ls|);
    HopWire(pkt, pos, ls, 0);
    WalkWire(pkt, pos, ls, 0);
    hide Hop, Walk, Skip, Append, Wire;
  }

  lemma {:induction false} PointerStep(pkt: Bytes, pos: nat, guard: nat)
    requires pos + 1 < |pkt| && pkt[pos] >= 0xC0 && guard < 128
    ensures Hop(pkt, pos, 0) == Hop(pkt, Target(pkt, pos), 1)
    ensures Walk(pkt, pos, guard) == Walk(pkt, Target(pkt, pos), guard + 1)
    ensures Skip(pkt, pos) == pos + 2
  {
  }

  // ---- the decoders against RFC 1035 ----

  /**
   The labels of the name at pos as section 4.1.4 of RFC 1035 reads it, in at
   most n labels and pointers: labels, ended by the root label, or by a pointer
   to the rest.
   */
  ghost predicate Denotes(pkt: Bytes, pos: nat, ls: seq<Bytes>, n: nat)
    decreases n
  {
    && pos < |pkt|
    && if pkt[pos] == 0 then ls == []
       else if pkt[pos] >= 0xC0 then pos + 1 < |pkt| && n > 0 && Denotes(pkt, Target(pkt, pos), ls, n - 1)
       else
         && pkt[pos] <= 63 && pos + 1 + pkt[pos] <= |pkt| && n > 0
         && ls != [] && ls[0] == pkt[pos + 1..pos + 1 + pkt[pos]] && Denotes(pkt, pos + 1 + pkt[pos], ls[1..], n - 1)
  }

  /** Where the walk ends. */
  function Stop(pkt: Bytes, pos: nat, guard: nat): nat
    requires guard <= 128
    decreases 128 - guard
  {
    if pos >= |pkt| || pkt[pos] == 0 then pos
    else if pkt[pos] >= 0xC0 then
      if pos + 1 >= |pkt| || guard == 128 then pos else Stop(pkt, Target(pkt, pos), guard + 1)
    else if pkt[pos] > 63 || pos + 1 + pkt[pos] > |pkt| || guard == 128 then pos
    else Stop(pkt, pos + 1 + pkt[pos], guard + 1)
  }

  /**
   sb_dns_name accepts exactly the names of RFC 1035 of at most 128 labels and
   pointers, and besides them walks that leave the packet without a root label.
   */
  lemma {:induction false} WalkIsName(pkt: Bytes, pos: nat, guard: nat, ls: seq<Bytes>)
    requires guard <= 128
    ensures Denotes(pkt, pos, ls, 128 - guard) <==> Walk(pkt, pos, guard) == Some(ls) && Stop(pkt, pos, guard) < |pkt|
    decreases 128 - guard
  {
    if pos < |pkt| && pkt[pos] != 0 && guard < 128 {
      if pkt[pos] >= 0xC0 {
        if pos + 1 < |pkt| {
          WalkIsName(pkt, Target(pkt, pos), guard + 1, ls);
        }
      } else if pkt[pos] <= 63 && pos + 1 + pkt[pos] <= |pkt| {
        var l, next := pkt[pos + 1..pos + 1 + pkt[pos]], pos + 1 + pkt[pos];
        var w := Walk(pkt, next, guard + 1);
        if ls != [] {
          WalkIsName(pkt, next, guard + 1, ls[1..]);
          assert ls == [ls[0]] + ls[1..];
          assert w.Some? ==> ([l] + w.value)[1..] == w.value;
        }
      }
    }
  }

  /** The name a packet is cut short in is accepted as if it ended there. */
  lemma {:induction false} CutShortIsAccepted(pkt: Bytes, n: nat)
    requires pkt == [1, 97]
    ensures Walk(pkt, 0, 0) == Some([[97]]) && !Denotes(pkt, 0, [[97]], n)
  {
    LabelStep(pkt, 0, 1);
    assert pkt[1..2] == [97] && Walk(pkt, 2, 1) == Some([]);
    assert [[97]] + [] == [[97]];
  }
}
