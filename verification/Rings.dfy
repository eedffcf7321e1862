/**
 Rings of a power-of-two size addressed by free-running 32-bit indices: the
 mask is taken at each access, so an index may wrap without being reset.
 */
module Rings {
  import opened Words

  /** Ring position of a free-running index; the mask is the slot count minus one. */
  function At(i: nat, n: nat): (r: nat)
    requires n > 0
    ensures r < n
  {
    i % n
  }

  /** A power-of-two ring size divides the index range. */
  predicate Divides(n: nat) { n > 0 && M32 % n == 0 }

  lemma {:induction false} Masked(j: nat, n: nat)
    requires Divides(n)
    ensures At(j % M32, n) == At(j, n)
  {
    var q, k, a := j / M32, M32 / n, j % M32;
    assert M32 == n * k;
    calc {
      j;
      q * M32 + a;
      q * (n * k) + (n * (a / n) + a % n);
      n * (q * k) + (n * (a / n) + a % n);
      n * (q * k + a / n) + a % n;
    }
    Euclid(j, n, q * k + a / n, a % n);
  }

  lemma {:induction false} Euclid(x: nat, n: nat, q: nat, r: nat)
    requires r < n && x == n * q + r
    ensures x % n == r
  {
    var q', r' := x / n, x % n;
    assert x == n * q' + r';
    assert n * (q - q') == n * q - n * q';
    Sign(n, q - q');
    Sign(n, q' - q);
  }

  lemma {:induction false} Sign(n: nat, k: int)
    ensures k >= 1 ==> n * k >= n
    ensures k <= 0 ==> n * k <= 0
    ensures n * -k == -(n * k)
  {
  }

  /** Positions fewer than n apart share a slot only when equal. */
  lemma {:induction false} Apart(i: nat, j: nat, n: nat)
    requires 0 < n && i < j < i + n
    ensures At(i, n) != At(j, n)
  {
    var k := j / n - i / n;
    assert i == n * (i / n) + i % n && j == n * (j / n) + j % n;
    assert n * k == n * (j / n) - n * (i / n);
    Sign(n, k);
  }

  lemma {:induction false} Add32OfMod(r: nat, k: nat)
    ensures Add32(r % M32, k) == (r + k) % M32
  {
    var q, a := r / M32, r % M32;
    var d, b := (a + k) / M32, (a + k) % M32;
    ModUnique(r + k, q + d, b);
  }

  lemma {:induction false} AddIsMod(a: u32, k: nat)
    ensures Add32(a, k) == (a + k) % M32
  {
  }

  lemma {:induction false} EndOfQueue(prod: u32, cons: u32, k: nat)
    requires k <= Sub32(prod, cons)
    ensures Add32(cons, k) == prod <==> k == Sub32(prod, cons)
  {
  }

  lemma {:induction false} Appended(prod: u32, cons: u32, k: nat)
    requires Sub32(prod, cons) + k < M32
    ensures Sub32(Add32(prod, k), cons) == Sub32(prod, cons) + k
  {
  }

  /** len entries of the ring a starting at position from. */
  function Window<T>(a: seq<T>, from: nat, len: nat): (w: seq<T>)
    requires |a| > 0
    ensures |w| == len && forall i :: 0 <= i < len ==> w[i] == a[At(from + i, |a|)]
  {
    seq(len, i requires 0 <= i => a[At(from + i, |a|)])
  }

  /** Storing one entry past a window that is not full extends it and disturbs nothing. */
  lemma {:induction false} WindowStore<T>(a: seq<T>, from: nat, len: nat, x: T)
    requires |a| > len
    ensures Window(a[At(from + len, |a|) := x], from, len + 1) == Window(a, from, len) + [x]
  {
    hide At;
    var b := a[At(from + len, |a|) := x];
    var w, v := Window(b, from, len + 1), Window(a, from, len) + [x];
    forall i | 0 <= i <= len ensures w[i] == v[i] {
      assert w[i] == b[At(from + i, |a|)];
      if i < len {
        Apart(from + i, from + len, |a|);
      }
    }
  }

  lemma {:induction false} ModPlus(a: nat, i: nat)
    ensures (a % M32 + i) % M32 == (a + i) % M32
  {
  }

  /** Windows starting a whole index range apart coincide. */
  lemma {:induction false} WindowWrap<T>(a: seq<T>, from: nat, len: nat)
    requires Divides(|a|)
    ensures Window(a, from % M32, len) == Window(a, from, len)
  {
    hide At;
    var w, v := Window(a, from % M32, len), Window(a, from, len);
    forall i | 0 <= i < len ensures w[i] == v[i] {
      Masked(from + i, |a|);
      Masked(from % M32 + i, |a|);
      ModPlus(from, i);
    }
  }

  lemma {:induction false} FrontIs<T>(a: seq<T>, from: nat, len: nat)
    requires |a| > 0 && len > 0
    ensures Window(a, from, len)[0] == a[At(from, |a|)]
  {
  }

  lemma {:induction false} Shortened(prod: u32, cons: u32)
    requires prod != cons
    ensures Sub32(prod, Add32(cons, 1)) == Sub32(prod, cons) - 1
  {
  }

  // ---- ring sizes ----

  function Pow2(k: nat): nat { if k == 0 then 1 else 2 * Pow2(k - 1) }

  lemma {:induction false} Pow2Split(k: nat, n: nat)
    requires k <= n
    ensures Pow2(n) == Pow2(k) * Pow2(n - k)
  {
    if k < n {
      Pow2Split(k, n - 1);
      assert Pow2(k) * (2 * Pow2(n - k - 1)) == 2 * (Pow2(k) * Pow2(n - k - 1));
    }
  }

  lemma {:induction false} Shorten(d: nat, m: nat)
    ensures d * (m - 1) == d * m - d
  {
  }

  lemma {:induction false} Pow2Divides(k: nat)
    requires k <= 31
    ensures Divides(Pow2(k)) && Pow2(k) < M32
  {
    Pow2Split(k, 32);
    Pow2Word();
    var d, e := Pow2(k), Pow2(31 - k);
    assert Pow2(32 - k) == 2 * e;
    hide *;
    Euclid(M32, d, 2 * e, 0);
    Sign(d, 2 * e - 1);
    Shorten(d, 2 * e);
  }

  lemma {:induction false} Pow2Word()
    ensures Pow2(31) == 0x8000_0000 && Pow2(32) == M32
  {
    assert Pow2(8) == 256;
    Pow2Split(8, 16);
    Pow2Split(16, 32);
  }

  /** The least power of two, from Pow2(k) on, that is not below x. */
  function RoundUpPow2(x: nat, k: nat := 0): (n: nat)
    requires k <= 31 && x <= Pow2(31)
    ensures Divides(n) && x <= n < M32
    ensures exists e: nat :: k <= e <= 31 && n == Pow2(e) && forall j: nat :: k <= j && x <= Pow2(j) ==> e <= j
    decreases 31 - k
  {
    Pow2Divides(k);
    if x <= Pow2(k) then Pow2(k) else RoundUpPow2(x, k + 1)
  }

  /** Less than twice the request. */
  lemma {:induction false} RoundUpTight(x: nat)
    requires 0 < x <= Pow2(31)
    ensures RoundUpPow2(x) < 2 * x
  {
    var n := RoundUpPow2(x);
    hide RoundUpPow2, Divides;
    var e: nat :| e <= 31 && n == Pow2(e) && forall j: nat :: 0 <= j && x <= Pow2(j) ==> e <= j;
    if e > 0 {
      assert Pow2(e) == 2 * Pow2(e - 1);
      assert !(x <= Pow2(e - 1));
    }
  }
}
