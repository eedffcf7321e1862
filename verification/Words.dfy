/**
 Machine words of the target and one's-complement checksum arithmetic.

 The target (m68k) is big-endian, so a 16-bit header word read raw is the
 network-order value itself.
 */
module Words {

  type byte = x: int | 0 <= x < 256
  type u16 = x: int | 0 <= x < 0x1_0000
  type u32 = x: int | 0 <= x < M32

  const M32 := 0x1_0000_0000

  /** 32-bit wrap-around addition. */
  function Add32(a: u32, n: nat): u32 {
    (a + n) % M32
  }

  /** 32-bit wrap-around subtraction. */
  function Sub32(a: u32, b: u32): u32 {
    (a - b + M32) % M32
  }

  lemma {:induction false} Add32Assoc(a: u32, m: nat, n: nat)
    ensures Add32(Add32(a, m), n) == Add32(a, m + n)
  {
  }

  /** A free-running 32-bit difference is the true distance while that fits a word. */
  lemma {:induction false} Sub32Distance(p: nat, c: nat)
    requires c <= p < c + M32
    ensures Sub32(p % M32, c % M32) == p - c
  {
    var d := p - c;
    assert p == c + d;
    assert (p % M32 - c % M32 + M32) % M32 == d by {
      var q, r := c / M32, c % M32;
      assert c == q * M32 + r;
      if r + d < M32 {
        ModUnique(p, q, r + d);
      } else {
        ModUnique(p, q + 1, r + d - M32);
      }
    }
  }

  lemma {:induction false} ModUnique(x: nat, q: nat, r: nat)
    requires r < M32 && x == q * M32 + r
    ensures x % M32 == r && x / M32 == q
  {
  }

  // ---- one's-complement sums ----

  /** Fold the carries of a one's-complement sum back into 16 bits. */
  function Fold(sum: nat): (r: nat)
    ensures r < 0x1_0000
    ensures r % 0xFFFF == sum % 0xFFFF
    ensures r == 0 <==> sum == 0
  {
    if sum < 0x1_0000 then sum else
    assert (sum % 0x1_0000 + sum / 0x1_0000) % 0xFFFF == sum % 0xFFFF by { FoldStep(sum); }
    Fold(sum % 0x1_0000 + sum / 0x1_0000)
  }

  lemma {:induction false} FoldStep(sum: nat)
    ensures (sum % 0x1_0000 + sum / 0x1_0000) % 0xFFFF == sum % 0xFFFF
  {
    var hi, lo := sum / 0x1_0000, sum % 0x1_0000;
    SameResidue(hi + lo, sum, hi);
  }

  /** The carry-folding loop, as both header-checksum sites run it. */
  method FoldCarries(sum: nat) returns (r: u16)
    ensures r == Fold(sum)
  {
    var s := sum;
    while s / 0x1_0000 != 0
      invariant 0 <= s && Fold(s) == Fold(sum)
      decreases s
    {
      s := s % 0x1_0000 + s / 0x1_0000;
    }
    r := s;
  }

  /** A block of words verifies when its one's-complement sum folds to all ones. */
  predicate Verifies(sum: nat) {
    Fold(sum) == 0xFFFF
  }

  lemma {:induction false} VerifiesIffMultiple(sum: nat)
    ensures Verifies(sum) <==> sum > 0 && sum % 0xFFFF == 0
  {
  }

  /** Incremental update of a header checksum when one word changes from old to new. */
  function Patch(chk: u16, oldWord: u16, newWord: u16): u16 {
    0xFFFF - Fold((0xFFFF - chk) + (0xFFFF - oldWord) + newWord)
  }

  /**
   Equation 3 in section 3 of RFC 1624: a block that verified before the word
   was replaced verifies afterwards, the 0 and 0xFFFF representations of zero
   included. rest is the sum of the words that do not change; a header
   whose constant words are not all zero is what separates the two zeros.
   */
  lemma {:induction false} PatchVerifies(rest: nat, chk: u16, oldWord: u16, newWord: u16)
    requires rest > 0
    ensures Verifies(rest + oldWord + chk) <==> Verifies(rest + newWord + Patch(chk, oldWord, newWord))
  {
    var x := (0xFFFF - chk) + (0xFFFF - oldWord) + newWord;
    var before, after := rest + oldWord + chk, rest + newWord + Patch(chk, oldWord, newWord);
    var t := x / 0xFFFF - Fold(x) / 0xFFFF;
    assert x - Fold(x) == 0xFFFF * t;
    assert after == before + 0xFFFF * (t - 1);
    SameResidue(before, after, t - 1);
    VerifiesIffMultiple(before);
    VerifiesIffMultiple(after);
  }

  lemma {:induction false} SameResidue(a: nat, b: nat, t: int)
    requires b == a + 0xFFFF * t
    ensures b % 0xFFFF == a % 0xFFFF
  {
  }
}
