/** Small things every component needs. */
module Basics {

  datatype Option<T> = None | Some(value: T)

  /** 1 for true, 0 for false. */
  function One(b: bool): nat { if b then 1 else 0 }

  /** How often x is in q. */
  function Count(q: seq<nat>, x: nat): nat { if q == [] then 0 else One(q[0] == x) + Count(q[1..], x) }

  lemma {:induction false} CountConcat(a: seq<nat>, b: seq<nat>, x: nat)
    ensures Count(a + b, x) == Count(a, x) + Count(b, x)
  {
    if a == [] {
      assert a + b == b;
    } else {
      assert (a + b)[1..] == a[1..] + b;
      CountConcat(a[1..], b, x);
    }
  }

  lemma {:induction false} CountEnds(q: seq<nat>, y: nat, x: nat)
    ensures Count(q + [y], x) == Count(q, x) + One(y == x) && Count([y] + q, x) == Count(q, x) + One(y == x)
  {
    CountConcat(q, [y], x);
    CountConcat([y], q, x);
    assert [y][1..] == [];
  }

  lemma {:induction false} CountHead(q: seq<nat>, x: nat)
    requires q != []
    ensures Count(q, x) == One(q[0] == x) + Count(q[1..], x)
  {
  }

  lemma {:induction false} CountNone(x: nat)
    ensures Count([], x) == 0
  {
  }
}
