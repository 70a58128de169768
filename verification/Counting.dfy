/** How many elements of a sequence have a property. */
module Counting {

  function Bit(b: bool): nat {
    if b then 1 else 0
  }

  function Number<T>(xs: seq<T>, p: T -> bool): nat {
    if xs == [] then 0 else Bit(p(xs[0])) + Number(xs[1..], p)
  }

  lemma {:induction false} NumberUpdate<T>(xs: seq<T>, i: nat, x: T, p: T -> bool)
    requires i < |xs|
    ensures Number(xs[i := x], p) == Number(xs, p) - Bit(p(xs[i])) + Bit(p(x))
    ensures p(xs[i]) ==> Number(xs, p) > 0
    decreases |xs|
  {
    if i > 0 {
      NumberUpdate(xs[1..], i - 1, x, p);
      assert xs[i := x][1..] == xs[1..][i - 1 := x];
    } else {
      assert xs[i := x][1..] == xs[1..];
    }
  }

  lemma {:induction false} NumberAppend<T>(xs: seq<T>, x: T, p: T -> bool)
    ensures Number(xs + [x], p) == Number(xs, p) + Bit(p(x))
    decreases |xs|
  {
    if xs == [] {
      assert xs + [x] == [x] && [x][1..] == [];
    } else {
      NumberAppend(xs[1..], x, p);
      assert (xs + [x])[1..] == xs[1..] + [x];
    }
  }

  lemma {:induction false} NumberImplies<T>(xs: seq<T>, p: T -> bool, q: T -> bool)
    requires forall x :: p(x) ==> q(x)
    ensures Number(xs, p) <= Number(xs, q)
    decreases |xs|
  {
    if xs != [] {
      NumberImplies(xs[1..], p, q);
    }
  }

  lemma {:induction false} NumberZero<T>(xs: seq<T>, p: T -> bool)
    requires forall x :: x in xs ==> !p(x)
    ensures Number(xs, p) == 0
    decreases |xs|
  {
    if xs != [] {
      NumberZero(xs[1..], p);
    }
  }
}
