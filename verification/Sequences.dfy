/** Sums, concatenations and repetitions of sequences, whatever their elements. */
module Sequences {

  function SumOf<T>(xs: seq<T>, amount: T -> nat): nat {
    if xs == [] then 0 else SumOf(xs[..|xs| - 1], amount) + amount(xs[|xs| - 1])
  }

  lemma {:induction false} SumOfConcat<T>(a: seq<T>, b: seq<T>, amount: T -> nat)
    ensures SumOf(a + b, amount) == SumOf(a, amount) + SumOf(b, amount)
    decreases |b|
  {
    if b == [] {
      assert a + b == a;
    } else {
      assert (a + b)[..|a + b| - 1] == a + b[..|b| - 1];
      SumOfConcat(a, b[..|b| - 1], amount);
    }
  }

  lemma {:induction false} SumOfOne<T>(x: T, amount: T -> nat)
    ensures SumOf([x], amount) == amount(x)
  {
    assert [x][..|[x]| - 1] == [];
  }

  function Flatten<T>(xs: seq<seq<T>>): seq<T> {
    if xs == [] then [] else xs[0] + Flatten(xs[1..])
  }

  lemma {:induction false} FlattenMore<T>(xs: seq<seq<T>>, x: seq<T>)
    ensures Flatten(xs + [x]) == Flatten(xs) + x
    decreases |xs|
  {
    if xs == [] {
      assert xs + [x] == [x] && [x][1..] == [];
      assert Flatten([x]) == x + [] == [] + x;
    } else {
      assert (xs + [x])[1..] == xs[1..] + [x];
      FlattenMore(xs[1..], x);
      assert xs[0] + (Flatten(xs[1..]) + x) == xs[0] + Flatten(xs[1..]) + x;
    }
  }

  ghost predicate NoRepeat<T>(xs: seq<T>) {
    forall i, j :: 0 <= i < j < |xs| ==> xs[i] != xs[j]
  }
}
