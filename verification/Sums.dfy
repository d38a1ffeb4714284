/** Sums over sequences, and lists without repetition. */
module Sums {

  function Sum<T>(xs: seq<T>, f: T -> int): int {
    if xs == [] then 0 else Sum(xs[..|xs| - 1], f) + f(xs[|xs| - 1])
  }

  lemma {:induction false} SumUpdate<T>(xs: seq<T>, k: nat, x: T, f: T -> int)
    requires k < |xs|
    ensures Sum(xs[k := x], f) == Sum(xs, f) - f(xs[k]) + f(x)
  {
    var n := |xs| - 1;
    if k < n {
      assert xs[k := x][..n] == xs[..n][k := x];
      SumUpdate(xs[..n], k, x, f);
    } else {
      assert xs[k := x][..n] == xs[..n];
    }
  }

  lemma {:induction false} SumCons<T>(x: T, xs: seq<T>, f: T -> int)
    ensures Sum([x] + xs, f) == f(x) + Sum(xs, f)
  {
    if xs == [] {
      assert [x] + xs == [x] && [x][..0] == [];
    } else {
      assert ([x] + xs)[..|xs|] == [x] + xs[..|xs| - 1];
      SumCons(x, xs[..|xs| - 1], f);
    }
  }

  lemma {:induction false} SumRemove<T>(xs: seq<T>, k: nat, f: T -> int)
    requires k < |xs|
    ensures Sum(xs[..k] + xs[k + 1..], f) == Sum(xs, f) - f(xs[k])
  {
    var n := |xs| - 1;
    if k < n {
      assert (xs[..k] + xs[k + 1..])[..n - 1] == xs[..n][..k] + xs[..n][k + 1..];
      SumRemove(xs[..n], k, f);
    } else {
      assert xs[..k] + xs[k + 1..] == xs[..n];
    }
  }

  /** Between equal and everywhere one more. */
  lemma {:induction false} SumBetween<T>(xs: seq<T>, ys: seq<T>, f: T -> int)
    requires |xs| == |ys|
    requires forall i :: 0 <= i < |xs| ==> f(xs[i]) <= f(ys[i]) <= f(xs[i]) + 1
    ensures Sum(xs, f) <= Sum(ys, f) <= Sum(xs, f) + |xs|
    ensures (exists i :: 0 <= i < |xs| && f(xs[i]) < f(ys[i])) ==> Sum(xs, f) < Sum(ys, f)
  {
    if xs != [] {
      SumBetween(xs[..|xs| - 1], ys[..|xs| - 1], f);
    }
  }

  lemma {:induction false} SumEqual<T>(xs: seq<T>, ys: seq<T>, f: T -> int)
    requires |xs| == |ys|
    requires forall i :: 0 <= i < |xs| ==> f(xs[i]) == f(ys[i])
    ensures Sum(xs, f) == Sum(ys, f)
  {
    if xs != [] {
      SumEqual(xs[..|xs| - 1], ys[..|xs| - 1], f);
    }
  }

  lemma {:induction false} SumAgree<T>(xs: seq<T>, f: T -> int, g: T -> int)
    requires forall i :: 0 <= i < |xs| ==> f(xs[i]) == g(xs[i])
    ensures Sum(xs, f) == Sum(xs, g)
  {
    if xs != [] {
      SumAgree(xs[..|xs| - 1], f, g);
    }
  }

  lemma {:induction false} SumAtLeast<T>(xs: seq<T>, k: nat, f: T -> int)
    requires k < |xs| && forall i :: 0 <= i < |xs| ==> f(xs[i]) >= 0
    ensures Sum(xs, f) >= f(xs[k])
  {
    var n := |xs| - 1;
    if k < n {
      SumAtLeast(xs[..n], k, f);
    } else if n > 0 {
      SumAtLeast(xs[..n], 0, f);
    }
  }

  lemma {:induction false} SumNonNegative<T>(xs: seq<T>, f: T -> int)
    requires forall i :: 0 <= i < |xs| ==> f(xs[i]) >= 0
    ensures Sum(xs, f) >= 0
  {
    if xs != [] {
      SumNonNegative(xs[..|xs| - 1], f);
    }
  }

  lemma {:induction false} SumConstant<T>(xs: seq<T>, f: T -> int, c: int)
    requires forall i :: 0 <= i < |xs| ==> f(xs[i]) == c
    ensures Sum(xs, f) == c * |xs|
  {
    if xs != [] {
      SumConstant(xs[..|xs| - 1], f, c);
    }
  }

  ghost predicate NoDup<T>(xs: seq<T>) {
    forall i, j :: 0 <= i < j < |xs| ==> xs[i] != xs[j]
  }

  lemma {:induction false} NoDupCons<T>(x: T, xs: seq<T>)
    requires NoDup(xs) && x !in xs
    ensures NoDup([x] + xs)
  {
  }

  /** One thing taken out of a list without repetition. */
  lemma {:induction false} Without<T>(xs: seq<T>, k: nat)
    requires NoDup(xs) && k < |xs|
    ensures NoDup(xs[..k] + xs[k + 1..])
    ensures forall x :: x in xs[..k] + xs[k + 1..] <==> x in xs && x != xs[k]
  {
    var rest := xs[..k] + xs[k + 1..];
    assert forall i :: 0 <= i < |rest| ==> rest[i] == xs[if i < k then i else i + 1];
    forall x | x in xs && x != xs[k] ensures x in rest {
      var j :| 0 <= j < |xs| && xs[j] == x;
      assert rest[if j < k then j else j - 1] == x;
    }
  }

  lemma {:induction false} WithoutLast<T>(xs: seq<T>)
    requires NoDup(xs) && xs != []
    ensures NoDup(xs[..|xs| - 1])
    ensures forall x :: x in xs[..|xs| - 1] <==> x in xs && x != xs[|xs| - 1]
    ensures xs[|xs| - 1] in xs
  {
    Without(xs, |xs| - 1);
    assert xs[..|xs| - 1] + xs[|xs| - 1 + 1..] == xs[..|xs| - 1];
  }

  lemma {:induction false} FirstIsMember<T>(xs: seq<T>)
    ensures xs == [] || xs[0] in xs
  {
  }

  /** A sum in which only some of the things count is the sum over those, in whatever order. */
  lemma {:induction false} SumOfPart<T>(xs: seq<T>, ys: seq<T>, f: T -> int, g: T -> int)
    requires NoDup(xs) && NoDup(ys) && (forall y :: y in ys ==> y in xs)
    requires forall x :: x in xs ==> f(x) == if x in ys then g(x) else 0
    ensures Sum(xs, f) == Sum(ys, g)
  {
    hide NoDup;
    if xs == [] {
      FirstIsMember(ys);
    } else {
      var n := |xs| - 1;
      WithoutLast(xs);
      if xs[n] in ys {
        var k :| 0 <= k < |ys| && ys[k] == xs[n];
        SumRemove(ys, k, g);
        Without(ys, k);
        var rest := ys[..k] + ys[k + 1..];
        forall y | y in rest ensures y in xs[..n] {
          assert y in ys && y in xs;
        }
        SumOfPart(xs[..n], rest, f, g);
      } else {
        SumOfPart(xs[..n], ys, f, g);
      }
    }
  }

  /** The sum over a set of things does not depend on the order they are listed in. */
  lemma {:induction false} SumOfSame<T>(xs: seq<T>, ys: seq<T>, f: T -> int)
    requires NoDup(xs) && NoDup(ys) && forall x :: x in xs <==> x in ys
    ensures Sum(xs, f) == Sum(ys, f)
  {
    SumOfPart(xs, ys, f, f);
  }

  lemma {:induction false} SizeOfSet<T>(xs: seq<T>)
    requires NoDup(xs)
    ensures |set x | x in xs| == |xs|
  {
    if xs != [] {
      var n := |xs| - 1;
      SizeOfSet(xs[..n]);
      assert (set x | x in xs) == (set x | x in xs[..n]) + {xs[n]};
    }
  }

  /** Some of the things sum to no more than all of them. */
  lemma {:induction false} SumOfSome<T>(xs: seq<T>, ys: seq<T>, f: T -> int)
    requires NoDup(xs) && NoDup(ys) && (forall x :: x in xs ==> x in ys)
    requires forall x :: f(x) >= 0
    ensures Sum(xs, f) <= Sum(ys, f)
  {
    hide NoDup;
    if xs == [] {
      SumNonNegative(ys, f);
    } else {
      var n := |xs| - 1;
      WithoutLast(xs);
      var k :| 0 <= k < |ys| && ys[k] == xs[n];
      SumRemove(ys, k, f);
      Without(ys, k);
      var rest := ys[..k] + ys[k + 1..];
      forall x | x in xs[..n] ensures x in rest {
        assert x in xs && x in ys;
      }
      SumOfSome(xs[..n], rest, f);
    }
  }
}
