/** Facts about remainders and about finite sets of naturals that several parts share. */
module Arith {
  function Min(a: nat, b: nat): nat {
    if a <= b then a else b
  }

  lemma MultipleIsFar(k: int, d: nat)
    requires k != 0
    ensures k * d >= d || k * d + d <= 0
  {
    if k >= 1 {
      ProductIsNatural(k - 1, d);
      assert k * d == (k - 1) * d + d;
    } else {
      ProductIsNatural(-k - 1, d);
      assert k * d == -((-k - 1) * d) - d;
    }
  }

  lemma ProductIsNatural(a: nat, b: nat)
    ensures a * b >= 0
  {
  }

  /** Quotient and remainder are unique. */
  lemma DivModUnique(n: int, d: nat, q: int, r: nat)
    requires r < d && n == q * d + r
    ensures n / d == q && n % d == r
  {
    var k := q - n / d;
    assert k * d == q * d - n / d * d;
    assert n == n / d * d + n % d;
    if k != 0 {
      MultipleIsFar(k, d);
    }
  }

  /** Two numbers less than `d` apart with the same remainder are the same. */
  lemma SameRemainder(i: int, j: int, d: nat)
    requires 0 < d && i <= j < i + d && i % d == j % d
    ensures i == j
  {
    var k := j / d - i / d;
    assert k * d == j / d * d - i / d * d;
    assert i == i / d * d + i % d && j == j / d * d + j % d;
    if k != 0 {
      MultipleIsFar(k, d);
    }
  }

  lemma ShiftedRemainder(n: int, d: nat, shift: nat)
    requires 0 < d
    ensures (n % d + shift) % d == (n + shift) % d
  {
    var m := n % d + shift;
    assert n == n / d * d + n % d;
    assert n + shift == (n / d + m / d) * d + m % d by {
      assert m == m / d * d + m % d;
      assert (n / d + m / d) * d == n / d * d + m / d * d;
    }
    DivModUnique(n + shift, d, n / d + m / d, m % d);
  }

  ghost predicate Distinct<T>(a: seq<T>) {
    forall i, j :: 0 <= i < j < |a| ==> a[i] != a[j]
  }

  ghost function Elements<T>(a: seq<T>): set<T> {
    set x | x in a
  }

  ghost function Below(n: nat): (r: set<nat>)
    ensures |r| == n && forall t: nat :: t in r <==> t < n
  {
    if n == 0 then {} else Below(n - 1) + {n - 1}
  }

  lemma {:induction false} DistinctSize<T>(a: seq<T>)
    requires Distinct(a)
    ensures |Elements(a)| == |a|
  {
    if a != [] {
      var n := |a| - 1;
      var front, last := a[..n], a[n];
      DistinctSize(front);
      assert a == front + [last];
      assert Elements(a) == Elements(front) + {last};
      assert last !in front;
    }
  }

  lemma {:induction false} SubsetSize<T>(a: set<T>, b: set<T>)
    requires a <= b
    ensures |a| <= |b|
  {
    if a != {} {
      var x :| x in a;
      SubsetSize(a - {x}, b - {x});
    }
  }
}
