/** The capacity that `frob_size` computes by or-ing a number with its own shifts. */
module FrobSize {
  import opened CompactInt
  import opened Machine
  import opened Options

  function Bit(v: nat, i: nat): bool {
    if i == 0 then v % 2 == 1 else Bit(v / 2, i - 1)
  }

  /** Bitwise or. */
  function Or(v: nat, w: nat): nat
    decreases v + w
  {
    if v == 0 && w == 0 then 0
    else (if v % 2 == 1 || w % 2 == 1 then 1 else 0) + 2 * Or(v / 2, w / 2)
  }

  function ShiftRight(v: nat, k: nat): nat
    decreases k
  {
    if k == 0 then v else ShiftRight(v / 2, k - 1)
  }

  lemma {:induction false} ZeroBits(i: nat)
    ensures !Bit(0, i)
  {
    if i > 0 { ZeroBits(i - 1); }
  }

  lemma {:induction false} OrBit(v: nat, w: nat, i: nat)
    ensures Bit(Or(v, w), i) == (Bit(v, i) || Bit(w, i))
    decreases i
  {
    ZeroBits(i);
    if (v != 0 || w != 0) && i > 0 {
      OrBit(v / 2, w / 2, i - 1);
    }
  }

  lemma {:induction false} ShiftBit(v: nat, k: nat, i: nat)
    ensures Bit(ShiftRight(v, k), i) == Bit(v, i + k)
    decreases k
  {
    if k > 0 {
      ShiftBit(v / 2, k - 1, i);
    }
  }

  /** The `k` highest of the `length` bits of `v` are set. */
  ghost predicate Smeared(v: nat, length: nat, k: nat) {
    forall i: nat {:trigger Bit(v, i)} ::
      (i >= length ==> !Bit(v, i)) && (length - k <= i < length ==> Bit(v, i))
  }

  lemma {:induction false} HighestBit(v: nat)
    ensures Smeared(v, BitLength(v), 1)
  {
    forall i: nat | i >= BitLength(v) - 1
      ensures Bit(v, i) == (i == BitLength(v) - 1)
    {
      HighestBitAt(v, i);
    }
  }

  lemma {:induction false} HighestBitAt(v: nat, i: nat)
    requires i >= BitLength(v) - 1
    ensures Bit(v, i) == (i == BitLength(v) - 1)
  {
    if v == 0 {
      ZeroBits(i);
    } else if i > 0 {
      HighestBitAt(v / 2, i - 1);
    }
  }

  /** Each line `n |= n >> k` doubles the number of leading ones. */
  lemma SmearStep(v: nat, length: nat, k: nat)
    requires Smeared(v, length, k)
    ensures Smeared(Or(v, ShiftRight(v, k)), length, 2 * k)
  {
    var w := Or(v, ShiftRight(v, k));
    forall i: nat
      ensures i >= length ==> !Bit(w, i)
      ensures length - 2 * k <= i < length ==> Bit(w, i)
    {
      OrBit(v, ShiftRight(v, k), i);
      ShiftBit(v, k, i);
      assert Bit(w, i) == (Bit(v, i) || Bit(v, i + k));
    }
  }

  lemma {:induction false} AllOnes(v: nat, length: nat)
    requires forall i: nat :: Bit(v, i) == (i < length)
    ensures v == Pow2(length) - 1
    decreases v
  {
    assert Bit(v, 0) == (v % 2 == 1);
    forall i: nat
      ensures Bit(v / 2, i) == (i < length - 1)
    {
      assert Bit(v, i + 1) == Bit(v / 2, i);
    }
    if v > 0 {
      if length == 0 {
        HighestBitAt(v, BitLength(v) - 1);
      }
      AllOnes(v / 2, length - 1);
    } else {
      ZeroBits(0);
    }
  }

  /** The value of `frob_size` when it does not throw. */
  function Size(n: nat): (r: nat) {
    if n == 0 then 1 else if Pow2(BitLength(n - 1)) < 16 then 16 else Pow2(BitLength(n - 1))
  }

  /** The least power of two that is at least `n` and at least 16. */
  lemma SizeIsLeast(n: nat, j: nat)
    requires 0 < n
    ensures Size(n) >= n && Size(n) >= 16
    ensures Pow2(j) >= n && Pow2(j) >= 16 ==> Pow2(j) >= Size(n)
  {
    BitLengthBelow(n - 1, BitLength(n - 1));
    BitLengthBelow(n - 1, j);
    if BitLength(n - 1) < j {
      Pow2Rises(BitLength(n - 1), j);
    }
  }

  /** `frob_size`: the six shifts compute it, without overflow. */
  method Compute(size: nat) returns (r: Result<nat, string>)
    requires size < UINT64_WRAP
    ensures r == if size > UINT64_WRAP / 2 then Err("frob_size: input too large") else Ok(Size(size))
    ensures r.Ok? ==> r.value <= UINT64_WRAP / 2
  {
    if size > UINT64_WRAP / 2 {
      return Err("frob_size: input too large");
    }
    if size == 0 {
      return Ok(1);
    }
    var n := size - 1;
    n := Or(n, ShiftRight(n, 1));
    n := Or(n, ShiftRight(n, 2));
    n := Or(n, ShiftRight(n, 4));
    n := Or(n, ShiftRight(n, 8));
    n := Or(n, ShiftRight(n, 16));
    n := Or(n, ShiftRight(n, 32));
    SixSteps(size - 1);
    n := n + 1;
    return Ok(if n < 16 then 16 else n);
  }

  function SmearBy(n: nat, k: nat): nat {
    Or(n, ShiftRight(n, k))
  }

  /** Six doublings are enough for 64 bits. */
  lemma SixSteps(n: nat)
    requires n < UINT64_WRAP / 2
    ensures SmearBy(SmearBy(SmearBy(SmearBy(SmearBy(SmearBy(n, 1), 2), 4), 8), 16), 32) == Pow2(BitLength(n)) - 1
    ensures Pow2(BitLength(n)) <= UINT64_WRAP / 2
  {
    var length := BitLength(n);
    Pow2Is64();
    BitLengthBelow(n, 63);
    if length < 63 { Pow2Rises(length, 63); }
    HighestBit(n);
    SmearStep(n, length, 1);
    var n2 := SmearBy(n, 1);
    SmearStep(n2, length, 2);
    var n4 := SmearBy(n2, 2);
    SmearStep(n4, length, 4);
    var n8 := SmearBy(n4, 4);
    SmearStep(n8, length, 8);
    var n16 := SmearBy(n8, 8);
    SmearStep(n16, length, 16);
    var n32 := SmearBy(n16, 16);
    SmearStep(n32, length, 32);
    AllOnes(SmearBy(n32, 32), length);
  }
}
