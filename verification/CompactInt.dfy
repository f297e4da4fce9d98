/** Variable-length integers: the zigzag pairs, the base-128 encoding, and the table that is
    meant to give the length of an encoding. */
module CompactInt {
  import opened Arith
  import opened Machine
  import opened Options

  function Pow2(n: nat): (r: nat)
    ensures r > 0
  {
    if n == 0 then 1 else 2 * Pow2(n - 1)
  }

  lemma Pow2Seven(n: nat)
    ensures Pow2(n + 7) == 128 * Pow2(n)
  {
    assert Pow2(n + 7) == 2 * Pow2(n + 6) && Pow2(n + 6) == 2 * Pow2(n + 5) && Pow2(n + 5) == 2 * Pow2(n + 4);
    assert Pow2(n + 4) == 2 * Pow2(n + 3) && Pow2(n + 3) == 2 * Pow2(n + 2) && Pow2(n + 2) == 2 * Pow2(n + 1);
  }

  lemma Pow2Is64()
    ensures Pow2(64) == UINT64_WRAP && Pow2(63) == UINT64_WRAP / 2
  {
    Pow2Seven(0);
    Pow2Seven(7);
    Pow2Seven(14);
    Pow2Seven(21);
    Pow2Seven(28);
    Pow2Seven(35);
    Pow2Seven(42);
    Pow2Seven(49);
    Pow2Seven(56);
    assert Pow2(64) == 2 * Pow2(63);
  }

  lemma {:induction false} Pow2Rises(m: nat, n: nat)
    requires m < n
    ensures 2 * Pow2(m) <= Pow2(n)
  {
    if m + 1 < n {
      Pow2Rises(m, n - 1);
    }
  }

  // ---------------------------------------------------------------------------
  // Zigzag
  // ---------------------------------------------------------------------------

  predicate Signed(n: int, width: nat)
    requires 0 < width
  {
    -(Pow2(width - 1) as int) <= n < Pow2(width - 1)
  }

  /** Exclusive or with all ones, in `width` bits. */
  function Complement(u: nat, width: nat): int {
    Pow2(width) - 1 - u
  }

  /** `n << 1`, in `width` bits. */
  function ShiftLeft(n: int, width: nat): nat
    requires 0 < width && Signed(n, width)
  {
    if n >= 0 then 2 * n else 2 * n + Pow2(width)
  }

  /** `(n << 1) ^ (n >> (width - 1))`, where the second operand is 0 or all ones. */
  function EncodeZigzag(n: int, width: nat): int
    requires 0 < width && Signed(n, width)
  {
    if n >= 0 then ShiftLeft(n, width) else Complement(ShiftLeft(n, width), width)
  }

  /** `(u >> 1) ^ -(u & 1)`, read as a signed number of `width` bits. */
  function DecodeZigzag(u: nat, width: nat): int
    requires 0 < width
  {
    var bits := if u % 2 == 0 then u / 2 else Complement(u / 2, width);
    if bits < Pow2(width - 1) then bits else bits - Pow2(width)
  }

  /** Zigzag is a bijection between the signed and the unsigned numbers of a width. */
  lemma ZigzagRoundTrip(n: int, width: nat)
    requires 0 < width && Signed(n, width)
    ensures 0 <= EncodeZigzag(n, width) < Pow2(width)
    ensures DecodeZigzag(EncodeZigzag(n, width), width) == n
  {
    if n >= 0 {
      DivModUnique(2 * n, 2, n, 0);
    } else {
      var m := -n - 1;
      DivModUnique(2 * m + 1, 2, m, 1);
      assert EncodeZigzag(n, width) == 2 * m + 1;
    }
  }

  lemma ZigzagBack(u: nat, width: nat)
    requires 0 < width && u < Pow2(width)
    ensures Signed(DecodeZigzag(u, width), width)
    ensures EncodeZigzag(DecodeZigzag(u, width), width) == u
  {
    assert u == 2 * (u / 2) + u % 2;
  }

  // ---------------------------------------------------------------------------
  // The encoding
  // ---------------------------------------------------------------------------

  function Varint(v: nat): (r: Bytes)
    ensures |r| >= 1
  {
    if v < 128 then [v] else [v % 128 + 128] + Varint(v / 128)
  }

  method WriteVarint(value: nat, buffer: Bytes) returns (r: Bytes)
    ensures r == buffer + Varint(value)
  {
    var v := value;
    r := buffer;
    while v >= 128
      invariant r + Varint(v) == buffer + Varint(value)
    {
      assert r + Varint(v) == r + [v % 128 + 128] + Varint(v / 128);
      r := r + [v % 128 + 128];
      v := v / 128;
    }
    r := r + [v];
  }

  datatype Parsed = Parsed(value: nat, rest: Bytes)

  /** `v << shift`, before anything is lost. */
  function Shifted(v: nat, shift: nat): nat
    decreases shift
  {
    if shift == 0 then v else Shifted(2 * v, shift - 1)
  }

  /** The seven bits of `byte`, shifted in 64 bits. */
  function Digit(byte: Byte, shift: nat): nat {
    Shifted(byte % 128, shift) % UINT64_WRAP
  }

  /** What `read_varint` computes from the bytes ahead.  The bits that come in lie above
      those already in `value`, so the bitwise or is a sum; bits above 64 are lost. */
  function ReadBits(s: Bytes, value: nat, shift: nat): Option<Parsed>
    decreases |s|
  {
    if s == [] || shift >= 64 then None
    else
      var value' := value + Digit(s[0], shift);
      if s[0] < 128 then Some(Parsed(value', s[1..])) else ReadBits(s[1..], value', shift + 7)
  }

  function Read(s: Bytes): Option<Parsed> {
    ReadBits(s, 0, 0)
  }

  method ReadVarint(buffer: Bytes, start: nat) returns (end: Option<nat>, value: nat)
    requires start <= |buffer|
    ensures end.None? <==> Read(buffer[start..]).None?
    ensures end.Some? ==>
      start < end.value <= |buffer| && Read(buffer[start..]) == Some(Parsed(value, buffer[end.value..]))
  {
    value := 0;
    var shift, at := 0, start;
    while at < |buffer| && shift < 64
      invariant start <= at <= |buffer|
      invariant ReadBits(buffer[at..], value, shift) == Read(buffer[start..])
      decreases |buffer| - at
    {
      var byte := buffer[at];
      assert buffer[at..][0] == byte && buffer[at..][1..] == buffer[at + 1..];
      at := at + 1;
      value := value + Digit(byte, shift);
      if byte < 128 {
        return Some(at), value;
      }
      shift := shift + 7;
    }
    end := None;
  }

  /** Shifted digit by digit, no bit of a 64-bit value is lost. */
  lemma {:induction false} ReadBitsVarint(v: nat, rest: Bytes, value: nat, shift: nat)
    requires Shifted(v, shift) < UINT64_WRAP && (v > 0 || shift == 0)
    ensures ReadBits(Varint(v) + rest, value, shift) == Some(Parsed(value + Shifted(v, shift), rest))
    decreases v
  {
    ShiftIsSmall(v, shift);
    Digits(v, shift);
    if v < 128 {
      ReadLast(v, rest, value, shift);
    } else {
      var value' := value + Digit(v % 128, shift);
      ReadBitsVarint(v / 128, rest, value', shift + 7);
      ReadContinued(v, rest, value, shift, Some(Parsed(value' + Shifted(v / 128, shift + 7), rest)));
    }
  }

  lemma ReadContinued(v: nat, rest: Bytes, value: nat, shift: nat, r: Option<Parsed>)
    requires shift < 64 && v >= 128 && Digit(v % 128, shift) == Digit(v % 128 + 128, shift)
    requires ReadBits(Varint(v / 128) + rest, value + Digit(v % 128, shift), shift + 7) == r
    ensures ReadBits(Varint(v) + rest, value, shift) == r
  {
    assert (Varint(v) + rest)[1..] == Varint(v / 128) + rest;
  }

  lemma ReadLast(b: Byte, rest: Bytes, value: nat, shift: nat)
    requires shift < 64 && b < 128
    ensures ReadBits([b] + rest, value, shift) == Some(Parsed(value + Digit(b, shift), rest))
  {
    assert ([b] + rest)[1..] == rest;
  }

  lemma {:induction false} ShiftedSum(v: nat, w: nat, shift: nat)
    ensures Shifted(v + w, shift) == Shifted(v, shift) + Shifted(w, shift)
    decreases shift
  {
    if shift > 0 {
      ShiftedSum(2 * v, 2 * w, shift - 1);
    }
  }

  lemma {:induction false} ShiftedSeven(v: nat, shift: nat)
    ensures Shifted(v, shift + 7) == Shifted(128 * v, shift)
  {
    assert Shifted(v, shift + 7) == Shifted(2 * v, shift + 6) == Shifted(4 * v, shift + 5);
    assert Shifted(4 * v, shift + 5) == Shifted(8 * v, shift + 4) == Shifted(16 * v, shift + 3);
    assert Shifted(16 * v, shift + 3) == Shifted(32 * v, shift + 2) == Shifted(64 * v, shift + 1);
  }

  lemma Digits(v: nat, shift: nat)
    requires Shifted(v, shift) < UINT64_WRAP
    ensures Shifted(v, shift) == Shifted(v / 128, shift + 7) + Digit(v % 128, shift)
    ensures Digit(v % 128, shift) == Digit(v % 128 + 128, shift)
  {
    ShiftedSeven(v / 128, shift);
    ShiftedSum(128 * (v / 128), v % 128, shift);
  }

  lemma {:induction false} ShiftedGrows(v: nat, shift: nat)
    requires v > 0
    ensures Shifted(v, shift) >= Pow2(shift)
    decreases shift
  {
    if shift > 0 {
      ShiftedSum(v, v, shift - 1);
      ShiftedGrows(v, shift - 1);
    }
  }

  lemma ShiftIsSmall(v: nat, shift: nat)
    requires Shifted(v, shift) < UINT64_WRAP && (v > 0 || shift == 0)
    ensures shift < 64
  {
    Pow2Is64();
    if v > 0 {
      ShiftedGrows(v, shift);
    }
    if shift > 64 {
      Pow2Rises(64, shift);
    }
  }

  /** Every 64-bit value is read back, and reading stops where its encoding ends. */
  lemma VarintRoundTrip(v: nat, rest: Bytes)
    requires v < UINT64_WRAP
    ensures Read(Varint(v) + rest) == Some(Parsed(v, rest))
  {
    ReadBitsVarint(v, rest, 0, 0);
  }

  /** A truncated encoding is never read as a value. */
  lemma {:induction false} TruncatedVarint(v: nat, k: nat, value: nat, shift: nat)
    requires k < |Varint(v)|
    ensures ReadBits(Varint(v)[..k], value, shift) == None
    decreases v
  {
    if k > 0 && shift < 64 {
      var s := Varint(v)[..k];
      assert s[1..] == Varint(v / 128)[..k - 1];
      TruncatedVarint(v / 128, k - 1, value + Digit(s[0], shift), shift + 7);
    }
  }

  /** A value that was read does not depend on the bytes behind it. */
  lemma {:induction false} ReadBitsMore(s: Bytes, more: Bytes, value: nat, shift: nat)
    requires ReadBits(s, value, shift).Some?
    ensures var r := ReadBits(s, value, shift).value;
      ReadBits(s + more, value, shift) == Some(Parsed(r.value, r.rest + more)) && |r.rest| < |s|
    decreases |s|
  {
    assert (s + more)[1..] == s[1..] + more;
    if s[0] >= 128 {
      ReadBitsMore(s[1..], more, value + Digit(s[0], shift), shift + 7);
    }
  }

  // ---------------------------------------------------------------------------
  // The size table
  // ---------------------------------------------------------------------------

  function BitLength(v: nat): nat {
    if v == 0 then 0 else 1 + BitLength(v / 2)
  }

  /** The table, eight bit lengths a row. */
  function SizeTable(bits: nat): nat
    requires bits <= 64
  {
    if bits < 8 then 1
    else if bits < 16 then 2
    else if bits < 24 then 3
    else if bits < 32 then 4
    else if bits < 40 then 5
    else if bits < 48 then 6
    else if bits < 56 then 7
    else if bits < 64 then 8
    else 9
  }

  lemma {:induction false} BitLengthBelow(v: nat, n: nat)
    ensures v < Pow2(n) <==> BitLength(v) <= n
  {
    if v > 0 && n > 0 {
      BitLengthBelow(v / 2, n - 1);
    }
  }

  /** `get_compact_int_size`. */
  function CompactSize(v: nat): nat
    requires v < UINT64_WRAP
  {
    Pow2Is64();
    BitLengthBelow(v, 64);
    SizeTable(BitLength(v))
  }

  lemma BitLengthSeven(v: nat)
    requires v >= 128
    ensures BitLength(v) == BitLength(v / 128) + 7
  {
    assert v / 2 / 2 == v / 4 && v / 4 / 2 == v / 8 && v / 8 / 2 == v / 16;
    assert v / 16 / 2 == v / 32 && v / 32 / 2 == v / 64 && v / 64 / 2 == v / 128;
    assert BitLength(v) == 1 + BitLength(v / 2) && BitLength(v / 2) == 1 + BitLength(v / 4);
    assert BitLength(v / 4) == 1 + BitLength(v / 8) && BitLength(v / 8) == 1 + BitLength(v / 16);
    assert BitLength(v / 16) == 1 + BitLength(v / 32) && BitLength(v / 32) == 1 + BitLength(v / 64);
  }

  /** An encoding takes one byte for every seven bits. */
  lemma {:induction false} VarintLength(v: nat)
    ensures |Varint(v)| == if v == 0 then 1 else (BitLength(v) + 6) / 7
  {
    if v >= 128 {
      VarintLength(v / 128);
      BitLengthSeven(v);
    } else if v > 0 {
      BitLengthBelow(v, 7);
      assert Pow2(7) == 128 by { Pow2Seven(0); }
    }
  }

  /** What zigzag is for: a number takes `k` bytes or fewer if and only if it is a signed
      number of seven bits for each, whatever its sign and the width of its type. */
  lemma SmallNumbersAreShort(n: int, width: nat, k: nat)
    requires 0 < width && 0 < k && Signed(n, width)
    ensures EncodeZigzag(n, width) >= 0
    ensures |Varint(EncodeZigzag(n, width))| <= k <==> Signed(n, 7 * k)
  {
    ZigzagRoundTrip(n, width);
    var u := EncodeZigzag(n, width);
    assert u == if n >= 0 then 2 * n else -2 * n - 1;
    assert Pow2(7 * k) == 2 * Pow2(7 * k - 1);
    BitLengthBelow(u, 7 * k);
    VarintLength(u);
  }

  /** The bit lengths for which the table, made for eight bits a byte, is right. */
  predicate TableAgrees(bits: nat) {
    bits <= 14 || 16 <= bits <= 21 || 24 <= bits <= 28 || 32 <= bits <= 35 || 40 <= bits <= 42
    || 48 <= bits <= 49 || bits == 56
  }

  lemma TableEntry(bits: nat)
    requires bits <= 64
    ensures SizeTable(bits) == bits / 8 + 1 <= (if bits == 0 then 1 else (bits + 6) / 7)
    ensures bits > 0 ==> (SizeTable(bits) == (bits + 6) / 7 <==> TableAgrees(bits))
  {
    if bits < 32 {
      assert TableAgrees(bits) <==> bits <= 14 || 16 <= bits <= 21 || 24 <= bits <= 28;
    }
  }

  /** The table never exceeds the length of the encoding, and equals it exactly there. */
  lemma CompactSizeIsLength(v: nat)
    requires v < UINT64_WRAP
    ensures 1 <= CompactSize(v) <= |Varint(v)|
    ensures CompactSize(v) == |Varint(v)| <==> TableAgrees(BitLength(v))
  {
    VarintLength(v);
    Pow2Is64();
    BitLengthBelow(v, 64);
    TableEntry(BitLength(v));
  }

  /** In terms of values: right below 2^14 and from 2^15 to 2^21, wrong in between. */
  lemma CompactSizeRanges(v: nat)
    requires v < 0x20_0000
    ensures CompactSize(v) == |Varint(v)| <==> v < 0x4000 || 0x8000 <= v
  {
    CompactSizeIsLength(v);
    Pow2Seven(0);
    Pow2Seven(7);
    Pow2Seven(14);
    BitLengthBelow(v, 14);
    BitLengthBelow(v, 15);
    BitLengthBelow(v, 21);
    assert Pow2(15) == 2 * Pow2(14);
  }
}
