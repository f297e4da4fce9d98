/** The growing byte buffer `octets`: an array that is copied into a larger one when it is
    full, with in-place replacement and removal. */
module ByteBuffer {
  import opened CompactInt
  import FrobSize
  import opened Machine

  /** No buffer is larger than what `frob_size` accepts. */
  const MAX_SIZE: nat := UINT64_WRAP / 2

  class Octets {
    var buf: array<Byte>
    var len: nat

    ghost predicate Valid()
      reads this
    {
      len <= buf.Length <= MAX_SIZE
    }

    ghost function Contents(): Bytes
      requires Valid()
      reads this, buf
    {
      buf[..len]
    }

    function FreeSpace(): nat
      requires Valid()
      reads this
    {
      buf.Length - len
    }

    constructor ()
      ensures Valid() && Contents() == [] && fresh(buf) && buf.Length == 16
    {
      buf := new Byte[16](_ => 0);
      len := 0;
    }

    /** `reserve`: a larger buffer with the same contents, if the present one is too small. */
    method Reserve(cap: nat)
      requires Valid() && cap <= MAX_SIZE
      modifies this
      ensures Valid() && Contents() == old(Contents()) && len == old(len)
      ensures buf.Length >= cap
      ensures if old(buf.Length) >= cap then buf == old(buf) else fresh(buf) && buf.Length == FrobSize.Size(cap)
      ensures forall i :: 0 <= i < old(buf.Length) && buf == old(buf) ==> buf[i] == old(buf[i])
    {
      if buf.Length >= cap {
        return;
      }
      var size := FrobSize.Compute(cap);
      FrobSize.SizeIsLeast(cap, 0);
      var tmp := new Byte[size.value](_ => 0);
      forall i | 0 <= i < len {
        tmp[i] := buf[i];
      }
      buf := tmp;
    }

    method Append(data: Bytes)
      requires Valid() && len + |data| <= MAX_SIZE
      modifies this, buf
      ensures Valid() && Contents() == old(Contents()) + data
      ensures if old(len) + |data| <= old(buf.Length) then buf == old(buf) else buf == old(buf) || fresh(buf)
      ensures buf.Length ==
        if old(len) + |data| <= old(buf.Length) then old(buf.Length) else FrobSize.Size(old(len) + |data|)
    {
      if |data| == 0 {
        return;
      }
      Reserve(len + |data|);
      forall i | 0 <= i < |data| {
        buf[len + i] := data[i];
      }
      len := len + |data|;
    }

    /** `memmove` within the buffer; the ranges may overlap. */
    method Move(dst: nat, src: nat, n: nat)
      requires dst + n <= buf.Length && src + n <= buf.Length
      modifies buf
      ensures forall i :: 0 <= i < buf.Length ==>
        buf[i] == if dst <= i < dst + n then old(buf[src + (i - dst)]) else old(buf[i])
    {
      forall i | 0 <= i < n {
        buf[dst + i] := buf[src + i];
      }
    }

    /** `replace`: writes over the bytes at `pos`, at most to the end. */
    method Replace(pos: nat, data: Bytes)
      requires Valid() && pos <= len
      modifies this, buf
      ensures Valid() && len == old(len) && buf == old(buf)
      ensures var n := if |data| <= len - pos then |data| else len - pos;
        Contents() == old(Contents())[..pos] + data[..n] + old(Contents())[pos + n..]
    {
      var n := if |data| <= len - pos then |data| else len - pos;
      forall i | 0 <= i < n {
        buf[pos + i] := data[i];
      }
    }

    /** `erase`; positions and lengths beyond the end are cut. */
    method Erase(pos: nat, n: nat)
      requires Valid()
      modifies this, buf
      ensures Valid() && buf == old(buf)
      ensures var at := if pos <= old(len) then pos else old(len);
        var k := if n <= old(len) - at then n else old(len) - at;
        Contents() == old(Contents())[..at] + old(Contents())[at + k..]
    {
      var at := if pos <= len then pos else len;
      var k := if n <= len - at then n else len - at;
      Move(at, at + k, len - at - k);
      len := len - k;
    }

    /** `fast_resize`: adds to the length without writing; the sum wraps at 64 bits. */
    method FastResize(n: nat)
      requires Valid() && (len + n) % UINT64_WRAP <= buf.Length
      modifies `len
      ensures Valid() && len == (old(len) + n) % UINT64_WRAP
    {
      len := (len + n) % UINT64_WRAP;
    }

    method Clear()
      requires Valid()
      modifies `len
      ensures Valid() && Contents() == []
    {
      len := 0;
    }
  }
}
