/** `octetsstream`: a buffer with a read cursor and a transaction mark.  Its methods are
    proved against the codec on values. */
module Stream {
  import opened Arith
  import opened ByteBuffer
  import opened CompactInt
  import opened Machine
  import opened Marshal
  import opened Options

  const SHRINK_AT: nat := 0x100000

  /** The check of the announced length, `_pos + n > _data.size()`, wraps at 64 bits: it
      refuses exactly the lengths that do not fit if and only if the sum does not wrap. */
  lemma LengthCheckIsExact(pos: nat, n: nat, size: nat)
    requires pos <= size < UINT64_WRAP && n < UINT64_WRAP
    ensures ((pos + n) % UINT64_WRAP > size <==> pos + n > size) <==> pos + n < UINT64_WRAP
  {
    if pos + n >= UINT64_WRAP {
      DivModUnique(pos + n, UINT64_WRAP, 1, pos + n - UINT64_WRAP);
    } else {
      DivModUnique(pos + n, UINT64_WRAP, 0, pos + n);
    }
  }

  class OctetsStream {
    const data: Octets
    var pos: nat
    var transpos: nat

    ghost predicate Valid()
      reads this, data
    {
      data.Valid() && transpos <= pos <= data.len
    }

    ghost function Unread(): Bytes
      requires Valid()
      reads this, data, data.buf
    {
      data.Contents()[pos..]
    }

    lemma UnreadLength()
      requires Valid()
      ensures |Unread()| == data.len - pos
    {
    }

    constructor ()
      ensures Valid() && Unread() == [] && data.Contents() == []
      ensures fresh(data) && fresh(data.buf) && data.buf.Length == 16 && pos == 0
    {
      data := new Octets();
      pos, transpos := 0, 0;
    }

    function DataReady(n: nat): bool
      requires Valid()
      reads this, data
    {
      data.len - pos >= n
    }

    // -------------------------------------------------------------------------
    // Bytes and integers
    // -------------------------------------------------------------------------

    method PushRaw(bytes: Bytes)
      requires Valid() && data.len + |bytes| <= MAX_SIZE
      modifies data, data.buf
      ensures Valid() && (data.buf == old(data.buf) || fresh(data.buf))
      ensures data.Contents() == old(data.Contents()) + bytes
    {
      data.Append(bytes);
    }

    /** `push_compact`. */
    method PushCompact(value: nat)
      requires Valid() && data.len + |Varint(value)| <= MAX_SIZE
      modifies data, data.buf
      ensures Valid() && (data.buf == old(data.buf) || fresh(data.buf))
      ensures data.Contents() == old(data.Contents()) + Varint(value)
    {
      var buffer := WriteVarint(value, []);
      data.Append(buffer);
    }

    /** `pop_compact`; None where the source throws. */
    method PopCompact() returns (r: Option<nat>)
      requires Valid()
      modifies `pos
      ensures Valid() && data.Contents() == old(data.Contents())
      ensures r.None? ==> Read(old(Unread())) == None
      ensures r.Some? ==> Read(old(Unread())) == Some(Parsed(r.value, Unread()))
    {
      var end, value := ReadVarint(data.buf[..data.len], pos);
      if end.None? {
        return None;
      }
      pos := end.value;
      return Some(value);
    }

    /** The sum is unbounded here; `LengthCheckIsExact` says when that makes no difference. */
    method PopRaw(n: nat) returns (r: Option<Bytes>)
      requires Valid()
      modifies `pos
      ensures Valid() && data.Contents() == old(data.Contents())
      ensures r.None? <==> |old(Unread())| < n
      ensures r.Some? ==> r.value == old(Unread())[..n] && Unread() == old(Unread())[n..]
    {
      if pos + n > data.len {
        return None;
      }
      var bytes := data.buf[pos..pos + n];
      pos := pos + n;
      return Some(bytes);
    }

    // -------------------------------------------------------------------------
    // Transactions
    // -------------------------------------------------------------------------

    method Begin()
      requires Valid()
      modifies `transpos
      ensures Valid() && transpos == pos
    {
      transpos := pos;
    }

    method Rollback()
      requires Valid()
      modifies `pos
      ensures Valid() && pos == transpos
    {
      pos := transpos;
    }

    /** `try_shrink`: drops the bytes already read; the unread ones stay. */
    method TryShrink()
      requires Valid()
      modifies this, data, data.buf
      ensures Valid() && data.buf == old(data.buf) && Unread() == old(Unread())
      ensures if old(pos) > SHRINK_AT then pos == 0 && data.len == |old(Unread())|
              else pos == old(pos) && data.len == old(data.len)
    {
      if pos > SHRINK_AT {
        data.Erase(0, pos);
        pos, transpos := 0, 0;
      }
    }

    // -------------------------------------------------------------------------
    // Typed values
    // -------------------------------------------------------------------------

    method PushCounted(n: nat, bytes: Bytes)
      requires Valid() && data.len + |Varint(n) + bytes| <= MAX_SIZE
      modifies data, data.buf
      ensures Valid() && (data.buf == old(data.buf) || fresh(data.buf))
      ensures data.Contents() == old(data.Contents()) + (Varint(n) + bytes)
    {
      PushCompact(n);
      PushRaw(bytes);
    }

    lemma PairIs(v: Val, a: Ty, b: Ty)
      requires HasType(v, TPair(a, b))
      ensures v.VPair? && HasType(v.first, a) && HasType(v.second, b)
      ensures Encode(v, TPair(a, b)) == Encode(v.first, a) + Encode(v.second, b)
    {
    }

    /** `push` of a pair. */
    method PushPair(v: Val, a: Ty, b: Ty)
      requires Valid() && HasType(v, TPair(a, b)) && data.len + |Encode(v, TPair(a, b))| <= MAX_SIZE
      modifies data, data.buf
      ensures Valid() && (data.buf == old(data.buf) || fresh(data.buf))
      ensures data.Contents() == old(data.Contents()) + Encode(v, TPair(a, b))
      decreases TPair(a, b), 0
    {
      hide Encode, HasType;
      PairIs(v, a, b);
      Push(v.first, a);
      Push(v.second, b);
    }

    /** `push` of a value. */
    method Push(v: Val, ty: Ty)
      requires Valid() && HasType(v, ty) && data.len + |Encode(v, ty)| <= MAX_SIZE
      modifies data, data.buf
      ensures Valid() && (data.buf == old(data.buf) || fresh(data.buf))
      ensures data.Contents() == old(data.Contents()) + Encode(v, ty)
      decreases ty, 1
    {
      match ty
      case TInt(width, signed) =>
        PushCompact(if signed then EncodeZigzag(v.n, width) else v.n);
      case TPod(_) => PushRaw(Reverse(v.bytes));
      case TOctets =>
        PushCounted(|v.bytes|, v.bytes);
      case TPodVec(unit) =>
        PushCounted(|v.bytes| / unit, v.bytes);
      case TPair(a, b) =>
        PushPair(v, a, b);
      case TSeq(_, elem) =>
        PushCompact(|v.items|);
        PushItems(v.items, elem);
    }

    lemma {:induction false} EncodeSplit(items: seq<Val>, elem: Ty, i: nat)
      requires i < |items| && forall k :: 0 <= k < |items| ==> HasType(items[k], elem)
      ensures EncodeItems(items[i..], elem) == Encode(items[i], elem) + EncodeItems(items[i + 1..], elem)
    {
      assert items[i..][0] == items[i] && items[i..][1..] == items[i + 1..];
    }

    method PushOne(items: seq<Val>, elem: Ty, i: nat, ghost goal: Bytes)
      requires Valid() && i < |items| && forall k :: 0 <= k < |items| ==> HasType(items[k], elem)
      requires data.Contents() + EncodeItems(items[i..], elem) == goal && |goal| <= MAX_SIZE
      modifies data, data.buf
      ensures Valid() && (data.buf == old(data.buf) || fresh(data.buf))
      ensures data.Contents() + EncodeItems(items[i + 1..], elem) == goal
      decreases elem, 2
    {
      EncodeSplit(items, elem, i);
      Push(items[i], elem);
    }

    /** The loop over the elements of a container. */
    method PushItems(items: seq<Val>, elem: Ty)
      requires Valid() && forall i :: 0 <= i < |items| ==> HasType(items[i], elem)
      requires data.len + |EncodeItems(items, elem)| <= MAX_SIZE
      modifies data, data.buf
      ensures Valid() && (data.buf == old(data.buf) || fresh(data.buf))
      ensures data.Contents() == old(data.Contents()) + EncodeItems(items, elem)
      decreases elem, 3
    {
      var i := 0;
      ghost var goal := data.Contents() + EncodeItems(items, elem);
      assert items[0..] == items;
      while i < |items|
        invariant 0 <= i <= |items| && Valid() && (data.buf == old(data.buf) || fresh(data.buf))
        invariant data.Contents() + EncodeItems(items[i..], elem) == goal && |goal| <= MAX_SIZE
      {
        PushOne(items, elem, i, goal);
        i := i + 1;
      }
    }

    /** `pop` into a variable that holds `into`. */
    method Pop(ty: Ty, into: Val) returns (r: Option<Val>)
      requires Valid()
      modifies `pos
      ensures Valid() && data.Contents() == old(data.Contents())
      ensures r.None? ==> Decode(ty, into, old(Unread())) == None
      ensures r.Some? ==> Decode(ty, into, old(Unread())) == Some(Decoded(r.value, Unread()))
      decreases ty, 1
    {
      match ty
      case TInt(width, signed) =>
        var u := PopCompact();
        return if u.None? then None else Some(VInt(Narrow(u.value, width, signed)));
      case TPod(size) =>
        var bytes := PopRaw(size);
        return if bytes.None? then None else Some(VBytes(Reverse(bytes.value)));
      case TOctets =>
        var size := PopCompact();
        if size.None? { return None; }
        var bytes := PopRaw(size.value);
        return if bytes.None? then None else Some(VBytes(into.Raw() + bytes.value));
      case TPodVec(unit) =>
        var size := PopCompact();
        if size.None? { return None; }
        var bytes := PopRaw(size.value * unit);
        return if bytes.None? then None else Some(VBytes([] + bytes.value));
      case TPair(a, b) =>
        var first := Pop(a, into.Fst());
        if first.None? { return None; }
        var second := Pop(b, into.Snd());
        return if second.None? then None else Some(VPair(first.value, second.value));
      case TSeq(mode, elem) =>
        var size := PopCompact();
        if size.None? { return None; }
        r := PopItems(elem, mode, size.value, into.Items());
    }

    method PopItems(elem: Ty, mode: Mode, n: nat, into: seq<Val>) returns (r: Option<Val>)
      requires Valid()
      modifies `pos
      ensures Valid() && data.Contents() == old(data.Contents())
      ensures r.None? ==> DecodeItems(elem, mode, n, into, old(Unread())) == None
      ensures r.Some? ==> DecodeItems(elem, mode, n, into, old(Unread())) == Some(Decoded(r.value, Unread()))
      ensures r.Some? ==> ItemsTaken(elem, mode, n, into, old(Unread()), r.value, Unread())
      decreases elem, 2
    {
      var i, items := 0, into;
      while i < n
        invariant 0 <= i <= n && Valid() && data.Contents() == old(data.Contents())
        invariant DecodeItems(elem, mode, n - i, items, Unread()) == DecodeItems(elem, mode, n, into, old(Unread()))
      {
        var x := Pop(elem, Empty(elem));
        if x.None? { return None; }
        items := Insert(mode, items, x.value);
        i := i + 1;
      }
      ItemsAreTaken(elem, mode, n, into, old(Unread()), VSeq(items), Unread());
      return Some(VSeq(items));
    }
  }
}
