/** The ring buffer as a bounded queue of bytes. */
module RingBuffer {
  import opened Arith
  import opened Machine

  /** A position that may lie one round ahead. */
  function Wrap(x: nat, n: nat): nat
    requires x < 2 * n
  {
    if x < n then x else x - n
  }

  /** The `count` bytes from position `start` on, round the end. */
  function Ring(data: Bytes, start: nat, count: nat): (r: Bytes)
    requires start < |data| && count <= |data|
    ensures |r| == count && forall i :: 0 <= i < count ==> r[i] == data[Wrap(start + i, |data|)]
  {
    if count == 0 then [] else Ring(data, start, count - 1) + [data[Wrap(start + count - 1, |data|)]]
  }

  /** The cursors of the source are remainders. */
  lemma WrapIsRemainder(x: nat, n: nat)
    requires x < 2 * n
    ensures x % n == Wrap(x, n)
  {
    if x < n {
      DivModUnique(x, n, 0, x);
    } else {
      DivModUnique(x, n, 1, x - n);
    }
  }

  /** `(cursor + step) % n`. */
  method Advance(cursor: nat, step: nat, n: nat) returns (r: nat)
    requires 0 < n && cursor + step <= n
    ensures r == Wrap(cursor + step, n)
  {
    WrapIsRemainder(cursor + step, n);
    r := (cursor + step) % n;
  }

  class RingBuffer {
    const data: array<Byte>
    var writeCursor: nat
    var readCursor: nat
    var size: nat

    ghost predicate Valid()
      reads this
    {
      && size <= data.Length && readCursor < data.Length
      && writeCursor == Wrap(readCursor + size, data.Length)
    }

    ghost function Contents(): Bytes
      requires Valid()
      reads this, data
    {
      Ring(data[..], readCursor, size)
    }

    constructor (n: nat)
      requires 0 < n
      ensures Valid() && Contents() == [] && data.Length == n && fresh(data)
    {
      data := new Byte[n](_ => 0);
      writeCursor, readCursor, size := 0, 0, 0;
    }

    /** `write`: appends the longest prefix that fits. */
    method Write(src: Bytes) returns (written: nat)
      requires Valid()
      modifies this, data
      ensures Valid() && written == Min(data.Length - old(size), |src|)
      ensures Contents() == old(Contents()) + src[..written]
    {
      var length := Min(data.Length - size, |src|);
      written := 0;
      while written < length
        invariant written <= length && readCursor == old(readCursor) && size == old(size)
        invariant writeCursor == Wrap(readCursor + size + written, data.Length)
        invariant Ring(data[..], readCursor, size + written) == old(Contents()) + src[..written]
      {
        written := WritePiece(src, written, length);
      }
      size := size + written;
    }

    /** The copy of one piece. */
    method Fill(at: nat, piece: Bytes)
      requires at < data.Length && at + |piece| <= data.Length
      modifies data
      ensures Overwritten(old(data[..]), data[..], at, piece)
    {
      forall i | 0 <= i < |piece| {
        data[at + i] := piece[i];
      }
    }

    /** One turn of the loop of `write`: up to the end of the array. */
    method WritePiece(src: Bytes, written: nat, length: nat) returns (written': nat)
      requires readCursor < data.Length && size + length <= data.Length && written < length <= |src|
      requires writeCursor == Wrap(readCursor + size + written, data.Length)
      modifies `writeCursor, data
      ensures written < written' <= length
      ensures writeCursor == Wrap(readCursor + size + written', data.Length)
      ensures Ring(data[..], readCursor, size + written') ==
        old(Ring(data[..], readCursor, size + written)) + src[written..written']
    {
      hide Ring;
      var n := Min(data.Length - writeCursor, length - written);
      var piece := src[written..written + n];
      ghost var before := data[..];
      Fill(writeCursor, piece);
      ghost var after := data[..];
      PieceAppends(before, after, readCursor, size + written, piece);
      writeCursor := Advance(writeCursor, n, data.Length);
      written' := written + n;
      assert data[..] == after;
    }

    /** `read`: removes the oldest bytes. */
    method Read(length: nat) returns (dest: Bytes)
      requires Valid()
      modifies `readCursor, `size
      ensures Valid() && |dest| == Min(old(size), length)
      ensures old(Contents()) == dest + Contents()
    {
      hide Ring;
      var wanted := Min(size, length);
      dest := [];
      while |dest| < wanted
        invariant |dest| <= wanted && size == old(size) && readCursor < data.Length
        invariant Wrap(readCursor + (size - |dest|), data.Length) == writeCursor
        invariant old(Contents()) == dest + Ring(data[..], readCursor, size - |dest|)
      {
        ghost var all, taken := Ring(data[..], readCursor, size - |dest|), dest;
        var piece := ReadPiece(wanted - |dest|, size - |dest|);
        dest := dest + piece;
        TakenBefore(old(Contents()), taken, all, piece, Ring(data[..], readCursor, size - |dest|));
      }
      size := size - |dest|;
    }

    /** One turn of the loop of `read`: up to the end of the array. */
    method ReadPiece(wanted: nat, count: nat) returns (piece: Bytes)
      requires readCursor < data.Length && 0 < wanted <= count <= data.Length
      modifies `readCursor
      ensures 0 < |piece| <= wanted && readCursor < data.Length
      ensures Wrap(readCursor + (count - |piece|), data.Length) == old(Wrap(readCursor + count, data.Length))
      ensures old(Ring(data[..], readCursor, count)) == piece + Ring(data[..], readCursor, count - |piece|)
    {
      var n := Min(data.Length - readCursor, wanted);
      piece := data[readCursor..readCursor + n];
      readCursor := Advance(readCursor, n, data.Length);
    }

    method Reset()
      requires Valid()
      modifies `writeCursor, `readCursor, `size
      ensures Valid() && Contents() == []
    {
      writeCursor, readCursor, size := 0, 0, 0;
    }
  }

  /** `whole` is what was taken and the rest, and a piece of the rest is taken too. */
  lemma TakenBefore(whole: Bytes, taken: Bytes, rest: Bytes, piece: Bytes, rest': Bytes)
    requires whole == taken + rest && rest == piece + rest'
    ensures whole == taken + piece + rest'
  {
  }

  /** `piece` was written at position `at`, and nothing elsewhere. */
  ghost predicate Overwritten(before: Bytes, after: Bytes, at: nat, piece: Bytes) {
    && |before| == |after| && at + |piece| <= |before|
    && forall i :: 0 <= i < |before| ==>
         after[i] == if at <= i < at + |piece| then piece[i - at] else before[i]
  }

  /** Bytes written from the write cursor on, not beyond the end of the array, extend the ring. */
  lemma PieceAppends(before: Bytes, after: Bytes, start: nat, count: nat, piece: Bytes)
    requires start < |before| == |after| && count + |piece| <= |before| && start + count < 2 * |before|
    requires Overwritten(before, after, Wrap(start + count, |before|), piece)
    ensures Ring(after, start, count + |piece|) == Ring(before, start, count) + piece
  {
    var n := |before|;
    var r := Ring(after, start, count + |piece|);
    forall i | 0 <= i < count + |piece|
      ensures r[i] == (Ring(before, start, count) + piece)[i]
    {
      var at, from := Wrap(start + i, n), Wrap(start + count, n);
      if i < count {
        assert !(0 <= at - from < |piece|);
      } else {
        assert at == from + (i - count);
      }
    }
  }

  // ---------------------------------------------------------------------------
  // Runs
  // ---------------------------------------------------------------------------

  datatype Op = Put(bytes: Bytes) | Take(length: nat) | Clear

  /** A bounded queue with everything that was ever handed out, and everything that was ever
      accepted but for the bytes a `reset` dropped. */
  datatype Queue = Queue(held: Bytes, kept: Bytes, handedOut: Bytes)

  function Apply(q: Queue, n: nat, op: Op): Queue
    requires |q.held| <= n && |q.held| <= |q.kept|
  {
    match op
    case Put(bytes) =>
      var k := Min(n - |q.held|, |bytes|);
      Queue(q.held + bytes[..k], q.kept + bytes[..k], q.handedOut)
    case Take(length) =>
      var k := Min(|q.held|, length);
      Queue(q.held[k..], q.kept, q.handedOut + q.held[..k])
    case Clear => Queue([], q.kept[..|q.kept| - |q.held|], q.handedOut)
  }

  function ApplyAll(n: nat, ops: seq<Op>): (q: Queue)
    ensures |q.held| <= n && |q.held| <= |q.kept|
  {
    if ops == [] then Queue([], [], []) else Apply(ApplyAll(n, ops[..|ops| - 1]), n, ops[|ops| - 1])
  }

  lemma ApplyKeepsOrder(q: Queue, n: nat, op: Op)
    requires |q.held| <= n && |q.held| <= |q.kept| && q.handedOut + q.held == q.kept
    ensures Apply(q, n, op).handedOut + Apply(q, n, op).held == Apply(q, n, op).kept
  {
    match op
    case Put(bytes) =>
      var k := Min(n - |q.held|, |bytes|);
      assert q.handedOut + (q.held + bytes[..k]) == q.handedOut + q.held + bytes[..k];
    case Take(length) =>
      var k := Min(|q.held|, length);
      assert q.held == q.held[..k] + q.held[k..];
    case Clear =>
      assert q.handedOut + [] == q.kept[..|q.kept| - |q.held|];
  }

  /** First in, first out: over any run the bytes handed out, followed by those held, are
      the bytes accepted and not dropped by a `reset`, in order. */
  lemma {:induction false} FirstInFirstOut(n: nat, ops: seq<Op>)
    ensures var q := ApplyAll(n, ops); q.handedOut + q.held == q.kept && |q.held| <= n
  {
    if ops != [] {
      FirstInFirstOut(n, ops[..|ops| - 1]);
      ApplyKeepsOrder(ApplyAll(n, ops[..|ops| - 1]), n, ops[|ops| - 1]);
    }
  }

  /** One operation on the buffer does what it does on the queue. */
  method RunOne(ring: RingBuffer, op: Op, ghost q: Queue) returns (out: Bytes)
    requires ring.Valid() && ring.Contents() == q.held && |q.held| <= |q.kept|
    modifies ring, ring.data
    ensures ring.Valid()
    ensures var q' := Apply(q, ring.data.Length, op); ring.Contents() == q'.held && q'.handedOut == q.handedOut + out
  {
    match op {
      case Put(bytes) =>
        var written := ring.Write(bytes);
        out := [];
      case Take(length) =>
        out := ring.Read(length);
        assert q.held[..|out|] == out && q.held[|out|..] == ring.Contents();
      case Clear =>
        ring.Reset();
        out := [];
    }
  }

  /** The buffer does what the queue does. */
  method RunOps(n: nat, ops: seq<Op>) returns (handedOut: Bytes, held: nat)
    requires 0 < n
    ensures handedOut == ApplyAll(n, ops).handedOut && held == |ApplyAll(n, ops).held|
  {
    var ring := new RingBuffer(n);
    handedOut := [];
    var i := 0;
    while i < |ops|
      invariant i <= |ops| && ring.Valid() && fresh(ring) && fresh(ring.data) && ring.data.Length == n
      invariant ring.Contents() == ApplyAll(n, ops[..i]).held && handedOut == ApplyAll(n, ops[..i]).handedOut
    {
      var out := RunOne(ring, ops[i], ApplyAll(n, ops[..i]));
      handedOut := handedOut + out;
      assert ops[..i + 1][..i] == ops[..i];
      i := i + 1;
    }
    assert ops[..|ops|] == ops;
    held := ring.size;
  }
}
