/** Frames on the wire: `protocol::encode`, which guesses how long the length field will be,
    packs the body behind it and then shifts the body, and `protocol::decode`. */
module Frames {
  import opened ByteBuffer
  import opened CompactInt
  import opened Machine
  import opened Options
  import opened Stream

  datatype Frame = Frame(id: nat, body: Bytes)

  const UINT32_WRAP: nat := 0x1_0000_0000
  const GUESS_SIZE: nat := 2048

  /** A protocol id has 32 bits; bodies stay far below the largest buffer. */
  predicate Sendable(f: Frame) {
    f.id < UINT32_WRAP && |f.body| < MAX_SIZE
  }

  /** The length field as `encode` leaves it: as many bytes of the encoded length as the
      size table says. */
  function LengthField(n: nat): (r: Bytes)
    requires n < UINT64_WRAP
    ensures |r| == CompactSize(n)
  {
    CompactSizeIsLength(n);
    Varint(n)[..CompactSize(n)]
  }

  function EncodeFrame(f: Frame): Bytes
    requires Sendable(f)
  {
    Varint(f.id) + (LengthField(|f.body|) + f.body)
  }

  // ---------------------------------------------------------------------------
  // encode
  // ---------------------------------------------------------------------------

  /** What shifting the body by the difference of two field lengths leaves in the buffer. */
  lemma ShiftedBody(before: Bytes, after: Bytes, start: nat, guess: nat, actual: nat, size: nat)
    requires |before| == start + guess + size && |after| >= start + actual + size
    requires forall i :: 0 <= i < start && i < |after| ==> after[i] == before[i]
    requires forall i :: start + actual <= i < start + actual + size ==> after[i] == before[i - actual + guess]
    ensures after[..start + actual + size][..start] == before[..start]
    ensures after[..start + actual + size][start + actual..] == before[start + guess..]
  {
  }

  /** Packs the body behind a gap of `guess` bytes, and then makes the gap as long as
      `actual`, the length of the length field. */
  method PackBody(os: OctetsStream, body: Bytes, junk: Bytes, actual: nat, ghost head: Bytes) returns (start: nat)
    requires os.Valid() && |junk| == 2 && 1 <= actual <= 9 && os.data.Contents() == head
    requires os.data.len + |body| + 16 <= MAX_SIZE
    modifies os.data, os.data.buf
    ensures os.Valid() && (os.data.buf == old(os.data.buf) || fresh(os.data.buf))
    ensures start == |head| && os.data.len == start + actual + |body|
    ensures os.data.Contents()[..start] == head && os.data.Contents()[start + actual..] == body
  {
    start := os.data.len;
    os.PushRaw(junk);
    var prev := os.data.len;
    os.PushRaw(body);
    assert os.data.Contents() == head + junk + body;
    FitLength(os, start, os.data.len - prev, actual, 2, body, head);
  }

  /** `encode`: whatever bytes stood in for the length field, and whether the body moved
      left, right or not at all, exactly the frame is appended. */
  method Encode(os: OctetsStream, f: Frame, junk: Bytes)
    requires os.Valid() && Sendable(f) && |junk| == CompactSize(GUESS_SIZE)
    requires os.data.len + |f.body| + 32 <= MAX_SIZE
    modifies os.data, os.data.buf
    ensures os.Valid() && (os.data.buf == old(os.data.buf) || fresh(os.data.buf))
    ensures os.data.Contents() == old(os.data.Contents()) + EncodeFrame(f)
  {
    IdIsShort(f.id);
    os.PushCompact(f.id);
    EncodeBody(os, f.body, junk);
    Assembled(old(os.data.Contents()), Varint(f.id), LengthField(|f.body|), f.body);
  }

  /** Everything after the id. */
  method EncodeBody(os: OctetsStream, body: Bytes, junk: Bytes)
    requires os.Valid() && |body| < MAX_SIZE && |junk| == CompactSize(GUESS_SIZE)
    requires os.data.len + |body| + 16 <= MAX_SIZE
    modifies os.data, os.data.buf
    ensures os.Valid() && (os.data.buf == old(os.data.buf) || fresh(os.data.buf))
    ensures os.data.Contents() == old(os.data.Contents()) + LengthField(|body|) + body
  {
    GuessIsTwo();
    CompactSizeIsLength(|body|);
    CompactSizeAtMost(|body|);
    var actual := CompactSize(|body|);
    var start := PackBody(os, body, junk, actual, os.data.Contents());
    FillField(os.data, start, |body|, actual);
  }

  /** Writes the length into its field: the first bytes of its encoding. */
  method FillField(data: Octets, start: nat, size: nat, actual: nat)
    requires data.Valid() && actual <= |Varint(size)| && start + actual <= data.len
    modifies data, data.buf
    ensures data.Valid() && data.buf == old(data.buf) && data.len == old(data.len)
    ensures data.Contents() ==
      old(data.Contents())[..start] + Varint(size)[..actual] + old(data.Contents())[start + actual..]
  {
    var buffer := WriteVarint(size, []);
    assert buffer == Varint(size);
    data.Replace(start, buffer[..actual]);
  }

  lemma Assembled(before: Bytes, id: Bytes, field: Bytes, body: Bytes)
    ensures before + id + field + body == before + (id + (field + body))
  {
  }

  lemma IdIsShort(id: nat)
    requires id < UINT32_WRAP
    ensures |Varint(id)| <= 5
  {
    VarintLength(id);
    BitLengthBelow(id, 32);
    Pow2Seven(0);
    Pow2Seven(7);
    Pow2Seven(14);
    Pow2Seven(21);
    assert Pow2(32) == 2 * Pow2(31) && Pow2(31) == 2 * Pow2(30) && Pow2(30) == 2 * Pow2(29) && Pow2(29) == 2 * Pow2(28);
  }

  lemma GuessIsTwo()
    ensures CompactSize(GUESS_SIZE) == 2
  {
    CompactSizeRanges(GUESS_SIZE);
    assert 2048 / 128 == 16;
    assert |Varint(16)| == 1;
    assert |Varint(2048)| == 2;
  }

  lemma CompactSizeAtMost(n: nat)
    requires n < UINT64_WRAP
    ensures CompactSize(n) <= 9
  {
  }

  /** A difference of sizes is an unsigned 64-bit number: adding it wraps to the right sum. */
  method AddDifference(x: nat, actual: nat, guess: nat) returns (r: nat)
    requires guess <= x && x + actual < UINT64_WRAP
    ensures r == x + actual - guess
  {
    var diff := (actual - guess) % UINT64_WRAP;
    r := (x + diff) % UINT64_WRAP;
  }

  method ResizeBy(data: Octets, actual: nat, guess: nat)
    requires data.Valid() && guess <= data.len && data.len + actual - guess <= data.buf.Length && actual <= 9
    modifies data`len
    ensures data.Valid() && data.len == old(data.len) + actual - guess
  {
    var diff := (actual - guess) % UINT64_WRAP;
    data.FastResize(diff);
  }

  /** Moves the body of `size` bytes behind a gap of `guess` bytes so that it stands behind
      a gap of `actual` bytes, in a buffer that is large enough. */
  method Shift(data: Octets, start: nat, guess: nat, actual: nat, size: nat)
    requires data.Valid() && data.len == start + guess + size && start + actual + size <= data.buf.Length
    requires actual <= 9
    modifies data, data.buf
    ensures data.Valid() && data.buf == old(data.buf) && data.len == start + actual + size
    ensures data.Contents()[..start] == old(data.Contents())[..start]
    ensures data.Contents()[start + actual..] == old(data.Contents())[start + guess..]
  {
    ghost var before := data.Contents();
    var dst := AddDifference(start + guess, actual, guess);
    data.Move(dst, start + guess, size);
    ghost var after := data.buf[..];
    ShiftedBody(before, after, start, guess, actual, size);
    ResizeBy(data, actual, guess);
    assert data.Contents() == after[..start + actual + size];
  }

  /** The branch of `encode` for a wrong guess. */
  method FitLength(os: OctetsStream, start: nat, size: nat, actual: nat, guess: nat, ghost body: Bytes,
      ghost head: Bytes)
    requires os.Valid() && size == |body| && start == |head| && actual <= 9
    requires os.data.len == start + guess + size && os.data.len + 9 <= MAX_SIZE
    requires os.data.Contents()[..start] == head && os.data.Contents()[start + guess..] == body
    requires os.pos <= start
    modifies os.data, os.data.buf
    ensures os.Valid() && (os.data.buf == old(os.data.buf) || fresh(os.data.buf))
    ensures os.data.len == start + actual + size
    ensures os.data.Contents()[..start] == head && os.data.Contents()[start + actual..] == body
  {
    var data := os.data;
    if actual != guess {
      var cap := AddDifference(data.len, actual, guess);
      data.Reserve(cap);
      Shift(data, start, guess, actual, size);
    }
  }

  // ---------------------------------------------------------------------------
  // decode
  // ---------------------------------------------------------------------------

  /** What a call of `decode` finds: nothing to read, a body that is not complete yet, a
      header that cannot be read (the session is closed), a protocol that is not known,
      or a frame. */
  datatype Received = NoData | Incomplete | Broken | Unknown | Got(frame: Frame)

  function FrameAhead(s: Bytes, known: nat -> bool): Received {
    if s == [] then NoData
    else
      match Read(s)
      case None => Broken
      case Some(p) =>
        match Read(p.rest)
        case None => Broken
        case Some(q) =>
          var id := p.value % UINT32_WRAP;
          if |q.rest| < q.value then Incomplete
          else if !known(id) then Unknown
          else Got(Frame(id, q.rest[..q.value]))
  }

  /** The unread bytes after the frame. */
  function BehindFrame(s: Bytes, known: nat -> bool): (r: Bytes)
    requires FrameAhead(s, known).Got?
  {
    var q := Read(Read(s).value.rest).value;
    q.rest[q.value..]
  }

  /** `decode`: only a complete frame of a known protocol moves the cursor. */
  method Decode(os: OctetsStream, known: nat -> bool) returns (r: Received)
    requires os.Valid()
    modifies os`pos, os`transpos
    ensures os.Valid() && os.data.Contents() == old(os.data.Contents())
    ensures r == FrameAhead(old(os.Unread()), known)
    ensures if r.Got? then os.Unread() == BehindFrame(old(os.Unread()), known) else os.pos == old(os.pos)
  {
    if !os.DataReady(1) {
      return NoData;
    }
    os.Begin();
    var id := os.PopCompact();
    if id.None? {
      os.Rollback();
      return Broken;
    }
    var size := os.PopCompact();
    if size.None? {
      os.Rollback();
      return Broken;
    }
    if !os.DataReady(size.value) {
      os.Rollback();
      return Incomplete;
    }
    if known(id.value % UINT32_WRAP) {
      var body := os.PopRaw(size.value);
      return Got(Frame(id.value % UINT32_WRAP, body.value));
    }
    os.Rollback();
    return Unknown;
  }

  // ---------------------------------------------------------------------------
  // Round trip
  // ---------------------------------------------------------------------------

  /** The length field says the length exactly if the size table is right about it. */
  predicate FieldIsWhole(f: Frame) {
    TableAgrees(BitLength(|f.body|))
  }

  /** A frame is read back, and the bytes behind it stay unread. */
  lemma FrameRoundTrip(f: Frame, rest: Bytes, known: nat -> bool)
    requires Sendable(f) && FieldIsWhole(f) && known(f.id)
    ensures FrameAhead(EncodeFrame(f) + rest, known) == Got(f)
    ensures BehindFrame(EncodeFrame(f) + rest, known) == rest
  {
    var n := |f.body|;
    CompactSizeIsLength(n);
    assert LengthField(n) == Varint(n);
    assert EncodeFrame(f) + rest == Varint(f.id) + (Varint(n) + (f.body + rest));
    VarintRoundTrip(f.id, Varint(n) + (f.body + rest));
    VarintRoundTrip(n, f.body + rest);
    assert (f.body + rest)[..n] == f.body && (f.body + rest)[n..] == rest;
  }

  /** A complete frame of a protocol that is not known is left where it is, and is no error. */
  lemma UnknownFrameStays(f: Frame, rest: Bytes, known: nat -> bool)
    requires Sendable(f) && FieldIsWhole(f) && !known(f.id)
    ensures FrameAhead(EncodeFrame(f) + rest, known) == Unknown
  {
    var n := |f.body|;
    CompactSizeIsLength(n);
    assert LengthField(n) == Varint(n);
    assert EncodeFrame(f) + rest == Varint(f.id) + (Varint(n) + (f.body + rest));
    VarintRoundTrip(f.id, Varint(n) + (f.body + rest));
    VarintRoundTrip(n, f.body + rest);
  }

  /** A number that starts in an unfinished encoding takes at least one byte of what follows. */
  lemma {:induction false} ReadBitsPast(cut: Bytes, body: Bytes, value: nat, shift: nat)
    requires ReadBits(cut, value, shift) == None && ReadBits(cut + body, value, shift).Some?
    ensures |ReadBits(cut + body, value, shift).value.rest| < |body|
    decreases |cut|
  {
    if cut == [] {
      assert cut + body == body;
      ReadBitsMore(body, [], value, shift);
    } else {
      assert (cut + body)[1..] == cut[1..] + body;
      ReadBitsPast(cut[1..], body, value + Digit(cut[0], shift), shift + 7);
    }
  }

  /** Exactly when the size table is right about its length, a frame is read back. */
  lemma ReadBackIffFieldIsWhole(f: Frame, known: nat -> bool)
    requires Sendable(f) && known(f.id)
    ensures FrameAhead(EncodeFrame(f), known) == Got(f) <==> FieldIsWhole(f)
  {
    var s, n := EncodeFrame(f), |f.body|;
    assert s + [] == s;
    if FieldIsWhole(f) {
      FrameRoundTrip(f, [], known);
    } else {
      CompactSizeIsLength(n);
      var field := LengthField(n);
      TruncatedVarint(n, |field|, 0, 0);
      VarintRoundTrip(f.id, field + f.body);
      if Read(field + f.body).Some? {
        ReadBitsPast(field, f.body, 0, 0);
      }
    }
  }

  /** A body of 2^14 bytes is the shortest that is not read back. */
  lemma ShortestLostBody(id: nat, body: Bytes, known: nat -> bool)
    requires id < UINT32_WRAP && known(id) && |body| < 0x20_0000
    ensures FrameAhead(EncodeFrame(Frame(id, body)), known) == Got(Frame(id, body))
      <==> |body| < 0x4000 || 0x8000 <= |body|
  {
    ReadBackIffFieldIsWhole(Frame(id, body), known);
    CompactSizeIsLength(|body|);
    CompactSizeRanges(|body|);
  }
}
