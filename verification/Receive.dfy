/** The receiving side of a session: bytes arrive in arbitrary chunks and are cut into frames
    by repeated calls of `decode`. */
module Receive {
  import opened ByteBuffer
  import opened CompactInt
  import opened Frames
  import opened Machine
  import opened Stream

  // ---------------------------------------------------------------------------
  // One call of on_recv
  // ---------------------------------------------------------------------------

  datatype Drained = Drained(frames: seq<Frame>, rest: Bytes, broken: bool)

  lemma {:induction false} FrameTakesBytes(s: Bytes, known: nat -> bool)
    requires FrameAhead(s, known).Got?
    ensures |BehindFrame(s, known)| < |s|
  {
    var p := Read(s).value;
    ReadBitsMore(s, [], 0, 0);
    ReadBitsMore(p.rest, [], 0, 0);
  }

  /** Frames are taken as long as `decode` returns one. */
  function Drain(s: Bytes, known: nat -> bool): Drained
    decreases |s|
  {
    match FrameAhead(s, known)
    case Got(f) =>
      FrameTakesBytes(s, known);
      var d := Drain(BehindFrame(s, known), known);
      Drained([f] + d.frames, d.rest, d.broken)
    case r => Drained([], s, r.Broken?)
  }

  lemma DrainStep(s: Bytes, known: nat -> bool)
    ensures var r := FrameAhead(s, known); var d := Drain(s, known);
      if r.Got? then
        var d' := Drain(BehindFrame(s, known), known);
        d.frames == [r.frame] + d'.frames && d.rest == d'.rest && d.broken == d'.broken && |BehindFrame(s, known)| < |s|
      else d == Drained([], s, r.Broken?)
  {
    if FrameAhead(s, known).Got? {
      FrameTakesBytes(s, known);
    }
  }

  /** What a session holds.  `pos` bytes at the start of the stream buffer are already read
      and still occupy it; `readbuf` holds what has been received but not appended; `closing`
      says that the state of the session is CLOSING. */
  datatype Inbox = Inbox(capacity: nat, pos: nat, unread: Bytes, readbuf: Bytes, delivered: seq<Frame>, closing: bool) {
    predicate Shaped() { pos + |unread| <= capacity }
    function Room(): nat requires Shaped() { capacity - (pos + |unread|) }
    /** How many received bytes the next call appends. */
    function Take(): (k: nat)
      requires Shaped()
      ensures k <= |readbuf|
    {
      if |readbuf| <= Room() then |readbuf| else Room()
    }
  }

  function Arrive(b: Inbox, chunk: Bytes): Inbox {
    b.(readbuf := b.readbuf + chunk)
  }

  lemma {:induction false} DrainShortens(s: Bytes, known: nat -> bool)
    ensures |Drain(s, known).rest| <= |s|
    decreases |s|
  {
    if FrameAhead(s, known).Got? {
      FrameTakesBytes(s, known);
      DrainShortens(BehindFrame(s, known), known);
    }
  }

  /** `on_recv`.  It begins by setting the state to RECVING, whatever it was. */
  function OnRecv(b: Inbox, known: nat -> bool): (r: Inbox)
    requires b.Shaped()
    ensures r.Shaped() && r.capacity == b.capacity
  {
    var k := b.Take();
    var ahead := b.unread + b.readbuf[..k];
    var d := Drain(ahead, known);
    DrainShortens(ahead, known);
    var pos := b.pos + |ahead| - |d.rest|;
    Inbox(b.capacity, if pos > SHRINK_AT then 0 else pos, d.rest, b.readbuf[k..],
          b.delivered + d.frames, d.broken)
  }

  /** `on_send` sets the state to SENDING, whatever it was. */
  function OnSend(b: Inbox): Inbox {
    b.(closing := false)
  }

  class Session {
    const reados: OctetsStream
    var readbuf: Bytes
    var delivered: seq<Frame>   // the protocols that were handed to the thread pool, in order
    var closing: bool           // the state is CLOSING

    ghost predicate Valid()
      reads this, reados, reados.data
    {
      reados.Valid()
    }

    ghost function Value(): (r: Inbox)
      requires Valid()
      reads this, reados, reados.data, reados.data.buf
      ensures r.Shaped()
    {
      Inbox(reados.data.buf.Length, reados.pos, reados.Unread(), readbuf, delivered, closing)
    }

    constructor (size: nat)
      requires size <= MAX_SIZE
      ensures Valid() && Value().unread == [] && readbuf == [] && delivered == [] && !closing && Value().pos == 0
      ensures fresh(reados) && fresh(reados.data) && fresh(reados.data.buf)
    {
      reados := new OctetsStream();
      readbuf, delivered, closing := [], [], false;
      new;
      reados.data.Reserve(size);
    }

    /** Received bytes are appended as far as they fit without growing the buffer. */
    method Refill()
      requires Valid()
      modifies `readbuf, reados.data, reados.data.buf
      ensures Valid() && reados.data.buf == old(reados.data.buf)
      ensures reados.Unread() == old(reados.Unread()) + old(readbuf)[..old(Value()).Take()]
      ensures readbuf == old(readbuf)[old(Value()).Take()..]
    {
      var n := if |readbuf| <= reados.data.FreeSpace() then |readbuf| else reados.data.FreeSpace();
      reados.data.Append(readbuf[..n]);
      readbuf := readbuf[n..];
    }

    /** The loop over `decode`. */
    method TakeFrames(known: nat -> bool)
      requires Valid()
      modifies `delivered, `closing, reados
      ensures Valid() && reados.data.Contents() == old(reados.data.Contents())
      ensures delivered == old(delivered) + Drain(old(reados.Unread()), known).frames
      ensures reados.Unread() == Drain(old(reados.Unread()), known).rest
      ensures closing == (old(closing) || Drain(old(reados.Unread()), known).broken)
    {
      ghost var goal := Drain(reados.Unread(), known);
      var more := true;
      while more
        invariant Valid() && reados.data.Contents() == old(reados.data.Contents())
        invariant Remaining(more, old(delivered), old(closing), goal, known)
        decreases more, |reados.Unread()|
      {
        more := TakeOne(old(delivered), old(closing), goal, known);
      }
    }

    /** What is still to be taken completes what has been taken. */
    ghost predicate Remaining(more: bool, taken: seq<Frame>, wasClosing: bool, goal: Drained, known: nat -> bool)
      requires Valid()
      reads this, reados, reados.data, reados.data.buf
    {
      if more then
        var d := Drain(reados.Unread(), known);
        && delivered + d.frames == taken + goal.frames && d.rest == goal.rest
        && d.broken == goal.broken && closing == wasClosing
      else
        delivered == taken + goal.frames && reados.Unread() == goal.rest && closing == (wasClosing || goal.broken)
    }

    method TakeOne(ghost taken: seq<Frame>, ghost wasClosing: bool, ghost goal: Drained, known: nat -> bool)
      returns (more: bool)
      requires Valid() && Remaining(true, taken, wasClosing, goal, known)
      modifies `delivered, `closing, reados
      ensures Valid() && reados.data.Contents() == old(reados.data.Contents())
      ensures Remaining(more, taken, wasClosing, goal, known)
      ensures more ==> |reados.Unread()| < |old(reados.Unread())|
    {
      hide Drain;
      ghost var s := reados.Unread();
      var r := Decode(reados, known);
      more := r.Got?;
      DrainStep(s, known);
      if more {
        delivered := delivered + [r.frame];
      } else {
        closing := closing || r.Broken?;
      }
    }

    /** `on_recv`. */
    method Recv(known: nat -> bool)
      requires Valid()
      modifies this, reados, reados.data, reados.data.buf
      ensures Valid() && Value() == OnRecv(old(Value()), known)
    {
      ghost var b := Value();
      closing := false;
      assert OnRecv(Value(), known) == OnRecv(b, known);
      Append(known);
    }

    /** `on_send`. */
    method Sent()
      requires Valid()
      modifies `closing
      ensures Valid() && Value() == OnSend(old(Value()))
    {
      closing := false;
    }

    /** `on_recv` after the state has been set. */
    method Append(known: nat -> bool)
      requires Valid() && !closing
      modifies this, reados, reados.data, reados.data.buf
      ensures Valid() && Value() == OnRecv(old(Value()), known)
    {
      hide Drain, OctetsStream.Unread, Octets.Contents;
      ghost var b := Value();
      Refill();
      ghost var ahead := reados.Unread();
      assert ahead == b.unread + b.readbuf[..b.Take()] && readbuf == b.readbuf[b.Take()..];
      reados.UnreadLength();
      TakeFrames(known);
      reados.UnreadLength();
      assert reados.pos == b.pos + |ahead| - |Drain(ahead, known).rest|;
      reados.TryShrink();
    }
  }

  // ---------------------------------------------------------------------------
  // Streams of frames
  // ---------------------------------------------------------------------------

  function EncodeAll(fs: seq<Frame>): Bytes
    requires forall i :: 0 <= i < |fs| ==> Sendable(fs[i])
  {
    if fs == [] then [] else EncodeFrame(fs[0]) + EncodeAll(fs[1..])
  }

  /** Frames of known protocols whose length field is whole. */
  ghost predicate Clean(fs: seq<Frame>, known: nat -> bool) {
    forall i :: 0 <= i < |fs| ==> Sendable(fs[i]) && FieldIsWhole(fs[i]) && known(fs[i].id)
  }

  function HeaderLength(f: Frame): nat
    requires Sendable(f)
  {
    |Varint(f.id)| + |LengthField(|f.body|)|
  }

  /** The first bytes of a frame: cut inside the header they cannot be read at all. */
  lemma PartialFrame(f: Frame, k: nat, known: nat -> bool)
    requires Sendable(f) && FieldIsWhole(f) && k < |EncodeFrame(f)|
    ensures FrameAhead(EncodeFrame(f)[..k], known) ==
      if k == 0 then NoData else if k < HeaderLength(f) then Broken else Incomplete
  {
    var n := |f.body|;
    var id, field := Varint(f.id), Varint(n);
    CompactSizeIsLength(n);
    assert LengthField(n) == field;
    var s := EncodeFrame(f)[..k];
    if k < |id| {
      assert s == id[..k];
      TruncatedVarint(f.id, k, 0, 0);
    } else if k < |id| + |field| {
      assert s == id + field[..k - |id|];
      VarintRoundTrip(f.id, field[..k - |id|]);
      TruncatedVarint(n, k - |id|, 0, 0);
    } else {
      var body := f.body[..k - |id| - |field|];
      assert s == id + (field + body);
      VarintRoundTrip(f.id, field + body);
      VarintRoundTrip(n, body);
    }
  }

  /** The unread bytes end inside the header of frame `m`. */
  ghost predicate EndsInHeader(fs: seq<Frame>, m: nat, unread: Bytes)
    requires forall i :: 0 <= i < |fs| ==> Sendable(fs[i])
  {
    m < |fs| && 0 < |unread| < HeaderLength(fs[m])
  }

  lemma DrainFrame(f: Frame, s: Bytes, known: nat -> bool)
    requires Sendable(f) && FieldIsWhole(f) && known(f.id)
    ensures var d := Drain(s, known);
      Drain(EncodeFrame(f) + s, known) == Drained([f] + d.frames, d.rest, d.broken)
  {
    FrameRoundTrip(f, s, known);
  }

  lemma DrainPart(fs: seq<Frame>, s: Bytes, more: Bytes, known: nat -> bool)
    requires Clean(fs, known) && s + more == EncodeAll(fs) && fs != [] && |s| < |EncodeFrame(fs[0])|
    ensures Drain(s, known) == Drained([], s, EndsInHeader(fs, 0, s))
  {
    var first := EncodeFrame(fs[0]);
    assert s == (s + more)[..|s|] == first[..|s|];
    PartialFrame(fs[0], |s|, known);
  }

  /** `d` holds the first `m` frames of a stream and the beginning of the next. */
  ghost predicate CutAfter(fs: seq<Frame>, m: nat, d: Drained, more: Bytes)
    requires forall i :: 0 <= i < |fs| ==> Sendable(fs[i])
  {
    && m <= |fs| && d.frames == fs[..m] && d.rest + more == EncodeAll(fs[m..])
    && (m < |fs| ==> |d.rest| < |EncodeFrame(fs[m])|)
    && (d.broken <==> EndsInHeader(fs, m, d.rest))
  }

  lemma CutOneLater(fs: seq<Frame>, m: nat, d: Drained, more: Bytes)
    requires fs != [] && forall i :: 0 <= i < |fs| ==> Sendable(fs[i])
    requires CutAfter(fs[1..], m, d, more)
    ensures CutAfter(fs, m + 1, Drained([fs[0]] + d.frames, d.rest, d.broken), more)
  {
    assert [fs[0]] + fs[1..][..m] == fs[..m + 1];
    assert fs[1..][m..] == fs[m + 1..];
  }

  /** The first bytes of a stream give exactly the frames that are complete in them. */
  lemma {:induction false} DrainStream(fs: seq<Frame>, s: Bytes, more: Bytes, known: nat -> bool) returns (m: nat)
    requires Clean(fs, known) && s + more == EncodeAll(fs)
    ensures CutAfter(fs, m, Drain(s, known), more)
    decreases |fs|
  {
    m := 0;
    if fs == [] {
      assert s == [];
    } else if |s| < |EncodeFrame(fs[0])| {
      DrainPart(fs, s, more, known);
      assert fs[0..] == fs;
    } else {
      var s' := SplitFirst(fs, s, more);
      m := DrainStream(fs[1..], s', more, known);
      DrainFrame(fs[0], s', known);
      CutOneLater(fs, m, Drain(s', known), more);
      m := m + 1;
    }
  }

  lemma SplitFirst(fs: seq<Frame>, s: Bytes, more: Bytes) returns (s': Bytes)
    requires forall i :: 0 <= i < |fs| ==> Sendable(fs[i])
    requires s + more == EncodeAll(fs) && fs != [] && |s| >= |EncodeFrame(fs[0])|
    ensures s == EncodeFrame(fs[0]) + s' && s' + more == EncodeAll(fs[1..])
  {
    var first := EncodeFrame(fs[0]);
    s' := s[|first|..];
    assert s[..|first|] == (s + more)[..|first|] == first;
    assert s' + more == (s + more)[|first|..] == EncodeAll(fs[1..]);
  }

  // ---------------------------------------------------------------------------
  // Runs
  // ---------------------------------------------------------------------------

  function NewInbox(capacity: nat): Inbox {
    Inbox(capacity, 0, [], [], [], false)
  }

  function Concat(chunks: seq<Bytes>): Bytes {
    if chunks == [] then [] else Concat(chunks[..|chunks| - 1]) + chunks[|chunks| - 1]
  }

  /** A call of `on_recv` for every chunk that arrives. */
  function RunFrom(b: Inbox, chunks: seq<Bytes>, known: nat -> bool): (r: Inbox)
    requires b.Shaped()
    ensures r.Shaped() && r.capacity == b.capacity
    decreases |chunks|
  {
    if chunks == [] then b
    else OnRecv(Arrive(RunFrom(b, chunks[..|chunks| - 1], known), chunks[|chunks| - 1]), known)
  }

  function Run(capacity: nat, chunks: seq<Bytes>, known: nat -> bool): (r: Inbox)
    ensures r.Shaped() && r.capacity == capacity
  {
    RunFrom(NewInbox(capacity), chunks, known)
  }

  lemma RunLast(b: Inbox, chunks: seq<Bytes>, known: nat -> bool, more: Bytes)
    requires b.Shaped() && chunks != []
    ensures var front, last := chunks[..|chunks| - 1], chunks[|chunks| - 1];
      && RunFrom(b, chunks, known) == OnRecv(Arrive(RunFrom(b, front, known), last), known)
      && Concat(front) + (last + more) == Concat(chunks) + more
  {
  }

  lemma JoinedLast(chunks: seq<Bytes>, others: seq<Bytes>)
    requires others != []
    ensures var all, n := chunks + others, |others| - 1;
      all != [] && all[..|all| - 1] == chunks + others[..n] && all[|all| - 1] == others[n]
  {
  }

  lemma {:induction false} RunOn(b: Inbox, chunks: seq<Bytes>, others: seq<Bytes>, known: nat -> bool)
    requires b.Shaped()
    ensures RunFrom(b, chunks + others, known) == RunFrom(RunFrom(b, chunks, known), others, known)
    decreases |others|
  {
    if others == [] {
      assert chunks + others == chunks;
    } else {
      RunOn(b, chunks, others[..|others| - 1], known);
      JoinedLast(chunks, others);
    }
  }

  /** What has been delivered and what is left make up the stream `fs`, of which `more` is
      still to come. */
  ghost predicate Tracks(b: Inbox, fs: seq<Frame>, more: Bytes)
    requires forall i :: 0 <= i < |fs| ==> Sendable(fs[i])
  {
    var n := |b.delivered|;
    && n <= |fs| && b.delivered == fs[..n]
    && b.unread + b.readbuf + more == EncodeAll(fs[n..])
    && (n < |fs| ==> |b.unread| < |EncodeFrame(fs[n])|)
  }

  lemma Rearranged(unread: Bytes, readbuf: Bytes, chunk: Bytes, more: Bytes, k: nat)
    requires k <= |readbuf + chunk|
    ensures (unread + (readbuf + chunk)[..k]) + ((readbuf + chunk)[k..] + more) == unread + readbuf + (chunk + more)
  {
  }

  lemma RecvTracks(b: Inbox, chunk: Bytes, fs: seq<Frame>, more: Bytes, known: nat -> bool)
    requires b.Shaped() && Clean(fs, known) && Tracks(b, fs, chunk + more)
    ensures Tracks(OnRecv(Arrive(b, chunk), known), fs, more)
    ensures var r := OnRecv(Arrive(b, chunk), known);
      r.closing <==> EndsInHeader(fs, |r.delivered|, r.unread)
  {
    var a, n := Arrive(b, chunk), |b.delivered|;
    var k := a.Take();
    var ahead, later := a.unread + a.readbuf[..k], a.readbuf[k..];
    Rearranged(b.unread, b.readbuf, chunk, more, k);
    var m := DrainStream(fs[n..], ahead, later + more, known);
    DrainedTracks(b, fs, m, Drain(ahead, known), more, OnRecv(a, known));
  }

  lemma DrainedTracks(b: Inbox, fs: seq<Frame>, m: nat, d: Drained, more: Bytes, r: Inbox)
    requires forall i :: 0 <= i < |fs| ==> Sendable(fs[i])
    requires |b.delivered| <= |fs| && b.delivered == fs[..|b.delivered|]
    requires CutAfter(fs[|b.delivered|..], m, d, r.readbuf + more)
    requires r.delivered == b.delivered + d.frames && r.unread == d.rest
    ensures Tracks(r, fs, more)
    ensures d.broken <==> EndsInHeader(fs, |r.delivered|, r.unread)
  {
    var n := |b.delivered|;
    assert fs[n..][m..] == fs[n + m..];
    assert d.rest + r.readbuf + more == d.rest + (r.readbuf + more);
  }

  lemma {:induction false} RunTracks(b: Inbox, chunks: seq<Bytes>, fs: seq<Frame>, more: Bytes, known: nat -> bool)
    requires b.Shaped() && Clean(fs, known) && Tracks(b, fs, Concat(chunks) + more)
    ensures Tracks(RunFrom(b, chunks, known), fs, more)
    decreases |chunks|
  {
    if chunks == [] {
      assert [] + more == more;
    } else {
      var front, last := chunks[..|chunks| - 1], chunks[|chunks| - 1];
      RunLast(b, chunks, known, more);
      RunTracks(b, front, fs, last + more, known);
      RecvTracks(RunFrom(b, front, known), last, fs, more, known);
    }
  }

  lemma NewTracks(capacity: nat, fs: seq<Frame>, all: Bytes)
    requires (forall i :: 0 <= i < |fs| ==> Sendable(fs[i])) && all == EncodeAll(fs)
    ensures Tracks(NewInbox(capacity), fs, all)
  {
    hide EncodeAll;
    assert fs[0..] == fs;
    assert [] + [] + all == all;
  }

  lemma {:induction false} EncodeAllSplits(fs: seq<Frame>, n: nat)
    requires n <= |fs| && forall i :: 0 <= i < |fs| ==> Sendable(fs[i])
    ensures EncodeAll(fs) == EncodeAll(fs[..n]) + EncodeAll(fs[n..])
    decreases n
  {
    hide EncodeFrame;
    if n == 0 {
      assert fs[0..] == fs;
    } else {
      EncodeAllSplits(fs[1..], n - 1);
      assert fs[..n][1..] == fs[1..][..n - 1] && fs[1..][n - 1..] == fs[n..];
    }
  }

  /** However a stream of frames is cut into chunks, the frames delivered are the first ones
      of the stream, all that are complete in the bytes appended so far; and those frames,
      the unread bytes and the bytes not yet appended make up what was received. */
  lemma DeliversWholeFramesInOrder(capacity: nat, chunks: seq<Bytes>, fs: seq<Frame>, more: Bytes, known: nat -> bool)
    requires Clean(fs, known) && Concat(chunks) + more == EncodeAll(fs)
    ensures var b := Run(capacity, chunks, known); var n := |b.delivered|;
      && n <= |fs| && b.delivered == fs[..n]
      && EncodeAll(fs[..n]) + b.unread + b.readbuf == Concat(chunks)
      && (n < |fs| ==> |b.unread| < |EncodeFrame(fs[n])|)
  {
    NewTracks(capacity, fs, Concat(chunks) + more);
    RunTracks(NewInbox(capacity), chunks, fs, more, known);
    var b := Run(capacity, chunks, known);
    var n := |b.delivered|;
    EncodeAllSplits(fs, n);
    Regroup(EncodeAll(fs[..n]), b.unread, b.readbuf, more);
    SamePart(EncodeAll(fs[..n]) + b.unread + b.readbuf, Concat(chunks), more);
  }

  lemma Regroup(a: Bytes, b: Bytes, c: Bytes, d: Bytes)
    ensures a + (b + c + d) == a + b + c + d
  {
  }

  lemma SamePart(a: Bytes, b: Bytes, more: Bytes)
    requires a + more == b + more
    ensures a == b
  {
    assert |a| == |b|;
    assert a == (a + more)[..|a|] == b;
  }

  /** Once all of the stream has been appended, all of its frames have been delivered. */
  lemma AllAppendedAllDelivered(capacity: nat, chunks: seq<Bytes>, fs: seq<Frame>, known: nat -> bool)
    requires Clean(fs, known) && Concat(chunks) == EncodeAll(fs)
    requires Run(capacity, chunks, known).readbuf == []
    ensures Run(capacity, chunks, known).delivered == fs
  {
    assert Concat(chunks) + [] == EncodeAll(fs);
    NewTracks(capacity, fs, Concat(chunks) + []);
    RunTracks(NewInbox(capacity), chunks, fs, [], known);
    NothingLeft(Run(capacity, chunks, known), fs);
  }

  lemma NothingLeft(b: Inbox, fs: seq<Frame>)
    requires (forall i :: 0 <= i < |fs| ==> Sendable(fs[i])) && Tracks(b, fs, []) && b.readbuf == []
    ensures b.delivered == fs
  {
    var n := |b.delivered|;
    if n < |fs| {
      assert false;
    }
    assert fs[..n] == fs;
  }

  /** A frame of a protocol that is not known is ahead. */
  ghost predicate UnknownAhead(b: Inbox, f: Frame)
    requires Sendable(f)
  {
    b.Shaped() && EncodeFrame(f) <= b.unread
  }

  lemma UnknownBlocksOnce(b: Inbox, f: Frame, chunk: Bytes, known: nat -> bool)
    requires Sendable(f) && FieldIsWhole(f) && !known(f.id) && UnknownAhead(b, f)
    ensures var r := OnRecv(Arrive(b, chunk), known);
      UnknownAhead(r, f) && r.delivered == b.delivered && b.unread <= r.unread && !r.closing
  {
    var a := Arrive(b, chunk);
    var ahead := a.unread + a.readbuf[..a.Take()];
    var size := |EncodeFrame(f)|;
    assert ahead == EncodeFrame(f) + ahead[size..];
    UnknownFrameStays(f, ahead[size..], known);
    DrainStep(ahead, known);
    assert a.delivered + [] == a.delivered;
  }

  /** Behind a complete frame of a protocol that is not known, nothing is ever delivered,
      whatever arrives; the cursor stays before it, and the session is not closed for it. */
  lemma {:induction false} UnknownBlocks(b: Inbox, f: Frame, chunks: seq<Bytes>, known: nat -> bool)
    requires Sendable(f) && FieldIsWhole(f) && !known(f.id) && UnknownAhead(b, f)
    ensures var r := RunFrom(b, chunks, known);
      && UnknownAhead(r, f) && r.delivered == b.delivered && b.unread <= r.unread
      && (chunks != [] ==> !r.closing)
    decreases |chunks|
  {
    if chunks != [] {
      hide OnRecv, EncodeFrame;
      var front := chunks[..|chunks| - 1];
      UnknownBlocks(b, f, front, known);
      UnknownBlocksOnce(RunFrom(b, front, known), f, chunks[|chunks| - 1], known);
    }
  }

  // ---------------------------------------------------------------------------
  // Closing
  // ---------------------------------------------------------------------------

  /** After any run of calls the session is CLOSING exactly if the last one left unread bytes
      that end in a header: every call forgets what an earlier one found. */
  lemma ClosingIffLastCallCutsHeader(capacity: nat, chunks: seq<Bytes>, fs: seq<Frame>, more: Bytes, known: nat -> bool)
    requires chunks != [] && Clean(fs, known) && Concat(chunks) + more == EncodeAll(fs)
    ensures var b := Run(capacity, chunks, known);
      b.closing <==> EndsInHeader(fs, |b.delivered|, b.unread)
  {
    var front, last := chunks[..|chunks| - 1], chunks[|chunks| - 1];
    RunLast(NewInbox(capacity), chunks, known, more);
    NewTracks(capacity, fs, Concat(chunks) + more);
    RunTracks(NewInbox(capacity), front, fs, last + more, known);
    RecvTracks(RunFrom(NewInbox(capacity), front, known), last, fs, more, known);
  }

  /** One event of the session: the calls of `on_recv` in `handle_read` (none if the event is
      not readable), whether `handle_write` came to call `on_send`, and whether
      `is_writeos_empty` holds at the end. */
  datatype Event = Event(chunks: seq<Bytes>, sent: bool, drained: bool)

  datatype Life = Life(inbox: Inbox, deleted: bool)

  /** `handle_event`: read, write, and `handle_close`, which acts on the state that is left. */
  function HandleEvent(l: Life, e: Event, known: nat -> bool): (r: Life)
    requires l.inbox.Shaped()
    ensures r.inbox.Shaped()
  {
    if l.deleted then l
    else
      var b := RunFrom(l.inbox, e.chunks, known);
      var b' := if e.sent then OnSend(b) else b;
      Life(b', b'.closing && e.drained)
  }

  function HandleEvents(l: Life, es: seq<Event>, known: nat -> bool): (r: Life)
    requires l.inbox.Shaped()
    ensures r.inbox.Shaped()
    decreases |es|
  {
    if es == [] then l else HandleEvent(HandleEvents(l, es[..|es| - 1], known), es[|es| - 1], known)
  }

  /** What one event makes of a session: a cut header has an effect only if no call of
      `on_recv` follows it in the event, `on_send` is not called in the event, and
      `is_writeos_empty` holds; if that does not hold, it is remembered until the next event
      that reads or writes. */
  lemma EventDeletes(l: Life, e: Event, fs: seq<Frame>, more: Bytes, known: nat -> bool)
    requires l.inbox.Shaped() && !l.deleted && Clean(fs, known) && Tracks(l.inbox, fs, Concat(e.chunks) + more)
    ensures var r := HandleEvent(l, e, known);
      && Tracks(r.inbox, fs, more)
      && (r.inbox.closing <==>
            !e.sent
            && if e.chunks == [] then l.inbox.closing else EndsInHeader(fs, |r.inbox.delivered|, r.inbox.unread))
      && (r.deleted <==> r.inbox.closing && e.drained)
  {
    hide OnRecv, EncodeFrame, EncodeAll, HeaderLength;
    RunTracks(l.inbox, e.chunks, fs, more, known);
    if e.chunks != [] {
      var front, last := e.chunks[..|e.chunks| - 1], e.chunks[|e.chunks| - 1];
      RunLast(l.inbox, e.chunks, known, more);
      RunTracks(l.inbox, front, fs, last + more, known);
      RecvTracks(RunFrom(l.inbox, front, known), last, fs, more, known);
    }
  }

  /** The chunks that arrive in the events, one after the other. */
  function Received(es: seq<Event>): seq<Bytes> {
    if es == [] then [] else Received(es[..|es| - 1]) + es[|es| - 1].chunks
  }

  /** The last event receives and does not send, and its last call leaves a cut header. */
  ghost predicate CutsHeader(capacity: nat, fs: seq<Frame>, es: seq<Event>, known: nat -> bool)
    requires Clean(fs, known)
  {
    && es != [] && es[|es| - 1].chunks != [] && !es[|es| - 1].sent
    && var b := Run(capacity, Received(es), known); EndsInHeader(fs, |b.delivered|, b.unread)
  }

  /** From number `j` on, no event receives or sends. */
  predicate Quiet(es: seq<Event>, j: nat) {
    forall k :: j <= k < |es| ==> es[k].chunks == [] && !es[k].sent
  }

  /** An event cut a header, and since then there was nothing that makes the session forget it. */
  ghost predicate Remembered(capacity: nat, fs: seq<Frame>, es: seq<Event>, known: nat -> bool)
    requires Clean(fs, known)
  {
    exists j: nat :: j <= |es| && CutsHeader(capacity, fs, es[..j], known) && Quiet(es, j)
  }

  lemma RememberedLast(capacity: nat, fs: seq<Frame>, es: seq<Event>, known: nat -> bool)
    requires Clean(fs, known) && es != []
    ensures var e := es[|es| - 1];
      Remembered(capacity, fs, es, known) <==>
        if e.chunks != [] then CutsHeader(capacity, fs, es, known)
        else !e.sent && Remembered(capacity, fs, es[..|es| - 1], known)
  {
    hide CutsHeader;
    var n, front := |es| - 1, es[..|es| - 1];
    assert es[..|es|] == es;
    if Remembered(capacity, fs, es, known) {
      var j: nat :| j <= |es| && CutsHeader(capacity, fs, es[..j], known) && Quiet(es, j);
      if j < |es| {
        assert front[..j] == es[..j] && Quiet(front, j);
      } else {
        assert es[n].chunks != [] by { LastReceives(capacity, fs, es, known); }
      }
    }
    if es[n].chunks == [] && !es[n].sent && Remembered(capacity, fs, front, known) {
      var j: nat :| j <= n && CutsHeader(capacity, fs, front[..j], known) && Quiet(front, j);
      assert front[..j] == es[..j] && Quiet(es, j);
    }
    if CutsHeader(capacity, fs, es, known) {
      assert Quiet(es, |es|);
    }
  }

  lemma LastReceives(capacity: nat, fs: seq<Frame>, es: seq<Event>, known: nat -> bool)
    requires Clean(fs, known) && CutsHeader(capacity, fs, es, known)
    ensures es != [] && es[|es| - 1].chunks != []
  {
  }

  /** What a session takes in does not depend on its state, and a call overwrites that. */
  lemma {:induction false} StateIsOverwritten(b: Inbox, closing: bool, chunks: seq<Bytes>, known: nat -> bool)
    requires b.Shaped()
    ensures var r := RunFrom(b.(closing := closing), chunks, known);
      if chunks == [] then r == b.(closing := closing) else r == RunFrom(b, chunks, known)
    decreases |chunks|
  {
    if chunks != [] {
      StateIsOverwritten(b, closing, chunks[..|chunks| - 1], known);
    }
  }

  lemma {:induction false} RunJoins(b: Inbox, chunks: seq<Bytes>, others: seq<Bytes>, known: nat -> bool)
    requires b.Shaped()
    ensures RunFrom(b, chunks + others, known) == RunFrom(RunFrom(b, chunks, known), others, known)
    decreases |others|
  {
    if others == [] {
      assert chunks + others == chunks;
    } else {
      JoinedLast(chunks, others);
      RunJoins(b, chunks, others[..|others| - 1], known);
    }
  }

  /** A session that is not deleted has taken in what all its calls took in, and is CLOSING
      exactly while a cut header is remembered. */
  ghost predicate InStep(l: Life, capacity: nat, fs: seq<Frame>, es: seq<Event>, known: nat -> bool)
    requires Clean(fs, known)
  {
    l.inbox == Run(capacity, Received(es), known).(closing := Remembered(capacity, fs, es, known))
  }

  /** Event number `i` ends with a remembered cut and `is_writeos_empty`. */
  ghost predicate DeletesAt(capacity: nat, fs: seq<Frame>, es: seq<Event>, i: nat, known: nat -> bool)
    requires Clean(fs, known) && i < |es|
  {
    es[i].drained && Remembered(capacity, fs, es[..i + 1], known)
  }

  lemma StepsOn(l: Life, capacity: nat, fs: seq<Frame>, es: seq<Event>, more: Bytes, known: nat -> bool)
    requires Clean(fs, known) && es != [] && Concat(Received(es)) + more == EncodeAll(fs)
    requires !l.deleted && InStep(l, capacity, fs, es[..|es| - 1], known)
    ensures l.inbox.Shaped() && InStep(HandleEvent(l, es[|es| - 1], known), capacity, fs, es, known)
    ensures HandleEvent(l, es[|es| - 1], known).deleted <==> DeletesAt(capacity, fs, es, |es| - 1, known)
  {
    assert es[..|es|] == es;
    var front, e := es[..|es| - 1], es[|es| - 1];
    var b := Run(capacity, Received(front), known);
    StateIsOverwritten(b, l.inbox.closing, e.chunks, known);
    RunJoins(NewInbox(capacity), Received(front), e.chunks, known);
    RememberedLast(capacity, fs, es, known);
    if e.chunks != [] {
      ClosingIffLastCallCutsHeader(capacity, Received(es), fs, more, known);
    } else {
      assert Received(es) == Received(front);
    }
  }

  ghost predicate SomeEventDeletes(capacity: nat, fs: seq<Frame>, es: seq<Event>, known: nat -> bool)
    requires Clean(fs, known)
  {
    exists i: nat :: i < |es| && DeletesAt(capacity, fs, es, i, known)
  }

  lemma SomeEventBefore(capacity: nat, fs: seq<Frame>, es: seq<Event>, known: nat -> bool)
    requires Clean(fs, known) && es != []
    ensures SomeEventDeletes(capacity, fs, es, known) <==>
      SomeEventDeletes(capacity, fs, es[..|es| - 1], known) || DeletesAt(capacity, fs, es, |es| - 1, known)
  {
    hide Remembered;
    var front := es[..|es| - 1];
    forall i: nat | i < |front|
      ensures DeletesAt(capacity, fs, es, i, known) == DeletesAt(capacity, fs, front, i, known)
    {
      assert es[..i + 1] == front[..i + 1];
    }
  }

  lemma InStepAtFirst(capacity: nat, fs: seq<Frame>, known: nat -> bool)
    requires Clean(fs, known)
    ensures InStep(Life(NewInbox(capacity), false), capacity, fs, [], known)
    ensures !SomeEventDeletes(capacity, fs, [], known)
  {
  }

  /** Over a run of events, the session is deleted exactly if some event leaves a cut header
      at the end of its last call and sends nothing, and some event from there on finds
      `is_writeos_empty` before anything is received or sent again. */
  lemma {:induction false} DeletedIffCutIsRemembered(capacity: nat, fs: seq<Frame>, es: seq<Event>, more: Bytes,
      known: nat -> bool)
    requires Clean(fs, known) && Concat(Received(es)) + more == EncodeAll(fs)
    ensures var l := HandleEvents(Life(NewInbox(capacity), false), es, known);
      && (l.deleted <==> SomeEventDeletes(capacity, fs, es, known))
      && (!l.deleted ==> InStep(l, capacity, fs, es, known))
    decreases |es|
  {
    hide InStep, SomeEventDeletes, DeletesAt, EncodeAll;
    if es == [] {
      InStepAtFirst(capacity, fs, known);
    } else {
      var front, e := es[..|es| - 1], es[|es| - 1];
      ConcatJoins(Received(front), e.chunks);
      assert Concat(Received(front)) + (Concat(e.chunks) + more) == Concat(Received(es)) + more;
      DeletedIffCutIsRemembered(capacity, fs, front, Concat(e.chunks) + more, known);
      SomeEventBefore(capacity, fs, es, known);
      var l := HandleEvents(Life(NewInbox(capacity), false), front, known);
      if !l.deleted {
        StepsOn(l, capacity, fs, es, more, known);
      }
    }
  }

  // ---------------------------------------------------------------------------
  // How much a buffer takes in
  // ---------------------------------------------------------------------------

  /** Read bytes are dropped only behind position 0x100000; a buffer that is not larger never
      drops any, so over a whole session it takes in what fits and no more. */
  lemma {:induction false} SmallBufferTakesItsSize(capacity: nat, chunks: seq<Bytes>, known: nat -> bool)
    requires capacity <= SHRINK_AT
    ensures var b := Run(capacity, chunks, known); var received := |Concat(chunks)|;
      && b.pos + |b.unread| == received - |b.readbuf|
      && received - |b.readbuf| == if received <= capacity then received else capacity
    decreases |chunks|
  {
    if chunks != [] {
      var front := chunks[..|chunks| - 1];
      SmallBufferTakesItsSize(capacity, front, known);
      var a := Arrive(Run(capacity, front, known), chunks[|chunks| - 1]);
      DrainShortens(a.unread + a.readbuf[..a.Take()], known);
    }
  }

  /** Such a buffer delivers a stream to its end exactly if the whole stream fits in it. */
  lemma SmallBufferDeliversIffFits(capacity: nat, chunks: seq<Bytes>, fs: seq<Frame>, known: nat -> bool)
    requires capacity <= SHRINK_AT && Clean(fs, known) && Concat(chunks) == EncodeAll(fs)
    ensures Run(capacity, chunks, known).delivered == fs <==> |EncodeAll(fs)| <= capacity
  {
    assert Concat(chunks) + [] == EncodeAll(fs);
    DeliversWholeFramesInOrder(capacity, chunks, fs, [], known);
    SmallBufferTakesItsSize(capacity, chunks, known);
    assert fs[..|fs|] == fs;
    if |EncodeAll(fs)| <= capacity {
      AllAppendedAllDelivered(capacity, chunks, fs, known);
    }
  }

  /** The cursor never stays beyond the position from which on it is moved back. */
  lemma {:induction false} CursorIsLow(b: Inbox, chunks: seq<Bytes>, known: nat -> bool)
    requires b.Shaped() && b.pos <= SHRINK_AT
    ensures RunFrom(b, chunks, known).pos <= SHRINK_AT
    decreases |chunks|
  {
    if chunks != [] {
      CursorIsLow(b, chunks[..|chunks| - 1], known);
    }
  }

  /** A full buffer without a complete frame, whose read bytes are not dropped. */
  ghost predicate Stuck(b: Inbox, known: nat -> bool) {
    b.Shaped() && b.Room() == 0 && b.pos <= SHRINK_AT && !FrameAhead(b.unread, known).Got?
  }

  /** Nothing that arrives and no number of calls changes that. */
  lemma {:induction false} StuckForever(b: Inbox, chunks: seq<Bytes>, known: nat -> bool)
    requires Stuck(b, known)
    ensures var r := RunFrom(b, chunks, known);
      Stuck(r, known) && r.delivered == b.delivered && r.unread == b.unread
    decreases |chunks|
  {
    if chunks != [] {
      var front := chunks[..|chunks| - 1];
      StuckForever(b, front, known);
      var a := Arrive(RunFrom(b, front, known), chunks[|chunks| - 1]);
      assert a.unread + a.readbuf[..0] == a.unread;
      DrainStep(a.unread, known);
      assert a.delivered + [] == a.delivered;
    }
  }

  /** `n` further calls with nothing new. */
  function Calls(n: nat): seq<Bytes> {
    seq(n, _ => [])
  }

  lemma {:induction false} CallsBringNothing(n: nat)
    ensures Concat(Calls(n)) == []
  {
    if n > 0 {
      CallsBringNothing(n - 1);
      assert Calls(n)[..n - 1] == Calls(n - 1);
    }
  }

  ghost predicate NoLonger(fs: seq<Frame>, longest: nat) {
    forall i :: 0 <= i < |fs| ==> Sendable(fs[i]) && |EncodeFrame(fs[i])| <= longest
  }

  /** With room for the longest frame behind that position, every call takes in something. */
  lemma CallTakesSomething(b: Inbox, fs: seq<Frame>, longest: nat, known: nat -> bool)
    requires b.Shaped() && b.pos <= SHRINK_AT && Clean(fs, known) && NoLonger(fs, longest)
    requires Tracks(b, fs, []) && b.readbuf != [] && b.capacity >= SHRINK_AT + longest
    ensures |OnRecv(Arrive(b, []), known).readbuf| < |b.readbuf|
  {
    assert Arrive(b, []).readbuf == b.readbuf;
    if |b.delivered| == |fs| {
      assert false;
    }
  }

  lemma {:induction false} EnoughCalls(b: Inbox, fs: seq<Frame>, longest: nat, known: nat -> bool) returns (n: nat)
    requires b.Shaped() && b.pos <= SHRINK_AT && Clean(fs, known) && NoLonger(fs, longest)
    requires Tracks(b, fs, []) && b.capacity >= SHRINK_AT + longest
    ensures RunFrom(b, Calls(n), known).delivered == fs
    decreases |b.readbuf|
  {
    if b.readbuf == [] {
      n := 0;
      NothingLeft(b, fs);
    } else {
      var r := OnRecv(Arrive(b, []), known);
      var none: Bytes := [];
      assert none + none == none;
      RecvTracks(b, none, fs, none, known);
      CallTakesSomething(b, fs, longest, known);
      n := EnoughCalls(r, fs, longest, known);
      assert Calls(n + 1) == Calls(1) + Calls(n);
      assert Calls(1)[..0] == [];
      assert RunFrom(b, Calls(1), known) == r;
      RunOn(b, Calls(1), Calls(n), known);
      n := n + 1;
    }
  }

  /** In enough calls every frame of the stream is delivered. */
  ghost predicate DeliversInTheEnd(capacity: nat, chunks: seq<Bytes>, fs: seq<Frame>, known: nat -> bool) {
    exists n :: Run(capacity, chunks + Calls(n), known).delivered == fs
  }

  ghost predicate DeliversAll(capacity: nat, fs: seq<Frame>, known: nat -> bool)
    requires Clean(fs, known)
  {
    forall chunks :: Concat(chunks) == EncodeAll(fs) ==> DeliversInTheEnd(capacity, chunks, fs, known)
  }

  lemma LargeBufferDelivers(capacity: nat, chunks: seq<Bytes>, fs: seq<Frame>, longest: nat, known: nat -> bool)
    requires Clean(fs, known) && NoLonger(fs, longest) && Concat(chunks) == EncodeAll(fs)
    requires capacity >= SHRINK_AT + longest
    ensures DeliversInTheEnd(capacity, chunks, fs, known)
  {
    var b := Run(capacity, chunks, known);
    assert Concat(chunks) + [] == EncodeAll(fs);
    NewTracks(capacity, fs, Concat(chunks) + []);
    RunTracks(NewInbox(capacity), chunks, fs, [], known);
    CursorIsLow(NewInbox(capacity), chunks, known);
    var n := EnoughCalls(b, fs, longest, known);
    RunOn(NewInbox(capacity), chunks, Calls(n), known);
    assert Run(capacity, chunks + Calls(n), known).delivered == fs;
  }

  /** Frames without a body, of two bytes each. */
  function Fillers(n: nat): (r: seq<Frame>)
    ensures |r| == n && forall i :: 0 <= i < n ==> r[i] == Frame(0, [])
  {
    if n == 0 then [] else [Frame(0, [])] + Fillers(n - 1)
  }

  lemma FillerLength()
    ensures |EncodeFrame(Frame(0, []))| == 2 && FieldIsWhole(Frame(0, []))
  {
    CompactSizeIsLength(0);
    assert BitLength(0) == 0;
  }

  lemma {:induction false} FillersLength(n: nat)
    ensures |EncodeAll(Fillers(n))| == 2 * n
  {
    if n > 0 {
      FillerLength();
      FillersLength(n - 1);
      assert Fillers(n)[1..] == Fillers(n - 1);
    }
  }

  const FILLERS: nat := SHRINK_AT / 2

  /** A stream that fills the buffer up to just that position, with a frame behind it. */
  function Blocking(f: Frame): seq<Frame> {
    Fillers(FILLERS) + [f]
  }

  lemma BlockingStream(f: Frame, known: nat -> bool)
    requires Sendable(f) && FieldIsWhole(f) && known(f.id) && known(0)
    ensures Clean(Blocking(f), known)
    ensures forall m :: 0 <= m <= FILLERS ==> |EncodeAll(Blocking(f)[..m])| == 2 * m
    ensures |EncodeAll(Blocking(f))| == SHRINK_AT + |EncodeFrame(f)|
  {
    FillerLength();
    assert Clean(Blocking(f), known);
    forall m | 0 <= m <= FILLERS
      ensures |EncodeAll(Blocking(f)[..m])| == 2 * m
    {
      assert Blocking(f)[..m] == Fillers(m);
      FillersLength(m);
    }
    EncodeAllSplits(Blocking(f), FILLERS);
    assert Blocking(f)[FILLERS..] == [f] && [f][1..] == [];
  }

  /** One call leaves a larger buffer stuck in the middle of that frame, if it does not fit. */
  lemma BlockingSticks(capacity: nat, f: Frame, known: nat -> bool)
    requires Sendable(f) && FieldIsWhole(f) && known(f.id) && known(0)
    requires SHRINK_AT < capacity < SHRINK_AT + |EncodeFrame(f)|
    ensures var b := Run(capacity, [EncodeAll(Blocking(f))], known);
      Stuck(b, known) && |b.delivered| < |Blocking(f)|
  {
    var fs, all := Blocking(f), EncodeAll(Blocking(f));
    BlockingStream(f, known);
    var chunks := [all];
    assert Concat(chunks) == all by { assert chunks[..0] == [] && Concat([]) + all == all; }
    assert Concat(chunks) + [] == EncodeAll(fs);
    DeliversWholeFramesInOrder(capacity, chunks, fs, [], known);
    var b := Run(capacity, chunks, known);
    OneCall(capacity, all, known);
    var m := |b.delivered|;
    assert |EncodeAll(fs[..m])| + |b.unread| == capacity;
    CutInFrame(f, m, |b.unread|, capacity);
  }

  /** So many bytes of that stream end in the middle of its last frame. */
  lemma CutInFrame(f: Frame, m: nat, rest: nat, capacity: nat)
    requires Sendable(f) && m <= |Blocking(f)| && FieldIsWhole(f)
    requires |EncodeAll(Blocking(f)[..m])| + rest == capacity
    requires SHRINK_AT < capacity < SHRINK_AT + |EncodeFrame(f)|
    requires m < |Blocking(f)| ==> rest < |EncodeFrame(Blocking(f)[m])|
    ensures m == FILLERS && rest == capacity - SHRINK_AT
  {
    assert forall i :: 0 <= i < FILLERS ==> Blocking(f)[i] == Frame(0, []);
    assert Blocking(f)[..|Blocking(f)|] == Blocking(f);
    BlockingStream(f, _ => true);
    FillerLength();
  }

  /** What a first call leaves: if the cursor stays low, the buffer is full or all is taken. */
  lemma OneCall(capacity: nat, all: Bytes, known: nat -> bool)
    requires capacity <= |all|
    ensures var b := Run(capacity, [all], known); var taken := Drain(all[..capacity], known).rest;
      && b.unread == taken && |b.readbuf| == |all| - capacity && |taken| <= capacity
      && b.pos == (if capacity - |taken| > SHRINK_AT then 0 else capacity - |taken|)
      && !FrameAhead(b.unread, known).Got?
  {
    assert [all][..0] == [];
    var a := Arrive(NewInbox(capacity), all);
    RunLast(NewInbox(capacity), [all], known, []);
    assert a.readbuf == all && a.unread == [] && a.Take() == capacity;
    assert a.unread + a.readbuf[..capacity] == all[..capacity];
    DrainShortens(all[..capacity], known);
    DrainLeavesNoFrame(all[..capacity], known);
  }

  lemma {:induction false} DrainLeavesNoFrame(s: Bytes, known: nat -> bool)
    ensures !FrameAhead(Drain(s, known).rest, known).Got?
    decreases |s|
  {
    if FrameAhead(s, known).Got? {
      FrameTakesBytes(s, known);
      DrainLeavesNoFrame(BehindFrame(s, known), known);
    }
  }

  lemma BlockingIsNotDelivered(capacity: nat, f: Frame, known: nat -> bool)
    requires Sendable(f) && FieldIsWhole(f) && known(f.id) && known(0)
    requires capacity < SHRINK_AT + |EncodeFrame(f)|
    ensures Clean(Blocking(f), known) && !DeliversAll(capacity, Blocking(f), known)
  {
    var fs, all := Blocking(f), EncodeAll(Blocking(f));
    BlockingStream(f, known);
    var chunks := [all];
    assert Concat(chunks) == all by { assert chunks[..0] == [] && Concat([]) + all == all; }
    forall n
      ensures Run(capacity, chunks + Calls(n), known).delivered != fs
    {
      if capacity <= SHRINK_AT {
        CallsBringNothing(n);
        ConcatJoins(chunks, Calls(n));
        assert all + [] == all;
        SmallBufferDeliversIffFits(capacity, chunks + Calls(n), fs, known);
      } else {
        BlockingSticks(capacity, f, known);
        RunOn(NewInbox(capacity), chunks, Calls(n), known);
        StuckForever(Run(capacity, chunks, known), Calls(n), known);
      }
    }
    assert !DeliversInTheEnd(capacity, chunks, fs, known);
  }

  lemma Associates(a: Bytes, b: Bytes, c: Bytes)
    ensures a + b + c == a + (b + c)
  {
  }

  lemma {:induction false} ConcatJoins(chunks: seq<Bytes>, others: seq<Bytes>)
    ensures Concat(chunks + others) == Concat(chunks) + Concat(others)
    decreases |others|
  {
    if others == [] {
      assert chunks + others == chunks;
    } else {
      var front, last := others[..|others| - 1], others[|others| - 1];
      ConcatJoins(chunks, front);
      JoinedLast(chunks, others);
      Associates(Concat(chunks), Concat(front), last);
    }
  }

  /** A buffer delivers every stream of frames no longer than `f`, however it is cut, exactly
      if it has room for that frame behind position 0x100000. */
  lemma DeliversAllIffRoomBehind(capacity: nat, f: Frame, known: nat -> bool)
    requires Sendable(f) && FieldIsWhole(f) && known(f.id) && known(0)
    ensures (forall fs :: Clean(fs, known) && NoLonger(fs, |EncodeFrame(f)|) ==> DeliversAll(capacity, fs, known))
      <==> capacity >= SHRINK_AT + |EncodeFrame(f)|
  {
    var longest := |EncodeFrame(f)|;
    if capacity >= SHRINK_AT + longest {
      forall fs | Clean(fs, known) && NoLonger(fs, longest)
        ensures DeliversAll(capacity, fs, known)
      {
        forall chunks | Concat(chunks) == EncodeAll(fs)
          ensures DeliversInTheEnd(capacity, chunks, fs, known)
        {
          LargeBufferDelivers(capacity, chunks, fs, longest, known);
        }
      }
    } else {
      BlockingIsNotDelivered(capacity, f, known);
      FillerLength();
      assert NoLonger(Blocking(f), longest);
    }
  }
}
