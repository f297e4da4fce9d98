/** The output path of a session: any number of threads append messages to `_writeos` under
    the session lock while the reactor thread sends `_writebuf`, in parts and without the
    lock, and swaps the two buffers under it. */
module SessionOutput {
  import opened Machine

  datatype Lock = Free | ByReactor | BySender(i: nat)

  /** Where `handle_write` stands.  `again` tells the second critical section from the first. */
  datatype ReactorPc =
    | Waiting
    | WantLock(again: bool)
    | Swapping(again: bool)
    | Checking(again: bool)
    | Forbidding(again: bool)
    | Leaving(again: bool)
    | Sending
    | Sent
    | Reporting   // about to call `on_send`

  /** Where `send_protocol` or `send_octets` stands, with the bytes of its message. */
  datatype SenderPc = Outside | WantsLock(message: Bytes) | HasLock(message: Bytes) | Permitting | Releasing

  datatype State = State(
    writeos: Bytes,
    room: nat,             // capacity of `_writeos`
    writebuf: Bytes,
    bufRoom: nat,          // capacity of `_writebuf`: the swap exchanges capacities too
    offset: nat,
    sendEvent: bool,       // EVENT_SEND is in the mask
    deleted: bool,         // the event is to be deleted: its mask is not changed any more
    closing: bool,         // the state of the session is CLOSING
    lock: Lock,
    reactor: ReactorPc,
    senders: seq<SenderPc>,
    accepted: seq<Bytes>,  // history: the messages appended, in order
    sent: Bytes)           // history: the bytes given to the socket

  datatype Move =
    | ReactorStep              // the next step of `handle_write` that is not a `send`
    | Send(n: nat)             // `send` takes `n` bytes
    | SendLater                // `send` returns EAGAIN
    | SendFails                // `send` fails or returns 0: `close_socket`
    | SetState(closing: bool)  // other code sets the state of the session
    | HandleClose              // the end of an event
    | Enter(i: nat, message: Bytes)
    | SenderStep(i: nat)

  function Init(threads: nat, room: nat, bufRoom: nat): State {
    State([], room, [], bufRoom, 0, false, false, false, Free, Waiting, seq(threads, _ => Outside), [], [])
  }

  // ---------------------------------------------------------------------------
  // The steps
  // ---------------------------------------------------------------------------

  /** `wbuffer`. */
  function SwapBuffers(s: State): State {
    if s.writebuf == [] then s.(writebuf := s.writeos, bufRoom := s.room, writeos := [], room := s.bufRoom) else s
  }

  function StepReactor(s: State): State {
    match s.reactor
    case Waiting => if s.sendEvent && !s.deleted then s.(reactor := WantLock(false)) else s
    case WantLock(again) => if s.lock.Free? then s.(lock := ByReactor, reactor := Swapping(again)) else s
    case Swapping(again) => SwapBuffers(s).(reactor := Checking(again))
    case Checking(again) =>
      if |s.writebuf| == (if again then s.offset else 0) then s.(reactor := Forbidding(again))
      else s.(lock := Free, reactor := Sending)
    case Forbidding(again) => s.(sendEvent := s.deleted && s.sendEvent, reactor := Leaving(again))
    case Leaving(again) => s.(lock := Free, reactor := if again then Reporting else Waiting)
    case Reporting => s.(closing := false, reactor := Waiting)
    case Sending => s
    case Sent =>
      if s.offset == |s.writebuf| then s.(writebuf := [], offset := 0, reactor := WantLock(true))
      else s.(reactor := Sending)
  }

  function StepSender(s: State, i: nat): State
    requires i < |s.senders|
  {
    match s.senders[i]
    case Outside => s
    case WantsLock(message) =>
      if s.lock.Free? then s.(lock := BySender(i), senders := s.senders[i := HasLock(message)]) else s
    case HasLock(message) =>
      if |message| > s.room - |s.writeos| then s.(senders := s.senders[i := Releasing])
      else s.(writeos := s.writeos + message, accepted := s.accepted + [message], senders := s.senders[i := Permitting])
    case Permitting => s.(sendEvent := s.sendEvent || !s.deleted, senders := s.senders[i := Releasing])
    case Releasing => s.(lock := Free, senders := s.senders[i := Outside])
  }

  /** `is_writeos_empty`: how far `_writebuf` is sent, against the size of `_writeos`. */
  predicate TakenForDrained(s: State) {
    s.offset == |s.writeos|
  }

  function Close(s: State): State {
    if !s.reactor.Waiting? || !s.closing || s.deleted then s
    else if TakenForDrained(s) then s.(deleted := true)
    else s.(sendEvent := true)
  }

  function Step(s: State, m: Move): State {
    match m
    case HandleClose => Close(s)
    case ReactorStep => StepReactor(s)
    case Send(n) =>
      if s.reactor.Sending? && 0 < n <= |s.writebuf| - s.offset then
        s.(sent := s.sent + s.writebuf[s.offset..s.offset + n], offset := s.offset + n, reactor := Sent)
      else s
    case SendLater => if s.reactor.Sending? then s.(reactor := Reporting) else s
    case SendFails =>
      if s.reactor.Sending? then s.(deleted := true, closing := true, reactor := Reporting) else s
    case SetState(closing) => s.(closing := closing)
    case Enter(i, message) =>
      if i < |s.senders| && s.senders[i].Outside? && !s.closing then s.(senders := s.senders[i := WantsLock(message)])
      else s
    case SenderStep(i) => if i < |s.senders| then StepSender(s, i) else s
  }

  function Run(s: State, moves: seq<Move>): State {
    if moves == [] then s else Step(Run(s, moves[..|moves| - 1]), moves[|moves| - 1])
  }

  // ---------------------------------------------------------------------------
  // The lock
  // ---------------------------------------------------------------------------

  predicate ReactorInside(pc: ReactorPc) {
    pc.Swapping? || pc.Checking? || pc.Forbidding? || pc.Leaving?
  }

  predicate SenderInside(pc: SenderPc) {
    pc.HasLock? || pc.Permitting? || pc.Releasing?
  }

  /** Only the holder of the lock is inside a critical section. */
  ghost predicate LockInv(s: State) {
    && (ReactorInside(s.reactor) <==> s.lock.ByReactor?)
    && (forall i :: 0 <= i < |s.senders| ==> (SenderInside(s.senders[i]) <==> s.lock == BySender(i)))
    && (s.lock.BySender? ==> s.lock.i < |s.senders|)
  }

  lemma SwapKeepsLock(s: State)
    ensures var e := SwapBuffers(s); e.lock == s.lock && e.senders == s.senders
  {
  }

  lemma ReactorLock(s: State)
    requires LockInv(s)
    ensures LockInv(StepReactor(s))
  {
    hide SwapBuffers;
    SwapKeepsLock(s);
  }

  lemma SenderLock(s: State, i: nat)
    requires LockInv(s) && i < |s.senders|
    ensures LockInv(StepSender(s, i))
  {
  }

  lemma StepLock(s: State, m: Move)
    requires LockInv(s)
    ensures LockInv(Step(s, m))
  {
    if m.ReactorStep? {
      assert Step(s, m) == StepReactor(s);
      ReactorLock(s);
    } else if m.SenderStep? && m.i < |s.senders| {
      assert Step(s, m) == StepSender(s, m.i);
      SenderLock(s, m.i);
    }
  }

  // ---------------------------------------------------------------------------
  // Conservation
  // ---------------------------------------------------------------------------

  function Flatten(messages: seq<Bytes>): Bytes {
    if messages == [] then [] else Flatten(messages[..|messages| - 1]) + messages[|messages| - 1]
  }

  /** What is left behind the first `offset` bytes of `_writebuf`. */
  function Left(writebuf: Bytes, offset: nat, writeos: Bytes): Bytes
    requires offset <= |writebuf|
  {
    writebuf[offset..] + writeos
  }

  function Unsent(s: State): Bytes
    requires s.offset <= |s.writebuf|
  {
    Left(s.writebuf, s.offset, s.writeos)
  }

  ghost predicate Shaped(s: State) {
    && s.offset <= |s.writebuf| && (s.writebuf == [] ==> s.offset == 0)
    && |s.writeos| <= s.room && |s.writebuf| <= s.bufRoom
    && (s.writebuf != [] && !s.reactor.Sent? ==> s.offset < |s.writebuf|)
    && (s.reactor.Sending? ==> s.writebuf != [])
    && ((s.reactor.WantLock? || s.reactor.Swapping? || s.reactor.Checking?) && s.reactor.again ==> s.offset == 0)
  }

  /** The buffers hold exactly what was accepted and not yet sent, in order. */
  ghost predicate Conserved(s: State) {
    Shaped(s) && s.sent + Unsent(s) == Flatten(s.accepted)
  }

  /** A partial or complete send. */
  lemma SendConserves(sent: Bytes, writebuf: Bytes, offset: nat, n: nat, writeos: Bytes)
    requires offset + n <= |writebuf|
    ensures sent + writebuf[offset..offset + n] + (writebuf[offset + n..] + writeos)
      == sent + (writebuf[offset..] + writeos)
  {
    assert writebuf[offset..] == writebuf[offset..offset + n] + writebuf[offset + n..];
  }

  lemma AppendConserves(sent: Bytes, rest: Bytes, writeos: Bytes, message: Bytes, accepted: seq<Bytes>)
    requires sent + (rest + writeos) == Flatten(accepted)
    ensures sent + (rest + (writeos + message)) == Flatten(accepted + [message])
  {
    assert (accepted + [message])[..|accepted|] == accepted;
    assert sent + (rest + (writeos + message)) == sent + (rest + writeos) + message;
  }

  lemma ReactorShape(s: State)
    requires Shaped(s)
    ensures Shaped(StepReactor(s))
  {
  }

  lemma EmptyBuffer(writebuf: Bytes, writeos: Bytes)
    ensures Left([], 0, writeos) == Left(writebuf, |writebuf|, writeos)
    ensures Left(writeos, 0, []) == Left([], 0, writeos)
  {
  }

  /** The swap and the clearing of a sent buffer keep the unsent bytes, and nothing else
      touches the buffers. */
  lemma ReactorKeepsUnsent(s: State)
    requires Shaped(s) && Shaped(StepReactor(s))
    ensures Unsent(StepReactor(s)) == Unsent(s)
  {
    var e := StepReactor(s);
    EmptyBuffer(s.writebuf, s.writeos);
    if s.reactor.Swapping? && s.writebuf == [] {
      assert e.writebuf == s.writeos && e.writeos == [] && e.offset == s.offset == 0;
    } else if s.reactor.Sent? && s.offset == |s.writebuf| {
      assert e.writebuf == [] && e.offset == 0 && e.writeos == s.writeos;
    } else {
      assert e.writebuf == s.writebuf && e.writeos == s.writeos && e.offset == s.offset;
    }
  }

  lemma ReactorKeepsHistory(s: State)
    ensures StepReactor(s).sent == s.sent && StepReactor(s).accepted == s.accepted
  {
  }

  lemma SameBytes(s: State, e: State)
    requires Conserved(s) && Shaped(e)
    requires Unsent(e) == Unsent(s) && e.sent == s.sent && e.accepted == s.accepted
    ensures Conserved(e)
  {
  }

  lemma ReactorConserves(s: State)
    requires Conserved(s)
    ensures Conserved(StepReactor(s))
  {
    ReactorShape(s);
    ReactorKeepsUnsent(s);
    ReactorKeepsHistory(s);
    SameBytes(s, StepReactor(s));
  }

  /** The message that a thread inside the critical section finds room for. */
  predicate Fits(s: State, i: nat)
    requires i < |s.senders|
  {
    s.senders[i].HasLock? && |s.senders[i].message| <= s.room - |s.writeos|
  }

  lemma SenderKeepsBytes(s: State, i: nat)
    requires i < |s.senders| && !Fits(s, i)
    ensures var e := StepSender(s, i);
      e == s.(lock := e.lock, senders := e.senders, sendEvent := e.sendEvent)
  {
  }

  lemma SenderConserves(s: State, i: nat)
    requires Conserved(s) && i < |s.senders|
    ensures Conserved(StepSender(s, i))
  {
    var e := StepSender(s, i);
    if Fits(s, i) {
      var message := s.senders[i].message;
      AppendConserves(s.sent, s.writebuf[s.offset..], s.writeos, message, s.accepted);
      assert e == s.(writeos := s.writeos + message, accepted := s.accepted + [message], senders := e.senders);
    } else {
      SenderKeepsBytes(s, i);
    }
  }

  lemma SocketConserves(s: State, n: nat)
    requires Conserved(s) && s.reactor.Sending? && 0 < n <= |s.writebuf| - s.offset
    ensures Conserved(Step(s, Send(n)))
  {
    hide StepReactor, StepSender, Close;
    SendConserves(s.sent, s.writebuf, s.offset, n, s.writeos);
  }

  lemma StepConserves(s: State, m: Move)
    requires Conserved(s)
    ensures Conserved(Step(s, m))
  {
    hide StepReactor, StepSender, Flatten, Left;
    if m.ReactorStep? {
      assert Step(s, m) == StepReactor(s);
      ReactorConserves(s);
    } else if m.SenderStep? && m.i < |s.senders| {
      assert Step(s, m) == StepSender(s, m.i);
      SenderConserves(s, m.i);
    } else if m.Send? && s.reactor.Sending? && 0 < m.n <= |s.writebuf| - s.offset {
      SocketConserves(s, m.n);
    }
  }

  // ---------------------------------------------------------------------------
  // The event mask
  // ---------------------------------------------------------------------------

  /** Bytes are left only with EVENT_SEND set, or while the thread that appended them still
      has the lock; and the reactor removes EVENT_SEND only when no bytes are left. */
  ghost predicate MaskInv(s: State) {
    && (s.deleted || s.sendEvent || (s.writebuf == [] && s.writeos == [])
        || (s.lock.BySender? && s.lock.i < |s.senders| && s.senders[s.lock.i].Permitting?))
    && (s.reactor.Forbidding? ==> s.writebuf == [] && s.writeos == [])
    && (s.reactor.Leaving? && !s.deleted && !s.sendEvent ==> s.writebuf == [] && s.writeos == [])
    && (s.reactor.Checking? && s.writebuf == [] ==> s.writeos == [])
    && (s.reactor.Sending? || s.reactor.Sent? || s.reactor.Checking? || s.reactor.Swapping? || s.reactor.WantLock? ==>
          s.deleted || s.sendEvent)
  }

  lemma ReactorMask(s: State)
    requires LockInv(s) && Conserved(s) && MaskInv(s)
    ensures MaskInv(StepReactor(s))
  {
  }

  lemma SenderMask(s: State, i: nat)
    requires LockInv(s) && Conserved(s) && MaskInv(s) && i < |s.senders|
    ensures MaskInv(StepSender(s, i))
  {
  }

  lemma StepMask(s: State, m: Move)
    requires LockInv(s) && Conserved(s) && MaskInv(s)
    ensures MaskInv(Step(s, m))
  {
    match m
    case ReactorStep => ReactorMask(s);
    case SenderStep(i) => if i < |s.senders| { SenderMask(s, i); }
    case _ =>
  }

  ghost predicate Inv(s: State) {
    LockInv(s) && Conserved(s) && MaskInv(s)
  }

  lemma StepInv(s: State, m: Move)
    requires Inv(s)
    ensures Inv(Step(s, m))
  {
    StepLock(s, m);
    StepConserves(s, m);
    StepMask(s, m);
  }

  lemma {:induction false} RunInv(threads: nat, room: nat, bufRoom: nat, moves: seq<Move>)
    ensures Inv(Run(Init(threads, room, bufRoom), moves))
  {
    if moves != [] {
      RunInv(threads, room, bufRoom, moves[..|moves| - 1]);
      StepInv(Run(Init(threads, room, bufRoom), moves[..|moves| - 1]), moves[|moves| - 1]);
    }
  }

  // ---------------------------------------------------------------------------
  // Main results
  // ---------------------------------------------------------------------------

  /** Under any interleaving, the bytes sent, the unsent rest of `_writebuf` and `_writeos`
      make up the accepted messages in the order in which they were accepted. */
  lemma NothingLostOrReordered(threads: nat, room: nat, bufRoom: nat, moves: seq<Move>)
    ensures var s := Run(Init(threads, room, bufRoom), moves);
      s.offset <= |s.writebuf| && s.sent + s.writebuf[s.offset..] + s.writeos == Flatten(s.accepted)
  {
    RunInv(threads, room, bufRoom, moves);
    var s := Run(Init(threads, room, bufRoom), moves);
    assert s.sent + Unsent(s) == s.sent + s.writebuf[s.offset..] + s.writeos;
  }

  /** While the event is not deleted, whenever the lock is free and bytes are left, EVENT_SEND
      is in the mask. */
  lemma SendEventIsSet(threads: nat, room: nat, bufRoom: nat, moves: seq<Move>)
    requires var s := Run(Init(threads, room, bufRoom), moves);
      !s.deleted && s.lock.Free? && s.offset <= |s.writebuf| && Unsent(s) != []
    ensures Run(Init(threads, room, bufRoom), moves).sendEvent
  {
    RunInv(threads, room, bufRoom, moves);
  }

  /** The threads exclude each other. */
  lemma OneInside(threads: nat, room: nat, bufRoom: nat, moves: seq<Move>, i: nat, j: nat)
    requires var s := Run(Init(threads, room, bufRoom), moves);
      i < |s.senders| && j < |s.senders| && SenderInside(s.senders[i])
    ensures var s := Run(Init(threads, room, bufRoom), moves);
      !ReactorInside(s.reactor) && (SenderInside(s.senders[j]) ==> i == j)
  {
    RunInv(threads, room, bufRoom, moves);
  }

  /** The swap exchanges the capacities and every other step keeps them. */
  lemma StepKeepsRoom(s: State, m: Move)
    ensures Step(s, m).room + Step(s, m).bufRoom == s.room + s.bufRoom
  {
    if m.ReactorStep? {
      assert Step(s, m) == StepReactor(s);
    } else if m.SenderStep? && m.i < |s.senders| {
      assert Step(s, m) == StepSender(s, m.i);
    }
  }

  lemma {:induction false} RunKeepsRoom(s: State, moves: seq<Move>)
    ensures Run(s, moves).room + Run(s, moves).bufRoom == s.room + s.bufRoom
  {
    if moves != [] {
      RunKeepsRoom(s, moves[..|moves| - 1]);
      StepKeepsRoom(Run(s, moves[..|moves| - 1]), moves[|moves| - 1]);
    }
  }

  /** However many messages are accepted, what is not sent yet fits in the two buffers. */
  lemma UnsentIsBounded(threads: nat, room: nat, bufRoom: nat, moves: seq<Move>)
    ensures var s := Run(Init(threads, room, bufRoom), moves);
      s.offset <= |s.writebuf| && |Unsent(s)| <= room + bufRoom
  {
    RunInv(threads, room, bufRoom, moves);
    RunKeepsRoom(Init(threads, room, bufRoom), moves);
  }

  lemma AllSent(s: State)
    requires Conserved(s) && s.writebuf == [] && s.writeos == []
    ensures s.sent == Flatten(s.accepted)
  {
    assert s.writebuf[s.offset..] + s.writeos == [];
    assert s.sent == s.sent + Unsent(s);
  }

  // ---------------------------------------------------------------------------
  // Closing
  // ---------------------------------------------------------------------------

  /** The event is deleted, and `handle_write` is not under way, or about to return. */
  predicate Gone(s: State) {
    s.deleted && (s.reactor.Waiting? || s.reactor.Reporting?)
  }

  lemma GoneStays(s: State, m: Move)
    requires Gone(s)
    ensures Gone(Step(s, m)) && Step(s, m).sent == s.sent
  {
    if m.SenderStep? && m.i < |s.senders| {
      assert Step(s, m) == StepSender(s, m.i);
    }
  }

  lemma {:induction false} DeletedSendsNoMore(s: State, more: seq<Move>)
    requires Gone(s)
    ensures Gone(Run(s, more)) && Run(s, more).sent == s.sent
  {
    if more != [] {
      hide Step, Gone;
      DeletedSendsNoMore(s, more[..|more| - 1]);
      GoneStays(Run(s, more[..|more| - 1]), more[|more| - 1]);
    }
  }

  /** A send that fails deletes the event: nothing is sent in any continuation, and what is
      left stays unsent. */
  lemma FailedSendIsTheLast(threads: nat, room: nat, bufRoom: nat, moves: seq<Move>, more: seq<Move>)
    requires Run(Init(threads, room, bufRoom), moves).reactor.Sending?
    ensures var s := Run(Init(threads, room, bufRoom), moves);
      var e := Run(Step(s, SendFails), more);
      && e.deleted && e.sent == s.sent && s.sent < Flatten(s.accepted)
  {
    var s := Run(Init(threads, room, bufRoom), moves);
    RunInv(threads, room, bufRoom, moves);
    DeletedSendsNoMore(Step(s, SendFails), more);
    assert |s.sent + Unsent(s)| == |s.sent| + |Unsent(s)|;
    assert |Unsent(s)| == |s.writebuf| - s.offset + |s.writeos|;
  }

  /** `handle_close` is meant to delete the event of a closing session once its output is
      sent.  It does delete it then; but it may delete it before, and then all that was
      accepted is sent, whatever happens later, if and only if `_writebuf` was empty. */
  lemma CloseSendsAllIffBufferIsEmpty(threads: nat, room: nat, bufRoom: nat, moves: seq<Move>, more: seq<Move>)
    requires var s := Run(Init(threads, room, bufRoom), moves);
      s.reactor.Waiting? && s.closing && !s.deleted
    ensures var s := Run(Init(threads, room, bufRoom), moves);
      var e := Step(s, HandleClose);
      && (s.sent == Flatten(s.accepted) ==> e.deleted)
      && (e.deleted ==> (Run(e, more).sent == Flatten(s.accepted) <==> s.writebuf == []))
  {
    RunInv(threads, room, bufRoom, moves);
    var s := Run(Init(threads, room, bufRoom), moves);
    assert |s.sent + Unsent(s)| == |s.sent| + |Unsent(s)|;
    assert |Unsent(s)| == |s.writebuf| - s.offset + |s.writeos|;
    if Step(s, HandleClose).deleted {
      DeletedSendsNoMore(Step(s, HandleClose), more);
      if s.writebuf == [] {
        AllSent(s);
      }
    }
  }

  lemma RunLast(s: State, front: seq<Move>, m: Move)
    ensures Run(s, front + [m]) == Step(Run(s, front), m)
  {
    hide Step;
    assert (front + [m])[..|front|] == front;
  }

  /** Thread `i` sends a message. */
  function SendMoves(i: nat, message: Bytes): seq<Move> {
    [Enter(i, message)] + [SenderStep(i)] + [SenderStep(i)] + [SenderStep(i)] + [SenderStep(i)]
  }

  lemma TakesLock(s: State, i: nat, message: Bytes)
    requires i < |s.senders| && s.senders[i].Outside? && !s.closing && s.lock.Free?
    ensures Step(Step(s, Enter(i, message)), SenderStep(i)) ==
      s.(lock := BySender(i), senders := s.senders[i := HasLock(message)])
  {
    assert Step(s, Enter(i, message)) == s.(senders := s.senders[i := WantsLock(message)]);
  }

  lemma Appends(s: State, i: nat)
    requires i < |s.senders| && Fits(s, i)
    ensures Step(s, SenderStep(i)) ==
      s.(writeos := s.writeos + s.senders[i].message, accepted := s.accepted + [s.senders[i].message],
         senders := s.senders[i := Permitting])
  {
  }

  lemma Leaves(s: State, i: nat)
    requires i < |s.senders| && s.senders[i].Permitting? && !s.deleted
    ensures Step(Step(s, SenderStep(i)), SenderStep(i)) ==
      s.(sendEvent := true, lock := Free, senders := s.senders[i := Outside])
  {
    assert Step(s, SenderStep(i)) == s.(sendEvent := true, senders := s.senders[i := Releasing]);
  }

  lemma SendMovesAccept(s: State, i: nat, message: Bytes)
    requires i < |s.senders| && s.senders[i].Outside? && !s.closing && s.lock.Free? && !s.deleted
    requires |message| <= s.room - |s.writeos|
    ensures Run(s, SendMoves(i, message)) ==
      s.(writeos := s.writeos + message, accepted := s.accepted + [message], sendEvent := true)
  {
    assert Run(s, []) == s;
    hide Step, Run;
    var m := SenderStep(i);
    RunLast(s, [], Enter(i, message));
    RunLast(s, [Enter(i, message)], m);
    TakesLock(s, i, message);
    var s2 := s.(lock := BySender(i), senders := s.senders[i := HasLock(message)]);
    RunLast(s, [Enter(i, message)] + [m], m);
    Appends(s2, i);
    RunLast(s, [Enter(i, message)] + [m] + [m], m);
    RunLast(s, [Enter(i, message)] + [m] + [m] + [m], m);
    Leaves(Step(s2, m), i);
    assert s.senders[i := HasLock(message)][i := Permitting][i := Outside] == s.senders;
  }

  /** `handle_write` up to the first `send`. */
  function SwapMoves(before: seq<Move>): seq<Move> {
    before + [ReactorStep] + [ReactorStep] + [ReactorStep] + [ReactorStep]
  }

  lemma FourReactorSteps(s: State)
    requires s.reactor.Waiting? && s.sendEvent && !s.deleted && s.lock.Free? && s.writebuf == [] && s.writeos != []
    ensures StepReactor(StepReactor(StepReactor(StepReactor(s)))) == SwapBuffers(s).(reactor := Sending)
  {
    var s1 := s.(reactor := WantLock(false));
    var s2 := s1.(lock := ByReactor, reactor := Swapping(false));
    assert StepReactor(s1) == s2;
    var s3 := SwapBuffers(s).(lock := ByReactor, reactor := Checking(false));
    assert StepReactor(s2) == s3;
  }

  lemma SwapMovesSwap(s0: State, before: seq<Move>)
    requires var s := Run(s0, before);
      s.reactor.Waiting? && s.sendEvent && !s.deleted && s.lock.Free? && s.writebuf == [] && s.writeos != []
    ensures Run(s0, SwapMoves(before)) == SwapBuffers(Run(s0, before)).(reactor := Sending)
  {
    hide StepReactor;
    var r := ReactorStep;
    RunLast(s0, before, r);
    RunLast(s0, before + [r], r);
    RunLast(s0, before + [r] + [r], r);
    RunLast(s0, before + [r] + [r] + [r], r);
    FourReactorSteps(Run(s0, before));
  }

  /** The socket takes nothing for now; the session is set to CLOSING, and an event ends. */
  function CloseMoves(before: seq<Move>): seq<Move> {
    before + [SendLater] + [ReactorStep] + [SetState(true)] + [HandleClose]
  }

  lemma CloseMovesDelete(s0: State, before: seq<Move>)
    requires var s := Run(s0, before);
      s.reactor.Sending? && !s.deleted && s.writeos == [] && s.offset == 0
    ensures Run(s0, CloseMoves(before)) == Run(s0, before).(reactor := Waiting, closing := true, deleted := true)
  {
    RunLast(s0, before, SendLater);
    RunLast(s0, before + [SendLater], ReactorStep);
    RunLast(s0, before + [SendLater] + [ReactorStep], SetState(true));
    RunLast(s0, before + [SendLater] + [ReactorStep] + [SetState(true)], HandleClose);
  }

  /** A message is accepted by a new session and never sent. */
  lemma AcceptedOutputIsLost(message: Bytes, more: seq<Move>)
    requires message != []
    ensures var s := Run(Init(1, |message|, |message|), CloseMoves(SwapMoves(SendMoves(0, message))));
      s.accepted == [message] && s.deleted && Run(s, more).sent == []
  {
    var s0 := Init(1, |message|, |message|);
    SendMovesAccept(s0, 0, message);
    SwapMovesSwap(s0, SendMoves(0, message));
    CloseMovesDelete(s0, SwapMoves(SendMoves(0, message)));
    DeletedSendsNoMore(Run(s0, CloseMoves(SwapMoves(SendMoves(0, message)))), more);
  }

  // ---------------------------------------------------------------------------
  // Draining
  // ---------------------------------------------------------------------------

  /** The next step of the reactor with a socket that takes everything it is given. */
  function FlushMove(s: State): Move {
    if s.reactor.Sending? && s.offset <= |s.writebuf| then Send(|s.writebuf| - s.offset) else ReactorStep
  }

  function FlushStep(s: State): State {
    Step(s, FlushMove(s))
  }

  function Flush(s: State, k: nat): State
    decreases k
  {
    if k == 0 then s else Flush(FlushStep(s), k - 1)
  }

  lemma FourSteps(s: State)
    ensures Flush(s, 4) == FlushStep(FlushStep(FlushStep(FlushStep(s))))
  {
    var s2 := FlushStep(FlushStep(s));
    assert Flush(s, 4) == Flush(FlushStep(s), 3) == Flush(s2, 2) == Flush(FlushStep(s2), 1);
  }

  lemma {:induction false} FlushOn(s: State, j: nat, k: nat)
    ensures Flush(s, j + k) == Flush(Flush(s, j), k)
    decreases j
  {
    hide Step;
    if j > 0 {
      FlushOn(FlushStep(s), j - 1, k);
    }
  }

  /** All is sent and `handle_write` has returned. */
  ghost predicate Flushed(s: State, accepted: seq<Bytes>) {
    && s.reactor.Waiting? && s.lock.Free? && !s.sendEvent && s.writebuf == [] && s.writeos == []
    && s.accepted == accepted && s.sent == Flatten(accepted)
  }

  /** Nothing is left: the critical section removes EVENT_SEND. */
  lemma FlushNothing(s: State)
    requires Inv(s) && !s.deleted && s.reactor.Swapping? && s.writebuf == [] && s.writeos == []
    ensures var e := Flush(s, 4);
      && e.reactor == (if s.reactor.again then Reporting else Waiting) && e.lock.Free? && !e.sendEvent
      && e.writebuf == [] && e.writeos == [] && e.accepted == s.accepted && e.sent == s.sent
  {
    var again := s.reactor.again;
    var s1 := s.(room := FlushStep(s).room, bufRoom := FlushStep(s).bufRoom, reactor := Checking(again));
    assert FlushStep(s) == s1 by {
      assert FlushStep(s) == SwapBuffers(s).(reactor := Checking(again));
    }
    var s2 := s1.(reactor := Forbidding(again));
    assert FlushStep(s1) == s2;
    var s3 := s2.(sendEvent := false, reactor := Leaving(again));
    assert FlushStep(s2) == s3;
    assert FlushStep(s3) == s3.(lock := Free, reactor := if again then Reporting else Waiting);
    FourSteps(s);
  }

  /** The steps of `handle_write` after nothing is left. */
  function Rest(again: bool): nat {
    if again then 5 else 4
  }

  lemma FlushEnds(s: State)
    requires Inv(s) && !s.deleted && s.reactor.Swapping? && s.writebuf == [] && s.writeos == []
    ensures Flushed(Flush(s, Rest(s.reactor.again)), s.accepted)
  {
    AllSent(s);
    FlushNothing(s);
    var e := Flush(s, 4);
    if s.reactor.again {
      FlushOn(s, 4, 1);
      assert Flush(e, 1) == Flush(FlushStep(e), 0);
    }
  }

  lemma {:induction false} FlushInv(s: State, k: nat)
    requires Inv(s)
    ensures Inv(Flush(s, k))
    decreases k
  {
    if k > 0 {
      StepInv(s, FlushMove(s));
      FlushInv(FlushStep(s), k - 1);
    }
  }

  /** One buffer is sent, and the next critical section is reached. */
  lemma FlushBuffer(s: State)
    requires Inv(s) && !s.deleted && s.reactor.Swapping? && (s.writebuf != [] || s.writeos != [])
    ensures var e := Flush(s, 5);
      && Inv(e) && !e.deleted && e.reactor.Swapping? && e.accepted == s.accepted && e.writebuf == []
      && e.writeos == if s.writebuf == [] then [] else s.writeos
  {
    var s1 := SwapBuffers(s).(reactor := Checking(s.reactor.again));
    assert FlushStep(s) == s1;
    assert s1.writebuf != [] && s1.offset < |s1.writebuf| && (s.reactor.again ==> s1.offset == 0);
    var s2 := s1.(lock := Free, reactor := Sending);
    assert FlushStep(s1) == s2;
    var s3 := s2.(sent := FlushStep(s2).sent, offset := |s2.writebuf|, reactor := Sent);
    assert FlushStep(s2) == s3;
    var s4 := s3.(writebuf := [], offset := 0, reactor := WantLock(true));
    assert FlushStep(s3) == s4;
    assert FlushStep(s4) == s4.(lock := ByReactor, reactor := Swapping(true));
    FourSteps(s);
    FlushOn(s, 4, 1);
    assert Flush(s4, 1) == Flush(FlushStep(s4), 0);
    FlushInv(s, 5);
  }

  lemma {:induction false} FlushRest(s: State) returns (k: nat)
    requires Inv(s) && !s.deleted && s.reactor.Swapping?
    ensures Flushed(Flush(s, k), s.accepted)
    decreases (if s.writebuf != [] then 2 else 0) + (if s.writeos != [] then 1 else 0)
  {
    if s.writebuf == [] && s.writeos == [] {
      k := Rest(s.reactor.again);
      FlushEnds(s);
    } else {
      FlushBuffer(s);
      k := FlushRest(Flush(s, 5));
      FlushOn(s, 5, k);
      k := 5 + k;
    }
  }

  lemma FlushAll(s: State) returns (k: nat)
    requires Inv(s) && !s.deleted && s.lock.Free? && s.reactor.Waiting? && s.sendEvent
    ensures Flushed(Flush(s, k), s.accepted)
  {
    var s1 := Step(s, ReactorStep);
    StepInv(s, ReactorStep);
    var s2 := Step(s1, ReactorStep);
    StepInv(s1, ReactorStep);
    assert Flush(s, 2) == Flush(s1, 1) == Flush(s2, 0);
    k := FlushRest(s2);
    FlushOn(s, 2, k);
    k := 2 + k;
  }

  /** One undisturbed call of `handle_write`, with a socket that takes what it is given,
      sends everything that was accepted and removes EVENT_SEND. */
  lemma HandleWriteSendsAll(threads: nat, room: nat, bufRoom: nat, moves: seq<Move>)
    requires var s := Run(Init(threads, room, bufRoom), moves);
      !s.deleted && s.lock.Free? && s.reactor.Waiting? && s.sendEvent
    ensures var s := Run(Init(threads, room, bufRoom), moves);
      exists k :: Flushed(Flush(s, k), s.accepted)
  {
    RunInv(threads, room, bufRoom, moves);
    var k := FlushAll(Run(Init(threads, room, bufRoom), moves));
  }

  lemma {:induction false} RunOnInv(s: State, more: seq<Move>)
    requires Inv(s)
    ensures Inv(Run(s, more))
    decreases |more|
  {
    hide Inv, Step;
    if more != [] {
      RunOnInv(s, more[..|more| - 1]);
      StepInv(Run(s, more[..|more| - 1]), more[|more| - 1]);
    }
  }

  /** Whatever happened before: a message that fits, sent while nobody disturbs, is given to
      the socket behind all messages before it, by the next call of `handle_write`. */
  lemma SentMessageArrives(threads: nat, room: nat, bufRoom: nat, moves: seq<Move>, i: nat, message: Bytes)
    requires var s := Run(Init(threads, room, bufRoom), moves);
      && !s.deleted && !s.closing && s.lock.Free? && s.reactor.Waiting?
      && i < |s.senders| && s.senders[i].Outside? && |message| <= s.room - |s.writeos|
    ensures var s := Run(Init(threads, room, bufRoom), moves);
      exists k :: Flushed(Flush(Run(s, SendMoves(i, message)), k), s.accepted + [message])
  {
    hide Inv, Flushed, Flush, Step;
    var s := Run(Init(threads, room, bufRoom), moves);
    RunInv(threads, room, bufRoom, moves);
    SendMovesAccept(s, i, message);
    RunOnInv(s, SendMoves(i, message));
    var k := FlushAll(Run(s, SendMoves(i, message)));
  }

  lemma Refuses(s: State, i: nat)
    requires i < |s.senders| && s.senders[i].HasLock? && |s.senders[i].message| > s.room - |s.writeos|
    ensures Step(Step(s, SenderStep(i)), SenderStep(i)) == s.(lock := Free, senders := s.senders[i := Outside])
  {
    assert Step(s, SenderStep(i)) == s.(senders := s.senders[i := Releasing]);
  }

  /** A message that does not fit is refused, and leaves nothing behind. */
  lemma LongMessageIsRefused(s: State, i: nat, message: Bytes)
    requires i < |s.senders| && s.senders[i].Outside? && !s.closing && s.lock.Free?
    requires |message| > s.room - |s.writeos|
    ensures Run(s, [Enter(i, message)] + [SenderStep(i)] + [SenderStep(i)] + [SenderStep(i)]) == s
  {
    assert Run(s, []) == s;
    hide Step, Run;
    var m := SenderStep(i);
    RunLast(s, [], Enter(i, message));
    RunLast(s, [Enter(i, message)], m);
    TakesLock(s, i, message);
    RunLast(s, [Enter(i, message)] + [m], m);
    RunLast(s, [Enter(i, message)] + [m] + [m], m);
    var s2 := s.(lock := BySender(i), senders := s.senders[i := HasLock(message)]);
    Refuses(s2, i);
    assert s.senders[i := HasLock(message)][i := Outside] == s.senders;
  }
}
