/** Left-Right: wait-free reads of a structure that is kept in two copies.

    The class is modelled as the interleaving, under sequential consistency, of the
    atomic steps of any number of threads.  A schedule (a sequence of `Move`s) names
    the thread that takes the next step; every schedule is a possible run, so a lemma
    about `Exec(c, schedule)` for all schedules speaks about every reachable state. */
module LeftRight {
  import opened Options

  datatype Side = LeftSide | RightSide {
    function Other(): Side {
      if this == LeftSide then RightSide else LeftSide
    }
  }

  /** One copy of the structure.  While a write function runs on it, the copy is torn:
      a read of it would see no well-defined value. */
  datatype Copy<V> = Whole(value: V) | Torn(before: V)

  /** `slots[t]` is the indicator cell that thread `t` hashes to; `apply` is the
      (repeatable) write function and `init` the value both copies start from. */
  datatype Config<!V, !O> = Config(cells: nat, slots: seq<nat>, init: V, apply: (V, O) -> V) {
    predicate Valid() {
      0 < cells && forall t :: 0 <= t < |slots| ==> slots[t] < cells
    }
  }

  /** History only: what was already over when a read was invoked. */
  datatype Start = Start(writesDone: nat, readsDone: nat)

  datatype Pc<V, O> =
    | Idle
    // a reader, in the order of `arrive`, the load of `_left_right`, the call, `depart`
    | GotVersion(vi: nat, start: Start)
    | Arrived(vi: nat, start: Start)
    | Holding(vi: nat, start: Start, side: Side, k: nat)
    | Called(vi: nat, start: Start, side: Side, k: nat, seen: Copy<V>)
    // a writer; `was` is the side readers used when the lock was taken
    | Locked(op: O)
    | First(op: O, was: Side)
    | FirstDone(op: O, was: Side)
    | Flipped(op: O, was: Side)
    | ScanNext(op: O, was: Side, next: nat, cell: nat)
    | ScanPrev(op: O, was: Side, prev: nat, cell: nat)
    | Second(op: O, was: Side)
    | Finishing(op: O)
  {
    predicate IsReader() { GotVersion? || Arrived? || Holding? || Called? }
    predicate HasArrived() { Arrived? || Holding? || Called? }
    predicate IsHolder() { Holding? || Called? }
    predicate IsWriter() { !Idle? && !IsReader() }
    predicate Fits() {
      (IsReader() ==> vi < 2) && (ScanNext? ==> next < 2) && (ScanPrev? ==> prev < 2)
    }
    // the write has not been made visible to readers yet
    predicate Unpublished() { Locked? || First? || FirstDone? }
  }

  /** History of a completed read: it saw the state after the first `k` writes. */
  datatype Read<V> = Read(start: Start, k: nat, writesBegun: nat, seen: Copy<V>)

  datatype State<V, O> = State(
    left: Copy<V>,
    right: Copy<V>,
    leftRight: Side,
    version: nat,
    counters: seq<seq<int>>,   // counters[vi][cell]
    lock: Option<nat>,
    pcs: seq<Pc<V, O>>,
    log: seq<O>,               // history: the writes in the order they took the lock
    history: seq<Read<V>>)       // history: the completed reads
  {
    function CopyOf(side: Side): Copy<V> {
      if side == LeftSide then left else right
    }
    function WithCopy(side: Side, copy: Copy<V>): State<V, O> {
      if side == LeftSide then this.(left := copy) else this.(right := copy)
    }
    function WithPc(t: nat, pc: Pc<V, O>): State<V, O>
      requires t < |pcs|
    {
      this.(pcs := pcs[t := pc])
    }
    predicate Shaped(cells: nat) {
      && version < 2
      && |counters| == 2 && |counters[0]| == cells && |counters[1]| == cells
      && (lock.Some? ==> lock.value < |pcs|)
    }
    /** Number of writes whose `apply_write` has returned. */
    function WritesDone(): nat {
      if lock.Some? && |log| > 0 then |log| - 1 else |log|
    }
    /** Number of writes readers can already be sent to. */
    function Published(): nat
      requires lock.Some? ==> lock.value < |pcs|
    {
      if lock.Some? && pcs[lock.value].Unpublished() && |log| > 0 then |log| - 1 else |log|
    }
  }

  datatype Request<O> = ReadCall | WriteCall(op: O)
  datatype Move<O> = Move(t: nat, request: Request<O>)

  function Fold<V, O>(c: Config<V, O>, ops: seq<O>): V {
    if ops == [] then c.init else c.apply(Fold(c, ops[..|ops| - 1]), ops[|ops| - 1])
  }

  function AllIdle<V, O>(n: nat): seq<Pc<V, O>> {
    seq(n, _ => Idle)
  }

  function Init<V, O>(c: Config<V, O>): State<V, O> {
    State(Whole(c.init), Whole(c.init), LeftSide, 0,
          [seq(c.cells, _ => 0), seq(c.cells, _ => 0)],
          None, AllIdle(|c.slots|), [], [])
  }

  function Bump(counters: seq<seq<int>>, vi: nat, cell: nat, delta: int): seq<seq<int>>
    requires vi < |counters| && cell < |counters[vi]|
  {
    counters[vi := counters[vi][cell := counters[vi][cell] + delta]]
  }

  predicate StateFits<V, O>(c: Config<V, O>, s: State<V, O>) {
    && c.Valid() && s.Shaped(c.cells) && |s.pcs| == |c.slots|
    && (forall t :: 0 <= t < |s.pcs| ==> s.pcs[t].Fits())
  }

  /** The next atomic step of thread `t` in `apply_read`. */
  function ReaderStep<V, O>(c: Config<V, O>, s: State<V, O>, t: nat): State<V, O>
    requires StateFits(c, s) && t < |s.pcs| && s.pcs[t].IsReader()
  {
    match s.pcs[t]
    case GotVersion(vi, start) =>
      s.(counters := Bump(s.counters, vi, c.slots[t], 1)).WithPc(t, Arrived(vi, start))
    case Arrived(vi, start) =>
      s.WithPc(t, Holding(vi, start, s.leftRight, s.Published()))
    case Holding(vi, start, side, k) =>
      s.WithPc(t, Called(vi, start, side, k, s.CopyOf(side)))
    case Called(vi, start, side, k, seen) =>
      s.(counters := Bump(s.counters, vi, c.slots[t], -1),
         history := s.history + [Read(start, k, |s.log|, seen)]).WithPc(t, Idle)
  }

  /** The next atomic step of thread `t` in `apply_write`.  A scan of an indicator reads
      one cell a step, and starts over when it meets a cell that is not zero. */
  function WriterStep<V, O>(c: Config<V, O>, s: State<V, O>, t: nat): State<V, O>
    requires StateFits(c, s) && t < |s.pcs| && s.pcs[t].IsWriter()
  {
    match s.pcs[t]
    case Locked(op) =>
      var was := s.leftRight;
      Tear(s, was.Other()).WithPc(t, First(op, was))
    case First(op, was) =>
      Mend(c, s, was.Other(), op).WithPc(t, FirstDone(op, was))
    case FirstDone(op, was) =>
      s.(leftRight := was.Other()).WithPc(t, Flipped(op, was))
    case Flipped(op, was) =>
      s.WithPc(t, ScanNext(op, was, (s.version + 1) % 2, 0))
    case ScanNext(op, was, next, cell) =>
      if cell >= c.cells then
        s.(version := next).WithPc(t, ScanPrev(op, was, 1 - next, 0))
      else
        s.WithPc(t, ScanNext(op, was, next, if s.counters[next][cell] != 0 then 0 else cell + 1))
    case ScanPrev(op, was, prev, cell) =>
      if cell >= c.cells then
        Tear(s, was).WithPc(t, Second(op, was))
      else
        s.WithPc(t, ScanPrev(op, was, prev, if s.counters[prev][cell] != 0 then 0 else cell + 1))
    case Second(op, was) =>
      Mend(c, s, was, op).WithPc(t, Finishing(op))
    case Finishing(op) =>
      s.(lock := None).WithPc(t, Idle)
  }

  function Content<V>(copy: Copy<V>): V {
    if copy.Whole? then copy.value else copy.before
  }

  function Tear<V, O>(s: State<V, O>, side: Side): State<V, O> {
    s.WithCopy(side, Torn(Content(s.CopyOf(side))))
  }

  function Mend<V, O>(c: Config<V, O>, s: State<V, O>, side: Side, op: O): State<V, O> {
    s.WithCopy(side, Whole(c.apply(Content(s.CopyOf(side)), op)))
  }

  /** One move of the schedule.  A thread that wants the lock while it is taken waits. */
  function Step<V, O>(c: Config<V, O>, s: State<V, O>, m: Move<O>): State<V, O>
    requires StateFits(c, s)
  {
    if m.t >= |s.pcs| then s
    else if s.pcs[m.t].IsReader() then ReaderStep(c, s, m.t)
    else if s.pcs[m.t].IsWriter() then WriterStep(c, s, m.t)
    else match m.request
      case ReadCall =>
        s.WithPc(m.t, GotVersion(s.version, Start(s.WritesDone(), |s.history|)))
      case WriteCall(op) =>
        if s.lock.Some? then s
        else s.(lock := Some(m.t), log := s.log + [op]).WithPc(m.t, Locked(op))
  }

  // ---------------------------------------------------------------------------
  // The invariant
  // ---------------------------------------------------------------------------

  /** Number of threads standing in one cell of one indicator. */
  ghost function Standing<V, O>(pcs: seq<Pc<V, O>>, slots: seq<nat>, vi: nat, cell: nat): nat
    requires |pcs| <= |slots|
  {
    if pcs == [] then 0
    else
      var n := |pcs| - 1;
      Standing(pcs[..n], slots, vi, cell)
      + (if pcs[n].HasArrived() && pcs[n].vi == vi && slots[n] == cell then 1 else 0)
  }

  ghost predicate CountersExact<V, O>(c: Config<V, O>, s: State<V, O>)
    requires StateFits(c, s)
  {
    forall vi, cell :: 0 <= vi < 2 && 0 <= cell < c.cells ==>
      s.counters[vi][cell] == Standing(s.pcs, c.slots, vi, cell)
  }

  ghost predicate LockOwned<V, O>(s: State<V, O>) {
    && (forall t :: 0 <= t < |s.pcs| && s.pcs[t].IsWriter() ==> s.lock == Some(t))
    && (s.lock.Some? ==> s.lock.value < |s.pcs| && s.pcs[s.lock.value].IsWriter() && |s.log| > 0)
  }

  /** What the lock holder's position says about the two copies and the version. */
  ghost predicate WriterAt<V, O>(c: Config<V, O>, s: State<V, O>)
    requires s.lock.Some? ==> s.lock.value < |s.pcs| && |s.log| > 0
  {
    var now := Whole(Fold(c, s.log));
    var here, there := s.CopyOf(s.leftRight), s.CopyOf(s.leftRight.Other());
    if s.lock.None? then here == now && there == now
    else
      var n := |s.log| - 1;
      var prior := Fold(c, s.log[..n]);
      match s.pcs[s.lock.value]
      case Locked(op) => op == s.log[n] && here == Whole(prior) && there == Whole(prior)
      case First(op, was) => op == s.log[n] && was == s.leftRight && here == Whole(prior) && there == Torn(prior)
      case FirstDone(op, was) => op == s.log[n] && was == s.leftRight && here == Whole(prior) && there == now
      case Flipped(op, was) => op == s.log[n] && was == s.leftRight.Other() && here == now && there == Whole(prior)
      case ScanNext(op, was, next, cell) =>
        op == s.log[n] && was == s.leftRight.Other() && here == now && there == Whole(prior)
        && next == 1 - s.version
      case ScanPrev(op, was, prev, cell) =>
        op == s.log[n] && was == s.leftRight.Other() && here == now && there == Whole(prior)
        && prev == 1 - s.version
      case Second(op, was) => op == s.log[n] && was == s.leftRight.Other() && here == now && there == Torn(prior)
      case Finishing(op) => here == now && there == now
      case _ => true
  }

  /** Which late readers the scan has already ruled out. */
  ghost predicate LatePossible<V, O>(c: Config<V, O>, s: State<V, O>, t: nat)
    requires t < |s.pcs| && s.pcs[t].IsReader() && |s.pcs| == |c.slots|
    requires s.lock.Some? ==> s.lock.value < |s.pcs|
  {
    s.lock.Some? &&
    match s.pcs[s.lock.value]
    case Flipped(_, _) => true
    case ScanNext(_, _, next, cell) => s.pcs[t].vi == next ==> cell <= c.slots[t]
    case ScanPrev(_, _, prev, cell) => s.pcs[t].vi == prev && cell <= c.slots[t]
    case _ => false
  }

  ghost predicate ReaderOk<V, O>(c: Config<V, O>, s: State<V, O>, t: nat)
    requires t < |s.pcs| && s.pcs[t].IsReader() && |s.pcs| == |c.slots|
    requires s.lock.Some? ==> s.lock.value < |s.pcs|
  {
    var pc := s.pcs[t];
    && pc.start.writesDone <= s.WritesDone()
    && pc.start.readsDone <= |s.history|
    && (pc.IsHolder() ==>
      && pc.start.writesDone <= pc.k <= s.Published()
      && (forall i :: 0 <= i < pc.start.readsDone ==> s.history[i].k <= pc.k)
      && s.CopyOf(pc.side) == Whole(Fold(c, s.log[..pc.k]))
      && (pc.side != s.leftRight ==> LatePossible(c, s, t)))
    && (pc.Called? ==> pc.seen == Whole(Fold(c, s.log[..pc.k])))
  }

  ghost predicate ReadOk<V, O>(c: Config<V, O>, s: State<V, O>, j: nat)
    requires j < |s.history|
  {
    var r := s.history[j];
    && r.start.writesDone <= r.k <= r.writesBegun <= |s.log|
    && r.start.readsDone <= j
    && r.seen == Whole(Fold(c, s.log[..r.k]))
    && (forall i :: 0 <= i < r.start.readsDone ==> s.history[i].k <= r.k)
  }

  ghost predicate Inv<V, O>(c: Config<V, O>, s: State<V, O>) {
    && StateFits(c, s)
    && LockOwned(s)
    && CountersExact(c, s)
    && WriterAt(c, s)
    && (forall t :: 0 <= t < |s.pcs| && s.pcs[t].IsReader() ==> ReaderOk(c, s, t))
    && (forall j :: 0 <= j < |s.history| ==> ReadOk(c, s, j) && s.history[j].k <= s.Published())
  }

  // ---------------------------------------------------------------------------
  // Counting the threads that stand in a cell
  // ---------------------------------------------------------------------------

  ghost function StandsIn<V, O>(pc: Pc<V, O>, slot: nat, vi: nat, cell: nat): nat {
    if pc.HasArrived() && pc.vi == vi && slot == cell then 1 else 0
  }

  lemma {:induction false} StandingUpdate<V, O>(pcs: seq<Pc<V, O>>, slots: seq<nat>, t: nat, pc: Pc<V, O>,
      vi: nat, cell: nat)
    requires t < |pcs| <= |slots|
    ensures Standing(pcs[t := pc], slots, vi, cell)
         == Standing(pcs, slots, vi, cell) - StandsIn(pcs[t], slots[t], vi, cell) + StandsIn(pc, slots[t], vi, cell)
  {
    var n := |pcs| - 1;
    if t == n {
      assert pcs[t := pc][..n] == pcs[..n];
    } else {
      assert pcs[t := pc][..n] == pcs[..n][t := pc];
      StandingUpdate(pcs[..n], slots, t, pc, vi, cell);
    }
  }

  lemma {:induction false} StandingCounts<V, O>(pcs: seq<Pc<V, O>>, slots: seq<nat>, t: nat, vi: nat, cell: nat)
    requires t < |pcs| <= |slots|
    ensures StandsIn(pcs[t], slots[t], vi, cell) <= Standing(pcs, slots, vi, cell)
  {
    var n := |pcs| - 1;
    if t < n {
      StandingCounts(pcs[..n], slots, t, vi, cell);
    }
  }

  lemma {:induction false} NobodyStands<V, O>(c: Config<V, O>, n: nat, vi: nat, cell: nat)
    requires n <= |c.slots|
    ensures Standing<V, O>(AllIdle(n), c.slots, vi, cell) == 0
  {
    if n > 0 {
      assert AllIdle<V, O>(n)[..n - 1] == AllIdle<V, O>(n - 1);
      NobodyStands(c, n - 1, vi, cell);
    }
  }

  /** A cell that is read as zero has none of the threads that hash to it standing in it. */
  lemma ZeroCellIsEmpty<V, O>(c: Config<V, O>, s: State<V, O>, t: nat, vi: nat)
    requires StateFits(c, s) && CountersExact(c, s)
    requires t < |s.pcs| && vi < 2 && s.counters[vi][c.slots[t]] == 0
    ensures !(s.pcs[t].HasArrived() && s.pcs[t].vi == vi)
  {
    StandingCounts(s.pcs, c.slots, t, vi, c.slots[t]);
  }

  lemma CountersStep<V, O>(c: Config<V, O>, s: State<V, O>, s': State<V, O>, t: nat)
    requires StateFits(c, s) && StateFits(c, s') && CountersExact(c, s)
    requires t < |s.pcs| && s'.pcs == s.pcs[t := s'.pcs[t]]
    requires forall vi, cell :: 0 <= vi < 2 && 0 <= cell < c.cells ==>
      s'.counters[vi][cell] == s.counters[vi][cell]
        - StandsIn(s.pcs[t], c.slots[t], vi, cell) + StandsIn(s'.pcs[t], c.slots[t], vi, cell)
    ensures CountersExact(c, s')
  {
    forall vi, cell | 0 <= vi < 2 && 0 <= cell < c.cells
      ensures s'.counters[vi][cell] == Standing(s'.pcs, c.slots, vi, cell)
    {
      StandingUpdate(s.pcs, c.slots, t, s'.pcs[t], vi, cell);
    }
  }

  // ---------------------------------------------------------------------------
  // The invariant holds in every reachable state
  // ---------------------------------------------------------------------------

  lemma InitInv<V, O>(c: Config<V, O>)
    requires c.Valid()
    ensures Inv(c, Init(c))
  {
    forall vi, cell | 0 <= vi < 2 && 0 <= cell < c.cells
      ensures Init(c).counters[vi][cell] == Standing(Init(c).pcs, c.slots, vi, cell)
    {
      NobodyStands(c, |c.slots|, vi, cell);
    }
  }

  lemma ReaderStepOk<V, O>(c: Config<V, O>, s: State<V, O>, t: nat, u: nat)
    requires Inv(c, s) && t < |s.pcs| && s.pcs[t].IsReader()
    requires u < |s.pcs| && ReaderStep(c, s, t).pcs[u].IsReader()
    ensures ReaderOk(c, ReaderStep(c, s, t), u)
  {
    assert ReaderOk(c, s, u);
    if u == t && s.pcs[t].Arrived? {
      assert s.log[..|s.log|] == s.log;
      forall i | 0 <= i < |s.history|
        ensures s.history[i].k <= s.Published()
      {
        assert ReadOk(c, s, i);
      }
    }
  }

  lemma ReaderHistoryOk<V, O>(c: Config<V, O>, s: State<V, O>, t: nat, j: nat)
    requires Inv(c, s) && t < |s.pcs| && s.pcs[t].IsReader()
    requires j < |ReaderStep(c, s, t).history|
    ensures ReadOk(c, ReaderStep(c, s, t), j)
    ensures ReaderStep(c, s, t).history[j].k <= ReaderStep(c, s, t).Published()
  {
    if j < |s.history| {
      assert ReadOk(c, s, j);
    } else {
      assert ReaderOk(c, s, t);
    }
  }

  lemma ReaderShape<V, O>(c: Config<V, O>, s: State<V, O>, t: nat)
    requires StateFits(c, s) && LockOwned(s) && WriterAt(c, s) && CountersExact(c, s)
    requires t < |s.pcs| && s.pcs[t].IsReader()
    ensures var s' := ReaderStep(c, s, t);
      StateFits(c, s') && LockOwned(s') && WriterAt(c, s') && CountersExact(c, s')
  {
    CountersStep(c, s, ReaderStep(c, s, t), t);
  }

  lemma ReaderInv<V, O>(c: Config<V, O>, s: State<V, O>, t: nat)
    requires Inv(c, s) && t < |s.pcs| && s.pcs[t].IsReader()
    ensures Inv(c, ReaderStep(c, s, t))
  {
    var s' := ReaderStep(c, s, t);
    ReaderShape(c, s, t);
    forall u | 0 <= u < |s'.pcs| && s'.pcs[u].IsReader()
      ensures ReaderOk(c, s', u)
    {
      ReaderStepOk(c, s, t, u);
    }
    forall j | 0 <= j < |s'.history|
      ensures ReadOk(c, s', j) && s'.history[j].k <= s'.Published()
    {
      ReaderHistoryOk(c, s, t, j);
    }
  }

  lemma StartReadInv<V, O>(c: Config<V, O>, s: State<V, O>, t: nat)
    requires Inv(c, s) && t < |s.pcs| && s.pcs[t].Idle?
    ensures Inv(c, Step(c, s, Move(t, ReadCall)))
  {
    var s' := Step(c, s, Move(t, ReadCall));
    CountersStep(c, s, s', t);
    forall u | 0 <= u < |s'.pcs| && s'.pcs[u].IsReader()
      ensures ReaderOk(c, s', u)
    {
      assert u != t ==> ReaderOk(c, s, u);
    }
    forall j | 0 <= j < |s'.history|
      ensures ReadOk(c, s', j) && s'.history[j].k <= s'.Published()
    {
      assert ReadOk(c, s, j);
    }
  }

  lemma StartWriteInv<V, O>(c: Config<V, O>, s: State<V, O>, t: nat, op: O)
    requires Inv(c, s) && t < |s.pcs| && s.pcs[t].Idle? && s.lock.None?
    ensures Inv(c, Step(c, s, Move(t, WriteCall(op))))
  {
    var s' := Step(c, s, Move(t, WriteCall(op)));
    CountersStep(c, s, s', t);
    assert forall k :: 0 <= k <= |s.log| ==> s'.log[..k] == s.log[..k];
    assert s.log[..|s.log|] == s.log;
    forall u | 0 <= u < |s'.pcs| && s'.pcs[u].IsReader()
      ensures ReaderOk(c, s', u)
    {
      assert ReaderOk(c, s, u);
    }
    forall j | 0 <= j < |s'.history|
      ensures ReadOk(c, s', j) && s'.history[j].k <= s'.Published()
    {
      assert ReadOk(c, s, j);
    }
  }

  /** No write function ever runs on a copy that a reader holds. */
  lemma HeldCopyKept<V, O>(c: Config<V, O>, s: State<V, O>, t: nat, u: nat)
    requires StateFits(c, s) && LockOwned(s) && WriterAt(c, s)
    requires t < |s.pcs| && s.pcs[t].IsWriter()
    requires u < |s.pcs| && s.pcs[u].IsHolder() && ReaderOk(c, s, u)
    ensures WriterStep(c, s, t).CopyOf(s.pcs[u].side) == s.CopyOf(s.pcs[u].side)
  {
  }

  /** What a writer's step leaves alone. */
  ghost predicate WriterFrame<V, O>(c: Config<V, O>, s: State<V, O>, s': State<V, O>, t: nat)
    requires t < |s.pcs|
  {
    && StateFits(c, s) && StateFits(c, s') && LockOwned(s')
    && s'.log == s.log && s'.history == s.history && s'.counters == s.counters
    && s'.pcs == s.pcs[t := s'.pcs[t]]
    && !s.pcs[t].IsReader() && !s'.pcs[t].IsReader()
    && s.WritesDone() <= s'.WritesDone() && s.Published() <= s'.Published()
  }

  lemma WriterFits<V, O>(c: Config<V, O>, s: State<V, O>, t: nat)
    requires StateFits(c, s) && t < |s.pcs| && s.pcs[t].IsWriter()
    ensures StateFits(c, WriterStep(c, s, t))
    ensures WriterStep(c, s, t).pcs == s.pcs[t := WriterStep(c, s, t).pcs[t]]
    ensures !WriterStep(c, s, t).pcs[t].IsReader()
  {
    var s' := WriterStep(c, s, t);
    var pc := s'.pcs[t];
    assert s'.pcs == s.pcs[t := pc] && s'.counters == s.counters;
    assert s.pcs[t].Fits() && pc.Fits() && s'.version < 2;
    assert s'.lock == s.lock || s'.lock == None;
  }

  lemma WriterShape<V, O>(c: Config<V, O>, s: State<V, O>, t: nat)
    requires StateFits(c, s) && LockOwned(s)
    requires t < |s.pcs| && s.pcs[t].IsWriter()
    ensures WriterFrame(c, s, WriterStep(c, s, t), t)
  {
    WriterFits(c, s, t);
  }

  lemma ReaderOkKept<V, O>(c: Config<V, O>, s: State<V, O>, s': State<V, O>, t: nat, u: nat)
    requires t < |s.pcs| && WriterFrame(c, s, s', t) && LockOwned(s)
    requires u < |s.pcs| && s.pcs[u].IsReader() && ReaderOk(c, s, u)
    requires s.pcs[u].IsHolder() ==>
      && s'.CopyOf(s.pcs[u].side) == s.CopyOf(s.pcs[u].side)
      && (s.pcs[u].side != s'.leftRight ==> LatePossible(c, s', u))
    ensures ReaderOk(c, s', u)
  {
  }

  lemma WriterStepOk<V, O>(c: Config<V, O>, s: State<V, O>, t: nat, u: nat)
    requires StateFits(c, s) && LockOwned(s) && WriterAt(c, s) && CountersExact(c, s)
    requires t < |s.pcs| && s.pcs[t].IsWriter()
    requires u < |s.pcs| && s.pcs[u].IsReader() && ReaderOk(c, s, u)
    ensures StateFits(c, WriterStep(c, s, t)) && LockOwned(WriterStep(c, s, t))
    ensures WriterStep(c, s, t).pcs[u].IsReader() && ReaderOk(c, WriterStep(c, s, t), u)
  {
    WriterShape(c, s, t);
    if s.pcs[u].IsHolder() {
      HeldCopyKept(c, s, t, u);
      LateReadersShrink(c, s, t, u);
    }
    ReaderOkKept(c, s, WriterStep(c, s, t), t, u);
  }

  lemma InvFromFrame<V, O>(c: Config<V, O>, s: State<V, O>, s': State<V, O>, t: nat)
    requires Inv(c, s) && t < |s.pcs| && WriterFrame(c, s, s', t)
    requires WriterAt(c, s')
    requires forall u :: 0 <= u < |s.pcs| && s.pcs[u].IsReader() ==> ReaderOk(c, s', u)
    ensures Inv(c, s')
  {
    CountersStep(c, s, s', t);
    forall j | 0 <= j < |s'.history|
      ensures ReadOk(c, s', j) && s'.history[j].k <= s'.Published()
    {
      assert ReadOk(c, s, j);
    }
  }

  lemma WriterMoves<V, O>(c: Config<V, O>, s: State<V, O>, t: nat)
    requires StateFits(c, s) && LockOwned(s) && WriterAt(c, s)
    requires t < |s.pcs| && s.pcs[t].IsWriter()
    ensures var s' := WriterStep(c, s, t); LockOwned(s') && WriterAt(c, s')
  {
    WriterShape(c, s, t);
    var n := |s.log| - 1;
    assert Fold(c, s.log) == c.apply(Fold(c, s.log[..n]), s.log[n]);
    match s.pcs[t]
    case Locked(op) =>
    case First(op, was) =>
    case FirstDone(op, was) =>
    case Flipped(op, was) =>
    case ScanNext(op, was, next, cell) =>
    case ScanPrev(op, was, prev, cell) =>
    case Second(op, was) =>
    case Finishing(op) =>
  }

  lemma WriterInv<V, O>(c: Config<V, O>, s: State<V, O>, t: nat)
    requires Inv(c, s) && t < |s.pcs| && s.pcs[t].IsWriter()
    ensures Inv(c, WriterStep(c, s, t))
  {
    var s' := WriterStep(c, s, t);
    WriterShape(c, s, t);
    WriterMoves(c, s, t);
    forall u | 0 <= u < |s.pcs| && s.pcs[u].IsReader()
      ensures ReaderOk(c, s', u)
    {
      WriterStepOk(c, s, t, u);
    }
    InvFromFrame(c, s, s', t);
  }

  /** A writer's step never lets a reader back onto the side the writer is about to change. */
  lemma LateReadersShrink<V, O>(c: Config<V, O>, s: State<V, O>, t: nat, u: nat)
    requires StateFits(c, s) && LockOwned(s) && WriterAt(c, s) && CountersExact(c, s)
    requires t < |s.pcs| && s.pcs[t].IsWriter()
    requires u < |s.pcs| && s.pcs[u].IsHolder() && ReaderOk(c, s, u)
    ensures var s' := WriterStep(c, s, t);
      s.pcs[u].side != s'.leftRight ==> LatePossible(c, s', u)
  {
    assert ReaderOk(c, s, u);
    match s.pcs[t]
    case ScanNext(op, was, next, cell) =>
      if cell < c.cells && s.counters[next][cell] == 0 && c.slots[u] == cell {
        ZeroCellIsEmpty(c, s, u, next);
      }
    case ScanPrev(op, was, prev, cell) =>
      if cell < c.cells && s.counters[prev][cell] == 0 && c.slots[u] == cell {
        ZeroCellIsEmpty(c, s, u, prev);
      }
    case _ =>
  }

  lemma StepInv<V, O>(c: Config<V, O>, s: State<V, O>, m: Move<O>)
    requires Inv(c, s)
    ensures Inv(c, Step(c, s, m))
  {
    if m.t < |s.pcs| {
      if s.pcs[m.t].IsReader() { ReaderInv(c, s, m.t); }
      else if s.pcs[m.t].IsWriter() { WriterInv(c, s, m.t); }
      else if m.request == ReadCall { StartReadInv(c, s, m.t); }
      else if s.lock.None? { StartWriteInv(c, s, m.t, m.request.op); }
    }
  }

  /** The state a schedule leads to.  (Every state of a run from `Init` fits.) */
  ghost function Exec<V, O>(c: Config<V, O>, s: State<V, O>, schedule: seq<Move<O>>): State<V, O>
    decreases |schedule|
  {
    if schedule == [] || !StateFits(c, s) then s
    else Exec(c, Step(c, s, schedule[0]), schedule[1..])
  }

  lemma {:induction false} ExecInv<V, O>(c: Config<V, O>, s: State<V, O>, schedule: seq<Move<O>>)
    requires Inv(c, s)
    ensures Inv(c, Exec(c, s, schedule))
    decreases |schedule|
  {
    if schedule != [] {
      StepInv(c, s, schedule[0]);
      ExecInv(c, Step(c, s, schedule[0]), schedule[1..]);
    }
  }

  ghost function Run<V, O>(c: Config<V, O>, schedule: seq<Move<O>>): State<V, O>
    requires c.Valid()
  {
    Exec(c, Init(c), schedule)
  }

  lemma RunInv<V, O>(c: Config<V, O>, schedule: seq<Move<O>>)
    requires c.Valid()
    ensures Inv(c, Run(c, schedule))
  {
    InitInv(c);
    ExecInv(c, Init(c), schedule);
  }

  // ---------------------------------------------------------------------------
  // Main results
  // ---------------------------------------------------------------------------

  /** In every reachable state, the copy a write function is running on is held by no
      reader, from the reader's load of `_left_right` up to its `depart`. */
  lemma WritersNeverTouchHeldCopies<V, O>(c: Config<V, O>, schedule: seq<Move<O>>, w: nat, t: nat)
    requires c.Valid()
    requires var s := Run(c, schedule);
      w < |s.pcs| && t < |s.pcs| && (s.pcs[w].First? || s.pcs[w].Second?) && s.pcs[t].IsHolder()
    ensures var s := Run(c, schedule);
      s.pcs[t].side != (if s.pcs[w].First? then s.pcs[w].was.Other() else s.pcs[w].was)
  {
    RunInv(c, schedule);
    assert ReaderOk(c, Run(c, schedule), t);
  }

  /** A read function may take as long as it likes: no step of any thread changes the
      copy it runs on before the reader departs. */
  lemma HeldCopyIsFrozen<V, O>(c: Config<V, O>, s: State<V, O>, m: Move<O>, t: nat)
    requires Inv(c, s) && t < |s.pcs| && s.pcs[t].IsHolder() && Step(c, s, m).pcs[t].IsHolder()
    ensures Step(c, s, m).CopyOf(s.pcs[t].side) == s.CopyOf(s.pcs[t].side)
  {
    assert ReaderOk(c, s, t);
    if m.t < |s.pcs| && s.pcs[m.t].IsWriter() {
      HeldCopyKept(c, s, m.t, t);
    }
  }

  /** Whenever the writer lock is free, both copies are the fold of all writes, taken in
      the order in which they got the lock. */
  lemma CopiesAgreeWhenUnlocked<V, O>(c: Config<V, O>, schedule: seq<Move<O>>)
    requires c.Valid() && Run(c, schedule).lock == None
    ensures var s := Run(c, schedule);
      s.left == Whole(Fold(c, s.log)) && s.right == Whole(Fold(c, s.log))
  {
    RunInv(c, schedule);
  }

  /** Every completed read saw the state after exactly `k` writes: none it must have seen
      is missing, none it could not have seen is there, and reads never go backwards. */
  lemma ReadsAreAtomic<V, O>(c: Config<V, O>, schedule: seq<Move<O>>, j: nat)
    requires c.Valid() && j < |Run(c, schedule).history|
    ensures var s := Run(c, schedule); var r := s.history[j];
      && r.start.writesDone <= r.k <= r.writesBegun <= |s.log|
      && r.seen == Whole(Fold(c, s.log[..r.k]))
      && (forall i :: 0 <= i < r.start.readsDone && i < |s.history| ==> s.history[i].k <= r.k)
  {
    RunInv(c, schedule);
    assert ReadOk(c, Run(c, schedule), j);
  }

  lemma StepGrows<V, O>(c: Config<V, O>, s: State<V, O>, m: Move<O>)
    requires StateFits(c, s) && LockOwned(s)
    ensures s.log <= Step(c, s, m).log && s.history <= Step(c, s, m).history
  {
    if m.t < |s.pcs| && s.pcs[m.t].IsWriter() {
      WriterShape(c, s, m.t);
    }
  }

  /** The write order and the completed reads of a run are never revised later, so the
      `k` of a read keeps its meaning. */
  lemma {:induction false} HistoryOnlyGrows<V, O>(c: Config<V, O>, s: State<V, O>, more: seq<Move<O>>)
    requires Inv(c, s)
    ensures var s' := Exec(c, s, more);
      s.log <= s'.log && s.history <= s'.history
    decreases |more|
  {
    if more != [] {
      StepInv(c, s, more[0]);
      StepGrows(c, s, more[0]);
      HistoryOnlyGrows(c, Step(c, s, more[0]), more[1..]);
    }
  }

  // ---------------------------------------------------------------------------
  // The two drain waits end
  // ---------------------------------------------------------------------------

  /** `w` is waiting for indicator `vi` to drain. */
  predicate Waiting<V, O>(s: State<V, O>, w: nat, vi: nat) {
    && w < |s.pcs|
    && ((s.pcs[w].ScanNext? && s.pcs[w].next == vi) || (s.pcs[w].ScanPrev? && s.pcs[w].prev == vi))
  }

  ghost function StepsLeft<V, O>(pc: Pc<V, O>, vi: nat): nat {
    if !pc.IsReader() || pc.vi != vi then 0
    else match pc
      case GotVersion(_, _) => 4
      case Arrived(_, _) => 3
      case Holding(_, _, _, _) => 2
      case Called(_, _, _, _, _) => 1
  }

  /** Steps that the readers recorded on indicator `vi` still have to take. */
  ghost function Pending<V, O>(pcs: seq<Pc<V, O>>, vi: nat): nat {
    if pcs == [] then 0 else Pending(pcs[..|pcs| - 1], vi) + StepsLeft(pcs[|pcs| - 1], vi)
  }

  lemma {:induction false} PendingUpdate<V, O>(pcs: seq<Pc<V, O>>, t: nat, pc: Pc<V, O>, vi: nat)
    requires t < |pcs|
    ensures Pending(pcs[t := pc], vi) == Pending(pcs, vi) - StepsLeft(pcs[t], vi) + StepsLeft(pc, vi)
  {
    var n := |pcs| - 1;
    if t == n {
      assert pcs[t := pc][..n] == pcs[..n];
    } else {
      assert pcs[t := pc][..n] == pcs[..n][t := pc];
      PendingUpdate(pcs[..n], t, pc, vi);
    }
  }

  lemma {:induction false} StandingIsPending<V, O>(pcs: seq<Pc<V, O>>, slots: seq<nat>, vi: nat, cell: nat)
    requires |pcs| <= |slots|
    ensures Standing(pcs, slots, vi, cell) <= Pending(pcs, vi)
  {
    if pcs != [] {
      StandingIsPending(pcs[..|pcs| - 1], slots, vi, cell);
    }
  }

  /** The move is a step of a reader that is recorded on indicator `vi`. */
  ghost predicate Drains<V, O>(s: State<V, O>, m: Move<O>, vi: nat) {
    m.t < |s.pcs| && s.pcs[m.t].IsReader() && s.pcs[m.t].vi == vi
  }

  ghost function ScanCell<V, O>(pc: Pc<V, O>): nat {
    if pc.ScanNext? || pc.ScanPrev? then pc.cell else 0
  }

  /** The mover's own share of the pending work.  A read that starts during the wait
      records the other indicator, because that is the current version. */
  lemma MoverDuringWait<V, O>(c: Config<V, O>, s: State<V, O>, m: Move<O>, vi: nat)
    requires StateFits(c, s) && m.t < |s.pcs| && vi != s.version
    ensures var s' := Step(c, s, m);
      && s'.pcs == s.pcs[m.t := s'.pcs[m.t]]
      && StepsLeft(s'.pcs[m.t], vi) == StepsLeft(s.pcs[m.t], vi) - (if Drains(s, m, vi) then 1 else 0)
  {
    var s' := Step(c, s, m);
    if s.pcs[m.t].IsReader() {
      assert s' == ReaderStep(c, s, m.t);
    } else if s.pcs[m.t].IsWriter() {
      assert s' == WriterStep(c, s, m.t) && !s'.pcs[m.t].IsReader();
    }
  }

  lemma ScanWhenDrained<V, O>(c: Config<V, O>, s: State<V, O>, w: nat, vi: nat)
    requires StateFits(c, s) && CountersExact(c, s)
    requires Waiting(s, w, vi) && Pending(s.pcs, vi) == 0
    requires Waiting(WriterStep(c, s, w), w, vi) && vi == 1 - s.version
    ensures ScanCell(s.pcs[w]) < c.cells
    ensures ScanCell(WriterStep(c, s, w).pcs[w]) == ScanCell(s.pcs[w]) + 1
  {
    StandingIsPending(s.pcs, c.slots, vi, ScanCell(s.pcs[w]));
  }

  /** While a writer waits for `vi`, no reader newly records `vi`: the pending work falls
      by one with each step of a recorded reader and never rises, and once it is gone the
      scan no longer starts over. */
  lemma WaitStep<V, O>(c: Config<V, O>, s: State<V, O>, m: Move<O>, w: nat, vi: nat)
    requires Inv(c, s) && Waiting(s, w, vi)
    ensures var s' := Step(c, s, m);
      && Pending(s'.pcs, vi) == Pending(s.pcs, vi) - (if Drains(s, m, vi) then 1 else 0)
      && (Pending(s.pcs, vi) == 0 && Waiting(s', w, vi) ==>
           ScanCell(s'.pcs[w]) == ScanCell(s.pcs[w]) + (if m.t == w then 1 else 0)
           && (m.t == w ==> ScanCell(s.pcs[w]) < c.cells))
  {
    if m.t < |s.pcs| {
      var s' := Step(c, s, m);
      assert vi == 1 - s.version;
      MoverDuringWait(c, s, m, vi);
      PendingUpdate(s.pcs, m.t, s'.pcs[m.t], vi);
      if m.t == w && Pending(s.pcs, vi) == 0 && Waiting(s', w, vi) {
        ScanWhenDrained(c, s, w, vi);
      }
    }
  }

  ghost predicate WaitingThroughout<V, O>(c: Config<V, O>, s: State<V, O>, schedule: seq<Move<O>>, w: nat, vi: nat)
    requires Inv(c, s)
    decreases |schedule|
  {
    && Waiting(s, w, vi)
    && (schedule != [] ==>
      (StepInv(c, s, schedule[0]);
       WaitingThroughout(c, Step(c, s, schedule[0]), schedule[1..], w, vi)))
  }

  ghost function DrainMoves<V, O>(c: Config<V, O>, s: State<V, O>, schedule: seq<Move<O>>, vi: nat): nat
    requires Inv(c, s)
    decreases |schedule|
  {
    if schedule == [] then 0
    else
      StepInv(c, s, schedule[0]);
      (if Drains(s, schedule[0], vi) then 1 else 0) + DrainMoves(c, Step(c, s, schedule[0]), schedule[1..], vi)
  }

  ghost function MovesOf<O>(schedule: seq<Move<O>>, w: nat): nat {
    if schedule == [] then 0
    else (if schedule[0].t == w then 1 else 0) + MovesOf(schedule[1..], w)
  }

  /** As long as a wait lasts, the recorded readers can take no more steps than were
      pending when it began, whatever the other threads do. */
  lemma {:induction false} WaitHasBoundedDrain<V, O>(c: Config<V, O>, s: State<V, O>, schedule: seq<Move<O>>,
      w: nat, vi: nat)
    requires Inv(c, s) && WaitingThroughout(c, s, schedule, w, vi)
    ensures DrainMoves(c, s, schedule, vi) + Pending(Exec(c, s, schedule).pcs, vi) == Pending(s.pcs, vi)
    decreases |schedule|
  {
    if schedule != [] {
      StepInv(c, s, schedule[0]);
      WaitStep(c, s, schedule[0], w, vi);
      WaitHasBoundedDrain(c, Step(c, s, schedule[0]), schedule[1..], w, vi);
    }
  }

  /** Once those readers are done, the writer itself leaves the wait after at most one
      sweep over the cells: a longer stay is impossible under any schedule. */
  lemma {:induction false} DrainedWaitEnds<V, O>(c: Config<V, O>, s: State<V, O>, schedule: seq<Move<O>>,
      w: nat, vi: nat)
    requires Inv(c, s) && WaitingThroughout(c, s, schedule, w, vi)
    requires Pending(s.pcs, vi) == 0
    ensures MovesOf(schedule, w) + ScanCell(s.pcs[w]) <= c.cells || MovesOf(schedule, w) == 0
    decreases |schedule|
  {
    if schedule != [] {
      StepInv(c, s, schedule[0]);
      WaitStep(c, s, schedule[0], w, vi);
      DrainedWaitEnds(c, Step(c, s, schedule[0]), schedule[1..], w, vi);
    }
  }

  // ---------------------------------------------------------------------------
  // Calls return
  // ---------------------------------------------------------------------------

  /** The writer waits for an indicator on which readers still have steps to take. */
  ghost predicate Blocked<V, O>(s: State<V, O>, w: nat)
    requires w < |s.pcs|
  {
    || (s.pcs[w].ScanNext? && Pending(s.pcs, s.pcs[w].next) > 0)
    || (s.pcs[w].ScanPrev? && Pending(s.pcs, s.pcs[w].prev) > 0)
  }

  /** What is left of a sweep at a cell; a sweep that is blocked may have to start over. */
  function SweepLeft(cells: nat, cell: nat, blocked: bool): nat {
    if blocked || cell == 0 then cells + 1 else if cell >= cells then 1 else cells + 1 - cell
  }

  /** Steps that a call of `apply_write` still has to take. */
  ghost function WorkLeft<V, O>(c: Config<V, O>, s: State<V, O>, w: nat): nat
    requires w < |s.pcs|
  {
    match s.pcs[w]
    case Locked(_) => 2 * c.cells + 8
    case First(_, _) => 2 * c.cells + 7
    case FirstDone(_, _) => 2 * c.cells + 6
    case Flipped(_, _) => 2 * c.cells + 5
    case ScanNext(_, _, _, cell) => c.cells + 3 + SweepLeft(c.cells, cell, Blocked(s, w))
    case ScanPrev(_, _, _, cell) => 2 + SweepLeft(c.cells, cell, Blocked(s, w))
    case Second(_, _) => 2
    case Finishing(_) => 1
    case _ => 0
  }

  /** `apply_write` has returned: the lock is free and both copies have all the writes. */
  ghost predicate Returned<V, O>(c: Config<V, O>, s: State<V, O>, w: nat, log: seq<O>) {
    && w < |s.pcs| && s.pcs[w].Idle? && s.lock.None? && s.log == log
    && s.left == Whole(Fold(c, log)) && s.right == Whole(Fold(c, log))
  }

  lemma WriterKeepsLog<V, O>(c: Config<V, O>, s: State<V, O>, w: nat)
    requires Inv(c, s) && w < |s.pcs| && s.pcs[w].IsWriter()
    ensures var s' := WriterStep(c, s, w);
      w < |s'.pcs| && s'.log == s.log && (s'.pcs[w].IsWriter() || (s'.pcs[w].Idle? && s'.lock.None?))
    ensures forall vi :: Pending(WriterStep(c, s, w).pcs, vi) == Pending(s.pcs, vi)
  {
    hide Inv;
    WriterShapeOf(c, s, w);
    var s' := WriterStep(c, s, w);
    forall vi: nat
      ensures Pending(s'.pcs, vi) == Pending(s.pcs, vi)
    {
      PendingUpdate(s.pcs, w, s'.pcs[w], vi);
    }
  }

  lemma WriterShapeOf<V, O>(c: Config<V, O>, s: State<V, O>, w: nat)
    requires Inv(c, s) && w < |s.pcs| && s.pcs[w].IsWriter()
    ensures StateFits(c, s) && LockOwned(s) && WriterFrame(c, s, WriterStep(c, s, w), w)
  {
    WriterShape(c, s, w);
  }

  /** A sweep over an indicator without pending readers goes on at every step. */
  lemma SweepGoesOn<V, O>(c: Config<V, O>, s: State<V, O>, w: nat)
    requires Inv(c, s) && w < |s.pcs| && (s.pcs[w].ScanNext? || s.pcs[w].ScanPrev?)
    ensures var cell := s.pcs[w].cell; var vi := if s.pcs[w].ScanNext? then s.pcs[w].next else s.pcs[w].prev;
      !Blocked(s, w) && cell < c.cells ==> vi < 2 && s.counters[vi][cell] == 0
  {
    assert s.pcs[w].Fits();
    var vi := if s.pcs[w].ScanNext? then s.pcs[w].next else s.pcs[w].prev;
    if s.pcs[w].cell < c.cells {
      StandingIsPending(s.pcs, c.slots, vi, s.pcs[w].cell);
    }
  }

  lemma WriterMoveWorks<V, O>(c: Config<V, O>, s: State<V, O>, w: nat)
    requires Inv(c, s) && w < |s.pcs| && s.pcs[w].IsWriter()
    ensures var s' := WriterStep(c, s, w);
      && w < |s'.pcs| && s'.log == s.log && (s'.pcs[w].IsWriter() || (s'.pcs[w].Idle? && s'.lock.None?))
      && WorkLeft(c, s', w) <= WorkLeft(c, s, w) - (if Blocked(s, w) then 0 else 1)
  {
    WriterKeepsLog(c, s, w);
    if s.pcs[w].ScanNext? || s.pcs[w].ScanPrev? {
      SweepGoesOn(c, s, w);
    }
    InvFits(c, s);
    hide Inv, Pending, Fold;
  }

  lemma OtherMoveKeepsWork<V, O>(c: Config<V, O>, s: State<V, O>, m: Move<O>, w: nat)
    requires Inv(c, s) && w < |s.pcs| && s.pcs[w].IsWriter() && m.t != w
    ensures var s' := Step(c, s, m);
      && w < |s'.pcs| && s'.log == s.log && s'.pcs[w] == s.pcs[w] && WorkLeft(c, s', w) <= WorkLeft(c, s, w)
  {
    assert s.lock == Some(w);
    if s.pcs[w].ScanNext? {
      WaitStep(c, s, m, w, s.pcs[w].next);
    } else if s.pcs[w].ScanPrev? {
      WaitStep(c, s, m, w, s.pcs[w].prev);
    }
  }

  /** A move that counts for the writer: its own, while it is not blocked. */
  ghost predicate Counts<V, O>(s: State<V, O>, m: Move<O>, w: nat)
    requires w < |s.pcs|
  {
    m.t == w && !Blocked(s, w)
  }

  lemma StepWorks<V, O>(c: Config<V, O>, s: State<V, O>, m: Move<O>, w: nat)
    requires Inv(c, s) && w < |s.pcs| && s.pcs[w].IsWriter()
    ensures var s' := Step(c, s, m);
      && Inv(c, s') && w < |s'.pcs| && s'.log == s.log
      && (s'.pcs[w].IsWriter() || Returned(c, s', w, s.log))
      && WorkLeft(c, s', w) <= WorkLeft(c, s, w) - (if Counts(s, m, w) then 1 else 0)
  {
    StepInv(c, s, m);
    if m.t == w {
      assert Step(c, s, m) == WriterStep(c, s, w);
      WriterMoveWorks(c, s, w);
    } else {
      OtherMoveKeepsWork(c, s, m, w);
    }
  }

  /** The moves of a schedule that count for the writer, as long as it is in its call. */
  ghost function CountingMoves<V, O>(c: Config<V, O>, s: State<V, O>, schedule: seq<Move<O>>, w: nat): nat
    requires Inv(c, s) && w < |s.pcs|
    decreases |schedule|
  {
    if schedule == [] || !s.pcs[w].IsWriter() then 0
    else
      StepWorks(c, s, schedule[0], w);
      (if Counts(s, schedule[0], w) then 1 else 0) + CountingMoves(c, Step(c, s, schedule[0]), schedule[1..], w)
  }

  /** At some point of the schedule the call has returned. */
  ghost predicate ReturnsWithin<V, O>(c: Config<V, O>, s: State<V, O>, schedule: seq<Move<O>>, w: nat, log: seq<O>) {
    exists n: nat :: n <= |schedule| && Returned(c, Exec(c, s, schedule[..n]), w, log)
  }

  lemma ReturnsLater<V, O>(c: Config<V, O>, s: State<V, O>, schedule: seq<Move<O>>, w: nat, log: seq<O>)
    requires StateFits(c, s) && schedule != []
    requires ReturnsWithin(c, Step(c, s, schedule[0]), schedule[1..], w, log)
    ensures ReturnsWithin(c, s, schedule, w, log)
  {
    var n: nat :| n <= |schedule[1..]| && Returned(c, Exec(c, Step(c, s, schedule[0]), schedule[1..][..n]), w, log);
    assert schedule[..n + 1][0] == schedule[0] && schedule[..n + 1][1..] == schedule[1..][..n];
    assert Returned(c, Exec(c, s, schedule[..n + 1]), w, log);
  }

  /** Under any schedule, a call of `apply_write` that has the lock returns once it was given
      as many steps as it has left, not counting those it takes while readers keep it waiting
      (`WaitHasBoundedDrain` limits these readers); and both copies then have its write. */
  lemma {:induction false} WriteReturns<V, O>(c: Config<V, O>, s: State<V, O>, schedule: seq<Move<O>>, w: nat)
    requires Inv(c, s) && w < |s.pcs| && s.pcs[w].IsWriter()
    requires CountingMoves(c, s, schedule, w) >= WorkLeft(c, s, w)
    ensures ReturnsWithin(c, s, schedule, w, s.log)
    decreases |schedule|
  {
    hide Inv, WorkLeft, Counts, Returned;
    if schedule == [] {
      WritersHaveWork(c, s, w);
    } else {
      InvFits(c, s);
      var s' := Step(c, s, schedule[0]);
      StepWorks(c, s, schedule[0], w);
      if s'.pcs[w].IsWriter() {
        WriteReturns(c, s', schedule[1..], w);
      } else {
        assert schedule[1..][..0] == [] && Exec(c, s', []) == s';
      }
      ReturnsLater(c, s, schedule, w, s.log);
    }
  }

  lemma WritersHaveWork<V, O>(c: Config<V, O>, s: State<V, O>, w: nat)
    requires w < |s.pcs| && s.pcs[w].IsWriter()
    ensures WorkLeft(c, s, w) > 0
  {
  }

  lemma InvFits<V, O>(c: Config<V, O>, s: State<V, O>)
    requires Inv(c, s)
    ensures StateFits(c, s)
  {
  }

  lemma WriteStarts<V, O>(c: Config<V, O>, s: State<V, O>, t: nat, op: O)
    requires Inv(c, s) && t < |s.pcs| && s.pcs[t].Idle? && s.lock.None?
    ensures var s' := Step(c, s, Move(t, WriteCall(op)));
      && Inv(c, s') && |s'.pcs| == |s.pcs| && s'.pcs[t].IsWriter() && s'.log == s.log + [op]
      && WorkLeft(c, s', t) == 2 * c.cells + 8
      && forall u :: 0 <= u < |s.pcs| && u != t ==> s'.pcs[u] == s.pcs[u]
  {
    StepInv(c, s, Move(t, WriteCall(op)));
  }

  /** A write that finds the lock free is taken: under any schedule that gives it `2 * cells + 8`
      steps in which no reader keeps it waiting, it returns, and both copies are the fold of
      the earlier writes and this one. */
  lemma WriteTakesEffect<V, O>(c: Config<V, O>, s: State<V, O>, t: nat, op: O, schedule: seq<Move<O>>)
    requires Inv(c, s) && t < |s.pcs| && s.pcs[t].Idle? && s.lock.None?
    requires var s' := Step(c, s, Move(t, WriteCall(op)));
      Inv(c, s') && t < |s'.pcs| && CountingMoves(c, s', schedule, t) >= 2 * c.cells + 8
    ensures ReturnsWithin(c, s, [Move(t, WriteCall(op))] + schedule, t, s.log + [op])
  {
    var all := [Move(t, WriteCall(op))] + schedule;
    assert all[0] == Move(t, WriteCall(op)) && all[1..] == schedule;
    WriteStarts(c, s, t, op);
    WriteReturns(c, Step(c, s, Move(t, WriteCall(op))), schedule, t);
    ReturnsLater(c, s, all, t, s.log + [op]);
  }

  function Repeat<O>(m: Move<O>, n: nat): seq<Move<O>> {
    seq(n, _ => m)
  }

  lemma RepeatFirst<V, O>(c: Config<V, O>, s: State<V, O>, m: Move<O>, n: nat)
    requires StateFits(c, s)
    ensures Exec(c, s, Repeat(m, n + 1)) == Exec(c, Step(c, s, m), Repeat(m, n))
  {
    assert Repeat(m, n + 1)[1..] == Repeat(m, n);
  }

  ghost predicate NobodyReads<V, O>(s: State<V, O>) {
    forall u :: 0 <= u < |s.pcs| ==> !s.pcs[u].IsReader()
  }

  lemma {:induction false} NothingPending<V, O>(pcs: seq<Pc<V, O>>, vi: nat)
    requires forall u :: 0 <= u < |pcs| ==> !pcs[u].IsReader()
    ensures Pending(pcs, vi) == 0
  {
    if pcs != [] {
      NothingPending(pcs[..|pcs| - 1], vi);
    }
  }

  lemma AloneStep<V, O>(c: Config<V, O>, s: State<V, O>, m: Move<O>, w: nat)
    requires Inv(c, s) && w < |s.pcs| && s.pcs[w].IsWriter() && NobodyReads(s) && m.t == w
    ensures !Blocked(s, w) && NobodyReads(Step(c, s, m))
  {
    WriterShape(c, s, w);
    NothingPending(s.pcs, 0);
    NothingPending(s.pcs, 1);
    assert s.pcs[w].Fits();
  }

  lemma {:induction false} AloneReturns<V, O>(c: Config<V, O>, s: State<V, O>, m: Move<O>, w: nat) returns (n: nat)
    requires Inv(c, s) && w < |s.pcs| && s.pcs[w].IsWriter() && NobodyReads(s) && m.t == w
    ensures n <= WorkLeft(c, s, w) && Returned(c, Exec(c, s, Repeat(m, n)), w, s.log)
    decreases WorkLeft(c, s, w)
  {
    hide Inv, WorkLeft, Returned, Blocked, NobodyReads;
    InvFits(c, s);
    var s' := Step(c, s, m);
    WritersHaveWork(c, s, w);
    AloneStep(c, s, m, w);
    StepWorks(c, s, m, w);
    if s'.pcs[w].IsWriter() {
      n := AloneReturns(c, s', m, w);
    } else {
      n := 0;
      assert Exec(c, s', Repeat(m, 0)) == s';
    }
    RepeatFirst(c, s, m, n);
    n := n + 1;
  }

  /** From any reachable state in which the lock is free and no read is under way, a thread that
      runs alone completes its write within `2 * cells + 9` steps. */
  lemma WriteAlone<V, O>(c: Config<V, O>, s: State<V, O>, t: nat, op: O) returns (n: nat)
    requires Inv(c, s) && t < |s.pcs| && s.pcs[t].Idle? && s.lock.None? && NobodyReads(s)
    ensures n <= 2 * c.cells + 9
    ensures Returned(c, Exec(c, s, Repeat(Move(t, WriteCall(op)), n)), t, s.log + [op])
  {
    var m := Move(t, WriteCall(op));
    WriteStarts(c, s, t, op);
    var s' := Step(c, s, m);
    n := AloneReturns(c, s', m, t);
    RepeatFirst(c, s, m, n);
    n := n + 1;
  }

  ghost function AllPending<V, O>(s: State<V, O>): nat {
    Pending(s.pcs, 0) + Pending(s.pcs, 1)
  }

  /** A step of a reader brings the end of the reads under way nearer. */
  lemma ReaderLeaves<V, O>(c: Config<V, O>, s: State<V, O>, u: nat)
    requires Inv(c, s) && u < |s.pcs| && s.pcs[u].IsReader()
    ensures var s' := Step(c, s, Move(u, ReadCall));
      && Inv(c, s') && s'.lock == s.lock && s'.log == s.log && AllPending(s') < AllPending(s)
      && s'.pcs == s.pcs[u := s'.pcs[u]]
  {
    StepInv(c, s, Move(u, ReadCall));
    var s' := Step(c, s, Move(u, ReadCall));
    assert s' == ReaderStep(c, s, u) && s.pcs[u].Fits();
    assert s'.pcs == s.pcs[u := s'.pcs[u]];
    PendingUpdate(s.pcs, u, s'.pcs[u], 0);
    PendingUpdate(s.pcs, u, s'.pcs[u], 1);
  }

  lemma ExecFirst<V, O>(c: Config<V, O>, s: State<V, O>, m: Move<O>, more: seq<Move<O>>)
    requires StateFits(c, s)
    ensures Exec(c, s, [m] + more) == Exec(c, Step(c, s, m), more)
  {
    assert ([m] + more)[1..] == more;
  }

  /** From any reachable state in which the lock is free, with any reads under way, a write can
      complete with no more than the steps of these readers and its own. */
  lemma {:induction false} WriteCanReturn<V, O>(c: Config<V, O>, s: State<V, O>, t: nat, op: O)
      returns (schedule: seq<Move<O>>)
    requires Inv(c, s) && t < |s.pcs| && s.pcs[t].Idle? && s.lock.None?
    ensures |schedule| <= AllPending(s) + 2 * c.cells + 9
    ensures forall i :: 0 <= i < |schedule| ==>
      schedule[i].t < |s.pcs| && (schedule[i].t == t || s.pcs[schedule[i].t].IsReader())
    ensures Returned(c, Exec(c, s, schedule), t, s.log + [op])
    decreases AllPending(s)
  {
    hide Inv, AllPending, Returned;
    InvFits(c, s);
    if NobodyReads(s) {
      var n := WriteAlone(c, s, t, op);
      schedule := Repeat(Move(t, WriteCall(op)), n);
    } else {
      var u: nat :| u < |s.pcs| && s.pcs[u].IsReader();
      var m: Move<O> := Move(u, ReadCall);
      ReaderLeaves(c, s, u);
      var rest := WriteCanReturn(c, Step(c, s, m), t, op);
      schedule := [m] + rest;
      ExecFirst(c, s, m, rest);
    }
  }

  // ---------------------------------------------------------------------------
  // Reads are wait-free
  // ---------------------------------------------------------------------------

  /** `apply_read` has returned: its read, known by its start, is the last that was completed. */
  ghost predicate ReadDone<V, O>(before: State<V, O>, s: State<V, O>, t: nat, start: Start) {
    && t < |s.pcs| && s.pcs[t].Idle? && |s.history| > |before.history|
    && s.history[|s.history| - 1].start == start
  }

  ghost predicate ReadDoneWithin<V, O>(c: Config<V, O>, s: State<V, O>, schedule: seq<Move<O>>, t: nat, start: Start) {
    exists n: nat :: n <= |schedule| && ReadDone(s, Exec(c, s, schedule[..n]), t, start)
  }

  lemma ReaderMove<V, O>(c: Config<V, O>, s: State<V, O>, t: nat)
    requires Inv(c, s) && t < |s.pcs| && s.pcs[t].IsReader()
    ensures var s' := ReaderStep(c, s, t); var pc := s.pcs[t];
      && t < |s'.pcs|
      && (if StepsLeft(pc, pc.vi) == 1 then ReadDone(s, s', t, pc.start)
          else s'.pcs[t].IsReader() && s'.pcs[t].start == pc.start && s'.pcs[t].vi == pc.vi
               && StepsLeft(s'.pcs[t], pc.vi) == StepsLeft(pc, pc.vi) - 1)
  {
  }

  lemma OthersLeaveReader<V, O>(c: Config<V, O>, s: State<V, O>, m: Move<O>, t: nat)
    requires Inv(c, s) && t < |s.pcs| && s.pcs[t].IsReader() && m.t != t
    ensures t < |Step(c, s, m).pcs| && Step(c, s, m).pcs[t] == s.pcs[t]
  {
    if m.t < |s.pcs| && s.pcs[m.t].IsWriter() {
      WriterShape(c, s, m.t);
    }
  }

  lemma ReadStep<V, O>(c: Config<V, O>, s: State<V, O>, m: Move<O>, t: nat)
    requires Inv(c, s) && t < |s.pcs| && s.pcs[t].IsReader()
    ensures var s' := Step(c, s, m); var pc := s.pcs[t]; var left := if m.t == t then 1 else 0;
      && Inv(c, s') && t < |s'.pcs| && |s.history| <= |s'.history|
      && (if StepsLeft(pc, pc.vi) == left then ReadDone(s, s', t, pc.start)
          else s'.pcs[t].IsReader() && s'.pcs[t].start == pc.start
               && StepsLeft(s'.pcs[t], s'.pcs[t].vi) == StepsLeft(pc, pc.vi) - left)
  {
    StepInv(c, s, m);
    StepGrows(c, s, m);
    if m.t == t {
      ReaderMove(c, s, t);
    } else {
      OthersLeaveReader(c, s, m, t);
    }
  }

  lemma ReadDoneLater<V, O>(c: Config<V, O>, s: State<V, O>, schedule: seq<Move<O>>, t: nat, start: Start)
    requires StateFits(c, s) && schedule != [] && |s.history| <= |Step(c, s, schedule[0]).history|
    requires ReadDoneWithin(c, Step(c, s, schedule[0]), schedule[1..], t, start)
    ensures ReadDoneWithin(c, s, schedule, t, start)
  {
    hide Step;
    var s' := Step(c, s, schedule[0]);
    var n: nat :| n <= |schedule[1..]| && ReadDone(s', Exec(c, s', schedule[1..][..n]), t, start);
    assert schedule[..n + 1][0] == schedule[0] && schedule[..n + 1][1..] == schedule[1..][..n];
    assert ReadDone(s, Exec(c, s, schedule[..n + 1]), t, start);
  }

  /** Under any schedule, a read returns with its own four steps behind the load of the version,
      whatever writers and other readers do. */
  lemma {:induction false} ReadsAreWaitFree<V, O>(c: Config<V, O>, s: State<V, O>, schedule: seq<Move<O>>, t: nat)
    requires Inv(c, s) && t < |s.pcs| && s.pcs[t].IsReader()
    requires MovesOf(schedule, t) >= StepsLeft(s.pcs[t], s.pcs[t].vi)
    ensures ReadDoneWithin(c, s, schedule, t, s.pcs[t].start)
    decreases |schedule|
  {
    hide Inv, ReadDone;
    InvFits(c, s);
    var m, s' := schedule[0], Step(c, s, schedule[0]);
    ReadStep(c, s, m, t);
    if m.t == t && StepsLeft(s.pcs[t], s.pcs[t].vi) == 1 {
      assert schedule[..1][0] == m && Exec(c, s, schedule[..1]) == s';
    } else {
      ReadsAreWaitFree(c, s', schedule[1..], t);
      ReadDoneLater(c, s, schedule, t, s.pcs[t].start);
    }
  }

  lemma BumpBack(counters: seq<seq<int>>, vi: nat, cell: nat)
    requires vi < |counters| && cell < |counters[vi]|
    ensures Bump(Bump(counters, vi, cell, 1), vi, cell, -1) == counters
  {
    assert counters[vi][cell := counters[vi][cell] + 1][cell := counters[vi][cell]] == counters[vi];
  }

  /** The states of a read that nothing disturbs. */
  ghost function ReadAt<V, O>(c: Config<V, O>, s: State<V, O>, t: nat, k: nat): State<V, O>
    requires StateFits(c, s) && t < |s.pcs|
  {
    var vi, start := s.version, Start(s.WritesDone(), |s.history|);
    var counters := Bump(s.counters, vi, c.slots[t], 1);
    var now := Whole(Fold(c, s.log));
    if k == 0 then s
    else if k == 1 then s.WithPc(t, GotVersion(vi, start))
    else if k == 2 then s.(counters := counters).WithPc(t, Arrived(vi, start))
    else if k == 3 then s.(counters := counters).WithPc(t, Holding(vi, start, s.leftRight, |s.log|))
    else if k == 4 then s.(counters := counters).WithPc(t, Called(vi, start, s.leftRight, |s.log|, now))
    else s.(history := s.history + [Read(start, |s.log|, |s.log|, now)])
  }

  lemma ReadAtStep<V, O>(c: Config<V, O>, s: State<V, O>, t: nat, k: nat)
    requires Inv(c, s) && t < |s.pcs| && s.pcs[t].Idle? && s.lock.None? && k < 5
    ensures StateFits(c, ReadAt(c, s, t, k))
    ensures Step(c, ReadAt(c, s, t, k), Move(t, ReadCall)) == ReadAt(c, s, t, k + 1)
  {
    hide CountersExact, ReaderOk, ReadOk;
    BumpBack(s.counters, s.version, c.slots[t]);
    assert s.pcs[t := Idle] == s.pcs;
  }

  /** A thread that reads while the lock is free sees all writes, and leaves the rest alone. */
  lemma ReadAlone<V, O>(c: Config<V, O>, s: State<V, O>, t: nat)
    requires Inv(c, s) && t < |s.pcs| && s.pcs[t].Idle? && s.lock.None?
    ensures var e := Exec(c, s, Repeat(Move(t, ReadCall), 5));
      && e == s.(history := e.history)
      && |e.history| == |s.history| + 1 && s.history <= e.history
      && e.history[|s.history|].seen == Whole(Fold(c, s.log))
  {
    hide Step, ReadAt, Inv;
    InvFits(c, s);
    var m: Move<O> := Move(t, ReadCall);
    ReadAtEnds(c, s, t);
    ReadAtStep(c, s, t, 0);
    RepeatFirst(c, ReadAt(c, s, t, 0), m, 4);
    ReadAtStep(c, s, t, 1);
    RepeatFirst(c, ReadAt(c, s, t, 1), m, 3);
    ReadAtStep(c, s, t, 2);
    RepeatFirst(c, ReadAt(c, s, t, 2), m, 2);
    ReadAtStep(c, s, t, 3);
    RepeatFirst(c, ReadAt(c, s, t, 3), m, 1);
    ReadAtStep(c, s, t, 4);
    RepeatFirst(c, ReadAt(c, s, t, 4), m, 0);
    assert Exec(c, ReadAt(c, s, t, 5), Repeat(m, 0)) == ReadAt(c, s, t, 5);
  }

  lemma ReadAtEnds<V, O>(c: Config<V, O>, s: State<V, O>, t: nat)
    requires StateFits(c, s) && t < |s.pcs|
    ensures ReadAt(c, s, t, 0) == s
    ensures var e := ReadAt(c, s, t, 5);
      && e == s.(history := e.history)
      && |e.history| == |s.history| + 1 && s.history <= e.history
      && e.history[|s.history|].seen == Whole(Fold(c, s.log))
  {
  }
}
