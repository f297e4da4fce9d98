/** The lock-free object pool: a stack of free nodes linked through `next`, with a head
    word that pairs a node with a counter.

    The pool is modelled as the interleaving of the atomic steps of any number of threads.
    Loading the head, loading (or storing) `next`, and the compare-and-swap are separate
    steps, and a weak compare-and-swap may fail although the head is unchanged. */
module LockfreePool {
  import opened Arith
  import opened Options

  datatype Head = Head(node: Option<nat>, counter: nat)

  datatype Pc =
    | Idle
    | AllocLoaded(seen: Head)
    | AllocNext(seen: Head, next: Option<nat>)
    | AllocWon(node: nat)
    | FreeLoaded(node: nat, seen: Head)
    | FreeStored(node: nat, seen: Head)
  {
    predicate HasSeen() { AllocLoaded? || AllocNext? || FreeLoaded? || FreeStored? }
    predicate Fits(capacity: nat) {
      && (Hand().Some? ==> Hand().value < capacity)
      && (HasSeen() && seen.node.Some? ==> seen.node.value < capacity)
      && (AllocNext? ==> seen.node.Some?)
    }
    /** The node this thread is moving between the free stack and a holder. */
    function Hand(): Option<nat> {
      if AllocWon? || FreeLoaded? || FreeStored? then Some(node) else None
    }
  }

  /** History: the operations in the order in which they took effect. */
  datatype Event = Popped(n: nat) | Pushed(n: nat) | FoundEmpty

  datatype Owner = InStack | HeldBy(t: nat) | InHandOf(t: nat)

  /** `eager` is the initialisation mode that constructs every object up front.  In the lazy
      mode `init` leaves the flags as they happen to be in the raw memory: `garbage`. */
  datatype Config = Config(capacity: nat, threads: nat, eager: bool, garbage: seq<bool>) {
    predicate Valid() {
      0 < capacity && |garbage| == capacity
    }
    /** The object is taken for a constructed one although nobody has constructed it. */
    predicate Skipped(n: nat) {
      !eager && n < |garbage| && garbage[n]
    }
  }

  datatype State = State(
    head: Head,
    next: seq<Option<nat>>,
    initialized: seq<bool>,
    built: seq<nat>,          // history: how often each object was constructed
    pcs: seq<Pc>,
    held: seq<set<nat>>,      // the nodes each thread has been handed and not freed
    owner: seq<Owner>,        // history: who has each node
    log: seq<Event>)          // history
  {
    predicate Fits(c: Config) {
      && c.Valid()
      && |next| == |initialized| == |built| == |owner| == c.capacity
      && |pcs| == |held| == c.threads
      && (head.node.Some? ==> head.node.value < c.capacity)
      && (forall t :: 0 <= t < |pcs| ==> pcs[t].Fits(c.capacity))
    }
    function At(t: nat, pc: Pc): State
      requires t < |pcs|
    {
      this.(pcs := pcs[t := pc])
    }
  }

  datatype Request =
    | AllocCall
    | FreeCall(n: nat)
    | HandOver(n: nat, receiver: nat)

  /** `spurious` makes a weak compare-and-swap fail for no reason. */
  datatype Move = Move(t: nat, request: Request, spurious: bool)

  function Init(c: Config): State
    requires c.Valid()
  {
    State(
      Head(Some(0), 0),
      seq(c.capacity, i => if i == c.capacity - 1 then None else Some(i + 1)),
      seq(c.capacity, i requires 0 <= i < |c.garbage| => c.eager || c.garbage[i]),
      seq(c.capacity, _ => if c.eager then 1 else 0),
      seq(c.threads, _ => Idle),
      seq(c.threads, _ => {}),
      seq(c.capacity, _ => InStack),
      [])
  }

  /** Loading the head in `alloc`: a null node decides the call there and then. */
  function AllocSees(s: State, t: nat): State
    requires t < |s.pcs|
  {
    s.(log := if s.head.node.None? then s.log + [FoundEmpty] else s.log).At(t, AllocLoaded(s.head))
  }

  /** The end of `alloc`: the object is constructed if its flag says that it is not. */
  function HandOut(s: State, t: nat, n: nat): State
    requires t < |s.pcs| == |s.held| && n < |s.initialized| == |s.built| == |s.owner|
  {
    s.(initialized := s.initialized[n := true],
       built := if s.initialized[n] then s.built else s.built[n := s.built[n] + 1],
       owner := s.owner[n := HeldBy(t)],
       held := s.held[t := s.held[t] + {n}]).At(t, Idle)
  }

  function BusyStep(c: Config, s: State, t: nat, spurious: bool): State
    requires s.Fits(c) && t < |s.pcs| && !s.pcs[t].Idle?
  {
    match s.pcs[t]
    case AllocLoaded(seen) =>
      if seen.node.None? then s.At(t, Idle)
      else s.At(t, AllocNext(seen, s.next[seen.node.value]))
    case AllocNext(seen, next) =>
      if s.head == seen && !spurious then
        var n := seen.node.value;
        s.(head := Head(next, seen.counter + 1),
           owner := s.owner[n := InHandOf(t)],
           log := s.log + [Popped(n)]).At(t, AllocWon(n))
      else
        AllocSees(s, t)
    case AllocWon(n) => HandOut(s, t, n)
    case FreeLoaded(n, seen) =>
      s.(next := s.next[n := seen.node]).At(t, FreeStored(n, seen))
    case FreeStored(n, seen) =>
      if s.head == seen && !spurious then
        s.(head := Head(Some(n), seen.counter + 1),
           owner := s.owner[n := InStack],
           log := s.log + [Pushed(n)]).At(t, Idle)
      else
        s.At(t, FreeLoaded(n, s.head))
  }

  /** One move.  Only the holder frees a node or hands it to another thread; a node out
      of range is ignored by `free`. */
  function Step(c: Config, s: State, m: Move): State
    requires s.Fits(c)
  {
    if m.t >= |s.pcs| then s
    else if !s.pcs[m.t].Idle? then BusyStep(c, s, m.t, m.spurious)
    else match m.request
      case AllocCall => AllocSees(s, m.t)
      case FreeCall(n) =>
        if n >= c.capacity || n !in s.held[m.t] then s
        else
          s.(held := s.held[m.t := s.held[m.t] - {n}],
             owner := s.owner[n := InHandOf(m.t)]).At(m.t, FreeLoaded(n, s.head))
      case HandOver(n, receiver) =>
        if n !in s.held[m.t] || n >= c.capacity || receiver >= |s.pcs| || receiver == m.t then s
        else
          s.(held := s.held[m.t := s.held[m.t] - {n}][receiver := s.held[receiver] + {n}],
             owner := s.owner[n := HeldBy(receiver)])
  }

  // ---------------------------------------------------------------------------
  // The sequential specification: a stack of free nodes
  // ---------------------------------------------------------------------------

  function Ascending(n: nat): seq<nat> {
    seq(n, i => i)
  }

  function Apply(stack: seq<nat>, e: Event): seq<nat> {
    match e
    case Popped(n) => if stack == [] then [] else stack[1..]
    case Pushed(n) => [n] + stack
    case FoundEmpty => stack
  }

  predicate Allowed(stack: seq<nat>, e: Event) {
    match e
    case Popped(n) => stack != [] && stack[0] == n
    case Pushed(n) => n !in stack
    case FoundEmpty => stack == []
  }

  function Replay(c: Config, log: seq<Event>): seq<nat> {
    if log == [] then Ascending(c.capacity)
    else Apply(Replay(c, log[..|log| - 1]), log[|log| - 1])
  }

  /** The log is a history of a last-in-first-out stack. */
  ghost predicate Legal(c: Config, log: seq<Event>) {
    log == []
    || (Legal(c, log[..|log| - 1]) && Allowed(Replay(c, log[..|log| - 1]), log[|log| - 1]))
  }

  function Completed(log: seq<Event>): nat {
    if log == [] then 0
    else Completed(log[..|log| - 1]) + (if log[|log| - 1].FoundEmpty? then 0 else 1)
  }

  // ---------------------------------------------------------------------------
  // The invariant
  // ---------------------------------------------------------------------------

  /** `stack` is the list that starts at `node` and follows `next`. */
  ghost predicate Linked(node: Option<nat>, next: seq<Option<nat>>, stack: seq<nat>) {
    && node == (if stack == [] then None else Some(stack[0]))
    && (forall i :: 0 <= i < |stack| ==> stack[i] < |next|)
    && (forall i {:trigger stack[i]} :: 0 <= i < |stack| ==>
         next[stack[i]] == (if i + 1 < |stack| then Some(stack[i + 1]) else None))
  }

  ghost predicate PcOk(s: State, t: nat)
    requires t < |s.pcs|
  {
    var pc := s.pcs[t];
    && (pc.HasSeen() ==>
         pc.seen.counter <= s.head.counter && (pc.seen.counter == s.head.counter ==> pc.seen == s.head))
    && (pc.AllocNext? && pc.seen == s.head ==>
         pc.seen.node.Some? && pc.seen.node.value < |s.next| && pc.next == s.next[pc.seen.node.value])
    && (pc.FreeStored? && pc.node < |s.next| ==> s.next[pc.node] == pc.seen.node)
  }

  ghost predicate Owned(s: State, stack: seq<nat>, n: nat)
    requires n < |s.owner| && |s.pcs| == |s.held|
  {
    && (n in stack <==> s.owner[n] == InStack)
    && (forall t {:trigger s.held[t]} :: 0 <= t < |s.held| ==> (n in s.held[t] <==> s.owner[n] == HeldBy(t)))
    && (forall t {:trigger s.pcs[t]} :: 0 <= t < |s.pcs| ==>
         (s.pcs[t].Hand() == Some(n) <==> s.owner[n] == InHandOf(t)))
    && (s.owner[n].InStack? || s.owner[n].t < |s.pcs|)
  }

  /** A flag that was set at the start keeps its object from being constructed. */
  predicate BuiltOk(skipped: bool, initialized: bool, built: nat) {
    (skipped ==> initialized) && built == if initialized && !skipped then 1 else 0
  }

  ghost predicate HeldBuilt(s: State, nodes: set<nat>) {
    forall n :: n in nodes ==> n < |s.initialized| && s.initialized[n]
  }

  /** The invariant of the shared memory, with `stack` as the content of the free chain. */
  ghost predicate Core(c: Config, s: State, stack: seq<nat>) {
    && s.Fits(c)
    && Linked(s.head.node, s.next, stack)
    && Distinct(stack)
    && (forall t :: 0 <= t < |s.pcs| ==> PcOk(s, t))
    && (forall n :: 0 <= n < c.capacity ==> Owned(s, stack, n))
    && (forall n :: 0 <= n < c.capacity ==> BuiltOk(c.Skipped(n), s.initialized[n], s.built[n]))
    && (forall t :: 0 <= t < |s.held| ==> HeldBuilt(s, s.held[t]))
  }

  ghost predicate Inv(c: Config, s: State) {
    && Core(c, s, Replay(c, s.log))
    && Legal(c, s.log)
    && s.head.counter == Completed(s.log)
  }

  lemma InitChain(c: Config)
    requires c.Valid()
    ensures Linked(Init(c).head.node, Init(c).next, Ascending(c.capacity))
    ensures Distinct(Ascending(c.capacity))
  {
    var stack, next := Ascending(c.capacity), Init(c).next;
    assert stack[0] == 0;
    forall i | 0 <= i < |stack|
      ensures stack[i] < |next|
      ensures next[stack[i]] == (if i + 1 < |stack| then Some(stack[i + 1]) else None)
    {
      assert stack[i] == i && next[i] == (if i == c.capacity - 1 then None else Some(i + 1));
      if i + 1 < |stack| { assert stack[i + 1] == i + 1; }
    }
  }

  lemma InitOwned(c: Config, n: nat)
    requires c.Valid() && n < c.capacity
    ensures Owned(Init(c), Ascending(c.capacity), n)
  {
    assert Ascending(c.capacity)[n] == n;
  }

  lemma InitInv(c: Config)
    requires c.Valid()
    ensures Inv(c, Init(c))
  {
    InitChain(c);
    forall n | 0 <= n < c.capacity
      ensures Owned(Init(c), Ascending(c.capacity), n)
    {
      InitOwned(c, n);
    }
  }

  lemma LogStep(c: Config, log: seq<Event>, e: Event)
    ensures Replay(c, log + [e]) == Apply(Replay(c, log), e)
    ensures Legal(c, log + [e]) <==> Legal(c, log) && Allowed(Replay(c, log), e)
    ensures Completed(log + [e]) == Completed(log) + (if e.FoundEmpty? then 0 else 1)
  {
    assert (log + [e])[..|log + [e]| - 1] == log;
  }

  /** The heart of the ABA argument: a compare-and-swap that succeeds installs the node
      that is the head's successor at that very moment, however often the head was popped
      and pushed back since it was loaded. */
  lemma CasInstallsCurrentSuccessor(c: Config, s: State, t: nat, stack: seq<nat>)
    requires Core(c, s, stack) && t < |s.pcs| && s.pcs[t].AllocNext? && s.head == s.pcs[t].seen
    ensures
      && stack != [] && stack[0] == s.pcs[t].seen.node.value
      && s.pcs[t].next == s.next[stack[0]]
      && Linked(s.pcs[t].next, s.next, stack[1..])
      && stack[0] !in stack[1..]
  {
    assert PcOk(s, t);
    forall i | 0 <= i < |stack[1..]|
      ensures s.next[stack[1..][i]] == (if i + 1 < |stack[1..]| then Some(stack[1..][i + 1]) else None)
    {
      assert stack[1..][i] == stack[i + 1];
    }
  }

  /** Loading `next`, and giving up, change nothing that is shared. */
  lemma LoadCore(c: Config, s: State, m: Move, stack: seq<nat>)
    requires Core(c, s, stack) && m.t < |s.pcs| && s.pcs[m.t].AllocLoaded?
    ensures Core(c, Step(c, s, m), stack)
  {
    var s' := Step(c, s, m);
    forall t | 0 <= t < |s.pcs|
      ensures PcOk(s', t)
    {
      assert PcOk(s, t);
    }
    forall n | 0 <= n < c.capacity
      ensures Owned(s', stack, n)
    {
      assert Owned(s, stack, n);
    }
  }

  /** A compare-and-swap that fails reloads the head. */
  lemma RetryCore(c: Config, s: State, m: Move, stack: seq<nat>)
    requires Core(c, s, stack) && m.t < |s.pcs|
    requires s.pcs[m.t].AllocNext? || s.pcs[m.t].FreeStored?
    requires s.head != s.pcs[m.t].seen || m.spurious
    ensures Core(c, Step(c, s, m), stack)
  {
    var s' := Step(c, s, m);
    forall t | 0 <= t < |s.pcs|
      ensures PcOk(s', t)
    {
      assert PcOk(s, t);
    }
    forall n | 0 <= n < c.capacity
      ensures Owned(s', stack, n)
    {
      assert Owned(s, stack, n);
      assert s'.pcs[m.t].Hand() == s.pcs[m.t].Hand();
    }
  }

  lemma AllocCasCore(c: Config, s: State, m: Move, stack: seq<nat>)
    requires Core(c, s, stack) && m.t < |s.pcs| && s.pcs[m.t].AllocNext?
    requires s.head == s.pcs[m.t].seen && !m.spurious
    ensures stack != [] && stack[0] == s.pcs[m.t].seen.node.value
    ensures Core(c, Step(c, s, m), stack[1..])
  {
    var s' := Step(c, s, m);
    CasInstallsCurrentSuccessor(c, s, m.t, stack);
    forall t | 0 <= t < |s.pcs|
      ensures PcOk(s', t)
    {
      assert PcOk(s, t);
    }
    forall n | 0 <= n < c.capacity
      ensures Owned(s', stack[1..], n)
    {
      assert Owned(s, stack, n);
      assert n in stack <==> n == stack[0] || n in stack[1..];
    }
  }

  lemma PushLinks(c: Config, s: State, t: nat, stack: seq<nat>)
    requires Core(c, s, stack) && t < |s.pcs| && s.pcs[t].FreeStored? && s.head == s.pcs[t].seen
    ensures Linked(Some(s.pcs[t].node), s.next, [s.pcs[t].node] + stack)
    ensures Distinct([s.pcs[t].node] + stack) && s.pcs[t].node !in stack
  {
    var node := s.pcs[t].node;
    assert PcOk(s, t) && Owned(s, stack, node);
    var stack' := [node] + stack;
    forall i | 0 <= i < |stack'|
      ensures s.next[stack'[i]] == (if i + 1 < |stack'| then Some(stack'[i + 1]) else None)
    {
      if i > 0 { assert stack'[i] == stack[i - 1]; }
    }
  }

  lemma FreeCasCore(c: Config, s: State, m: Move, stack: seq<nat>)
    requires Core(c, s, stack) && m.t < |s.pcs| && s.pcs[m.t].FreeStored?
    requires s.head == s.pcs[m.t].seen && !m.spurious
    ensures s.pcs[m.t].node !in stack
    ensures Core(c, Step(c, s, m), [s.pcs[m.t].node] + stack)
  {
    var s' := Step(c, s, m);
    var node := s.pcs[m.t].node;
    PushLinks(c, s, m.t, stack);
    forall t | 0 <= t < |s.pcs|
      ensures PcOk(s', t)
    {
      assert PcOk(s, t);
    }
    assert Owned(s, stack, node);
    forall n | 0 <= n < c.capacity
      ensures Owned(s', [node] + stack, n)
    {
      assert Owned(s, stack, n);
      assert n in [node] + stack <==> n == node || n in stack;
    }
  }

  lemma HandOutPcs(s: State, t: nat, n: nat)
    requires t < |s.pcs| == |s.held| && n < |s.initialized| == |s.built| == |s.owner| == |s.next|
    requires s.pcs[t] == AllocWon(n) && forall u :: 0 <= u < |s.pcs| ==> PcOk(s, u)
    ensures forall u :: 0 <= u < |s.pcs| ==> PcOk(HandOut(s, t, n), u)
  {
    forall u | 0 <= u < |s.pcs|
      ensures PcOk(HandOut(s, t, n), u)
    {
      assert PcOk(s, u);
    }
  }

  lemma HandOutCore(c: Config, s: State, m: Move, stack: seq<nat>)
    requires Core(c, s, stack) && m.t < |s.pcs| && s.pcs[m.t].AllocWon?
    ensures Core(c, Step(c, s, m), stack)
  {
    var node := s.pcs[m.t].node;
    var s' := HandOut(s, m.t, node);
    assert Step(c, s, m) == s';
    assert Owned(s, stack, node);
    HandOutPcs(s, m.t, node);
    hide PcOk, Linked;
    forall n | 0 <= n < c.capacity
      ensures Owned(s', stack, n)
    {
      assert Owned(s, stack, n);
    }
  }

  /** Storing `next` touches only the node the thread is about to free, which is on
      nobody's chain. */
  lemma LinkCore(c: Config, s: State, m: Move, stack: seq<nat>)
    requires Core(c, s, stack) && m.t < |s.pcs| && s.pcs[m.t].FreeLoaded?
    ensures Core(c, Step(c, s, m), stack)
  {
    var s' := Step(c, s, m);
    assert Owned(s, stack, s.pcs[m.t].node);
    forall t | 0 <= t < |s.pcs|
      ensures PcOk(s', t)
    {
      assert PcOk(s, t);
      if s.pcs[t].AllocNext? && s.pcs[t].seen == s.head {
        assert stack != [] && stack[0] == s.head.node.value;
      }
    }
    forall n | 0 <= n < c.capacity
      ensures Owned(s', stack, n)
    {
      assert Owned(s, stack, n);
    }
  }

  lemma StartAllocCore(c: Config, s: State, t: nat, stack: seq<nat>)
    requires Core(c, s, stack) && t < |s.pcs| && s.pcs[t].Idle?
    ensures Core(c, AllocSees(s, t), stack)
  {
    var s' := AllocSees(s, t);
    forall u | 0 <= u < |s.pcs|
      ensures PcOk(s', u)
    {
      assert PcOk(s, u);
    }
    forall n | 0 <= n < c.capacity
      ensures Owned(s', stack, n)
    {
      assert Owned(s, stack, n);
    }
  }

  lemma StartFreeCore(c: Config, s: State, m: Move, stack: seq<nat>)
    requires Core(c, s, stack) && m.t < |s.pcs| && s.pcs[m.t].Idle? && m.request.FreeCall?
    ensures Core(c, Step(c, s, m), stack)
  {
    var s' := Step(c, s, m);
    forall u | 0 <= u < |s.pcs|
      ensures PcOk(s', u)
    {
      assert PcOk(s, u);
    }
    forall n | 0 <= n < c.capacity
      ensures Owned(s', stack, n)
    {
      assert Owned(s, stack, n);
    }
  }

  lemma HandOverCore(c: Config, s: State, m: Move, stack: seq<nat>)
    requires Core(c, s, stack) && m.t < |s.pcs| && s.pcs[m.t].Idle? && m.request.HandOver?
    ensures Core(c, Step(c, s, m), stack)
  {
    var s' := Step(c, s, m);
    forall u | 0 <= u < |s.pcs|
      ensures PcOk(s', u)
    {
      assert PcOk(s, u);
    }
    forall n | 0 <= n < c.capacity
      ensures Owned(s', stack, n)
    {
      assert Owned(s, stack, n);
    }
  }

  /** The event, if any, with which a move takes effect. */
  function EventOf(s: State, m: Move): seq<Event> {
    if m.t >= |s.pcs| then []
    else
      var sees := if s.head.node.None? then [FoundEmpty] else [];
      match s.pcs[m.t]
      case Idle => if m.request.AllocCall? then sees else []
      case AllocNext(seen, _) =>
        if s.head != seen || m.spurious then sees
        else if seen.node.Some? then [Popped(seen.node.value)] else []
      case FreeStored(n, seen) => if s.head == seen && !m.spurious then [Pushed(n)] else []
      case _ => []
  }

  lemma EventLogged(c: Config, s: State, m: Move)
    requires s.Fits(c)
    ensures Step(c, s, m).log == s.log + EventOf(s, m)
    ensures Step(c, s, m).head.counter
         == s.head.counter + (if EventOf(s, m) != [] && !EventOf(s, m)[0].FoundEmpty? then 1 else 0)
    ensures |EventOf(s, m)| <= 1
  {
  }

  lemma CoreStep(c: Config, s: State, m: Move, stack: seq<nat>)
    requires Core(c, s, stack)
    ensures EventOf(s, m) == [] ==> Core(c, Step(c, s, m), stack)
    ensures EventOf(s, m) != [] ==>
      Allowed(stack, EventOf(s, m)[0]) && Core(c, Step(c, s, m), Apply(stack, EventOf(s, m)[0]))
  {
    if m.t < |s.pcs| {
      match s.pcs[m.t]
      case Idle =>
        match m.request {
          case AllocCall => StartAllocCore(c, s, m.t, stack);
          case FreeCall(_) => StartFreeCore(c, s, m, stack);
          case HandOver(_, _) => HandOverCore(c, s, m, stack);
        }
      case AllocLoaded(seen) => LoadCore(c, s, m, stack);
      case AllocNext(seen, next) =>
        if s.head == seen && !m.spurious {
          AllocCasCore(c, s, m, stack);
        } else {
          RetryCore(c, s, m, stack);
        }
      case AllocWon(n) => HandOutCore(c, s, m, stack);
      case FreeLoaded(n, seen) => LinkCore(c, s, m, stack);
      case FreeStored(n, seen) =>
        if s.head == seen && !m.spurious {
          FreeCasCore(c, s, m, stack);
        } else {
          RetryCore(c, s, m, stack);
        }
    }
  }

  lemma CoreFits(c: Config, s: State, stack: seq<nat>)
    requires Core(c, s, stack)
    ensures s.Fits(c)
  {
  }

  lemma StepInv(c: Config, s: State, m: Move)
    requires Inv(c, s)
    ensures Inv(c, Step(c, s, m))
  {
    hide Core, Step, EventOf, Legal, Completed;
    var stack := Replay(c, s.log);
    CoreFits(c, s, stack);
    CoreStep(c, s, m, stack);
    EventLogged(c, s, m);
    if EventOf(s, m) != [] {
      LogStep(c, s.log, EventOf(s, m)[0]);
      assert EventOf(s, m) == [EventOf(s, m)[0]];
    } else {
      assert s.log + [] == s.log;
    }
  }

  /** The state a schedule leads to.  (Every state of a run from `Init` fits.) */
  ghost function Exec(c: Config, s: State, schedule: seq<Move>): State
    decreases |schedule|
  {
    if schedule == [] || !s.Fits(c) then s
    else Exec(c, Step(c, s, schedule[0]), schedule[1..])
  }

  lemma {:induction false} ExecInv(c: Config, s: State, schedule: seq<Move>)
    requires Inv(c, s)
    ensures Inv(c, Exec(c, s, schedule))
    decreases |schedule|
  {
    if schedule != [] {
      StepInv(c, s, schedule[0]);
      ExecInv(c, Step(c, s, schedule[0]), schedule[1..]);
    }
  }

  ghost function Run(c: Config, schedule: seq<Move>): State
    requires c.Valid()
  {
    Exec(c, Init(c), schedule)
  }

  lemma RunInv(c: Config, schedule: seq<Move>)
    requires c.Valid()
    ensures Inv(c, Run(c, schedule))
  {
    InitInv(c);
    ExecInv(c, Init(c), schedule);
  }

  // ---------------------------------------------------------------------------
  // Main results
  // ---------------------------------------------------------------------------

  /** In every reachable state each node of the pool is in exactly one place: on the free
      chain, with one holder, or in the hand of one thread inside `alloc` or `free`. */
  lemma EveryNodeInOnePlace(c: Config, schedule: seq<Move>, n: nat)
    requires c.Valid() && n < c.capacity
    ensures var s := Run(c, schedule); var stack := Replay(c, s.log);
      var holders := set t | 0 <= t < |s.held| && n in s.held[t];
      var movers := set t | 0 <= t < |s.pcs| && s.pcs[t].Hand() == Some(n);
      |holders| + |movers| + (if n in stack then 1 else 0) == 1
  {
    RunInv(c, schedule);
    var s := Run(c, schedule);
    var stack := Replay(c, s.log);
    assert Owned(s, stack, n);
    var holders := set t | 0 <= t < |s.held| && n in s.held[t];
    var movers := set t | 0 <= t < |s.pcs| && s.pcs[t].Hand() == Some(n);
    match s.owner[n]
    case InStack => assert holders == {} && movers == {};
    case HeldBy(t) => assert holders == {t} && movers == {};
    case InHandOf(t) => assert holders == {} && movers == {t};
  }

  /** The operations take effect in an order that is a history of a last-in-first-out
      stack (so `alloc` reports an empty pool only if the stack was empty when it last
      loaded the head), and the chain of `next` links from the head, free of cycles, is
      always exactly that stack. */
  lemma ChainIsTheStack(c: Config, schedule: seq<Move>)
    requires c.Valid()
    ensures var s := Run(c, schedule); var stack := Replay(c, s.log);
      && Legal(c, s.log)
      && Linked(s.head.node, s.next, stack)
      && Distinct(stack)
      && s.head.counter == Completed(s.log)
  {
    RunInv(c, schedule);
  }

  /** A compare-and-swap that fails for a reason fails because another operation has
      completed since the thread loaded the head. */
  lemma FailureMeansProgress(c: Config, schedule: seq<Move>, t: nat)
    requires c.Valid()
    requires var s := Run(c, schedule); t < |s.pcs| && s.pcs[t].HasSeen() && s.pcs[t].seen != s.head
    ensures var s := Run(c, schedule); s.pcs[t].seen.counter < Completed(s.log)
  {
    RunInv(c, schedule);
    assert PcOk(Run(c, schedule), t);
  }

  /** The object of a node that has been handed out was constructed exactly once, if the pool
      is eager or the flag of the node happened to be false at the start; otherwise never. */
  lemma HandedOutObjectsAreBuiltOnce(c: Config, schedule: seq<Move>, t: nat, n: nat)
    requires c.Valid() && t < |Run(c, schedule).held| && n in Run(c, schedule).held[t]
    ensures var s := Run(c, schedule);
      && n < c.capacity && n < |s.built|
      && (s.built[n] == 1 <==> c.eager || !c.garbage[n])
      && (s.built[n] == 0 <==> !c.eager && c.garbage[n])
  {
    RunInv(c, schedule);
    var s := Run(c, schedule);
    assert HeldBuilt(s, s.held[t]);
    assert BuiltOk(c.Skipped(n), s.initialized[n], s.built[n]);
  }

  lemma ExecFirst(c: Config, s: State, m: Move, more: seq<Move>)
    requires Inv(c, s)
    ensures Inv(c, Step(c, s, m)) && Exec(c, s, [m] + more) == Exec(c, Step(c, s, m), more)
  {
    StepInv(c, s, m);
    assert ([m] + more)[1..] == more;
  }

  function Repeat(m: Move, n: nat): seq<Move> {
    seq(n, _ => m)
  }

  lemma RepeatFirst(c: Config, s: State, m: Move, n: nat)
    requires Inv(c, s)
    ensures Inv(c, Step(c, s, m)) && Exec(c, s, Repeat(m, n + 1)) == Exec(c, Step(c, s, m), Repeat(m, n))
  {
    assert Repeat(m, n + 1) == [m] + Repeat(m, n);
    ExecFirst(c, s, m, Repeat(m, n));
  }

  lemma TopIsHead(c: Config, s: State)
    requires Inv(c, s)
    ensures s.Fits(c)
    ensures var stack := Replay(c, s.log);
      if stack == [] then s.head.node.None? else s.head.node == Some(stack[0]) && stack[0] < c.capacity
  {
  }

  /** An `alloc` that nothing disturbs hands out the top of the stack. */
  lemma AllocAlone(c: Config, s: State, t: nat)
    requires Inv(c, s) && t < |s.pcs| && s.pcs[t].Idle? && Replay(c, s.log) != []
    ensures var stack := Replay(c, s.log); var e := Exec(c, s, Repeat(Move(t, AllocCall, false), 4));
      && Inv(c, e) && e.pcs == s.pcs && t < |s.held| && e.held == s.held[t := s.held[t] + {stack[0]}]
      && Replay(c, e.log) == stack[1..]
  {
    hide Inv, Replay, Apply;
    var m := Move(t, AllocCall, false);
    var n := Replay(c, s.log)[0];
    TopIsHead(c, s);
    var s1 := s.At(t, AllocLoaded(s.head));
    RepeatFirst(c, s, m, 3);
    assert Step(c, s, m) == s1;
    var s2 := s1.At(t, AllocNext(s.head, s.next[n]));
    RepeatFirst(c, s1, m, 2);
    assert Step(c, s1, m) == s2;
    AllocPopsTheTop(c, s2, m);
    RepeatFirst(c, s2, m, 1);
    var s3 := Step(c, s2, m);
    assert s3.pcs == s2.pcs[t := AllocWon(n)] && s3.held == s.held;
    RepeatFirst(c, s3, m, 0);
    assert Step(c, s3, m) == HandOut(s3, t, n);
    assert s.pcs[t := Idle] == s.pcs;
  }

  /** With an empty stack it reports that, and hands out nothing. */
  lemma AllocAloneFails(c: Config, s: State, t: nat)
    requires Inv(c, s) && t < |s.pcs| && s.pcs[t].Idle? && Replay(c, s.log) == []
    ensures Exec(c, s, Repeat(Move(t, AllocCall, false), 2)) == s.(log := s.log + [FoundEmpty])
  {
    hide Inv, Replay;
    var m := Move(t, AllocCall, false);
    TopIsHead(c, s);
    var s1 := s.(log := s.log + [FoundEmpty]).At(t, AllocLoaded(s.head));
    RepeatFirst(c, s, m, 1);
    assert Step(c, s, m) == s1;
    RepeatFirst(c, s1, m, 0);
    assert s.pcs[t := Idle] == s.pcs;
  }

  lemma HeldFits(c: Config, s: State, t: nat, n: nat)
    requires Inv(c, s) && t < |s.held| && n in s.held[t]
    ensures s.Fits(c) && n < c.capacity
  {
    assert HeldBuilt(s, s.held[t]);
  }

  lemma PushLogged(c: Config, log: seq<Event>, n: nat)
    ensures Replay(c, log + [Pushed(n)]) == [n] + Replay(c, log)
  {
    LogStep(c, log, Pushed(n));
  }

  /** A `free` that nothing disturbs puts the node on top of the stack. */
  lemma FreeAlone(c: Config, s: State, t: nat, n: nat)
    requires Inv(c, s) && t < |s.pcs| && s.pcs[t].Idle? && t < |s.held| && n in s.held[t]
    ensures var e := Exec(c, s, Repeat(Move(t, FreeCall(n), false), 3));
      && Inv(c, e) && e.pcs == s.pcs && e.held == s.held[t := s.held[t] - {n}]
      && Replay(c, e.log) == [n] + Replay(c, s.log)
  {
    hide Inv, Replay;
    var m := Move(t, FreeCall(n), false);
    HeldFits(c, s, t, n);
    var s1 := s.(held := s.held[t := s.held[t] - {n}], owner := s.owner[n := InHandOf(t)]).At(t, FreeLoaded(n, s.head));
    RepeatFirst(c, s, m, 2);
    assert Step(c, s, m) == s1;
    var s2 := s1.(next := s.next[n := s.head.node]).At(t, FreeStored(n, s.head));
    RepeatFirst(c, s1, m, 1);
    assert Step(c, s1, m) == s2;
    RepeatFirst(c, s2, m, 0);
    PushLogged(c, s.log, n);
    assert s.pcs[t := Idle] == s.pcs;
  }

  /** Steps that a thread has left if it runs alone: with a stale head it has to load it again. */
  function AloneLeft(s: State, t: nat): nat
    requires t < |s.pcs|
  {
    match s.pcs[t]
    case Idle => 0
    case AllocLoaded(seen) => if seen.node.None? then 1 else if seen == s.head then 3 else 5
    case AllocNext(seen, _) => if seen == s.head then 2 else 4
    case AllocWon(_) => 1
    case FreeLoaded(_, seen) => if seen == s.head then 2 else 4
    case FreeStored(_, seen) => if seen == s.head then 1 else 3
  }

  lemma AloneStep(c: Config, s: State, m: Move)
    requires s.Fits(c) && m.t < |s.pcs| && !s.pcs[m.t].Idle? && !m.spurious
    ensures m.t < |Step(c, s, m).pcs| && AloneLeft(Step(c, s, m), m.t) < AloneLeft(s, m.t)
  {
  }

  /** From any reachable state, with the other threads stopped wherever they are, a thread
      finishes its operation within five steps: nobody ever waits for another. */
  lemma {:induction false} AloneFinishes(c: Config, s: State, m: Move) returns (n: nat)
    requires Inv(c, s) && m.t < |s.pcs| && !m.spurious
    ensures n <= AloneLeft(s, m.t) <= 5
    ensures var e := Exec(c, s, Repeat(m, n)); m.t < |e.pcs| && e.pcs[m.t].Idle?
    decreases AloneLeft(s, m.t)
  {
    hide Inv;
    if s.pcs[m.t].Idle? {
      n := 0;
      assert Exec(c, s, Repeat(m, 0)) == s;
    } else {
      RepeatFirst(c, s, m, 0);
      TopIsHead(c, s);
      AloneStep(c, s, m);
      n := AloneFinishes(c, Step(c, s, m), m);
      RepeatFirst(c, s, m, n);
      n := n + 1;
    }
  }

  /** A run that hands out an object nobody has constructed. */
  lemma GarbageFlagIsBelieved(c: Config)
    requires c.Valid() && 0 < c.threads && !c.eager && c.garbage[0]
    ensures var s := Run(c, Repeat(Move(0, AllocCall, false), 4));
      |s.held| > 0 && 0 in s.held[0] && |s.built| > 0 && s.built[0] == 0
  {
    InitInv(c);
    assert Replay(c, Init(c).log)[0] == 0;
    AllocAlone(c, Init(c), 0);
    HandedOutObjectsAreBuiltOnce(c, Repeat(Move(0, AllocCall, false), 4), 0, 0);
  }

  // ---------------------------------------------------------------------------
  // When `alloc` gives up
  // ---------------------------------------------------------------------------

  /** The thread is in the loop of `alloc`. */
  predicate InAlloc(s: State, t: nat) {
    t < |s.pcs| && (s.pcs[t].AllocLoaded? || s.pcs[t].AllocNext?)
  }

  /** Since the log had `from` entries, the pool was found empty at a moment when the stack was. */
  ghost predicate SawEmpty(c: Config, log: seq<Event>, from: nat) {
    exists i: nat :: from <= i < |log| && log[i].FoundEmpty? && Replay(c, log[..i]) == []
  }

  lemma SawEmptyStays(c: Config, log: seq<Event>, log': seq<Event>, from: nat)
    requires SawEmpty(c, log, from) && log <= log'
    ensures SawEmpty(c, log', from)
  {
    var i: nat :| from <= i < |log| && log[i].FoundEmpty? && Replay(c, log[..i]) == [];
    assert log'[..i] == log[..i] && log'[i] == log[i];
  }

  /** A thread whose `alloc` began when the log had `from` entries: if it has loaded a null
      head, then the stack was empty during the call. */
  ghost predicate Searching(c: Config, s: State, t: nat, from: nat) {
    && InAlloc(s, t) && from <= |s.log|
    && (s.pcs[t].AllocLoaded? && s.pcs[t].seen.node.None? ==> SawEmpty(c, s.log, from))
  }

  lemma LoadSearches(c: Config, s: State, t: nat, from: nat)
    requires Inv(c, s) && t < |s.pcs| && from <= |s.log|
    ensures Searching(c, AllocSees(s, t), t, from)
  {
    TopIsHead(c, s);
    var log := AllocSees(s, t).log;
    if s.head.node.None? {
      assert log[..|s.log|] == s.log && log[|s.log|].FoundEmpty?;
    }
  }

  lemma SearchGoesOn(c: Config, s: State, m: Move, t: nat, from: nat)
    requires Inv(c, s) && Searching(c, s, t, from) && InAlloc(Step(c, s, m), t)
    ensures Searching(c, Step(c, s, m), t, from)
  {
    EventLogged(c, s, m);
    var s' := Step(c, s, m);
    if m.t == t {
      if s.pcs[t].AllocNext? {
        assert s' == AllocSees(s, t);
        LoadSearches(c, s, t, from);
      }
    } else {
      assert s'.pcs[t] == s.pcs[t];
      if SawEmpty(c, s.log, from) {
        SawEmptyStays(c, s.log, s'.log, from);
      }
    }
  }

  ghost predicate InAllocThroughout(c: Config, s: State, schedule: seq<Move>, t: nat)
    decreases |schedule|
  {
    InAlloc(s, t)
    && (schedule != [] && s.Fits(c) ==> InAllocThroughout(c, Step(c, s, schedule[0]), schedule[1..], t))
  }

  lemma {:induction false} SearchLasts(c: Config, s: State, schedule: seq<Move>, t: nat, from: nat)
    requires Inv(c, s) && Searching(c, s, t, from) && InAllocThroughout(c, s, schedule, t)
    ensures Inv(c, Exec(c, s, schedule)) && Searching(c, Exec(c, s, schedule), t, from)
    decreases |schedule|
  {
    hide Inv, Searching, InAlloc;
    if schedule != [] {
      InvFits(c, s);
      StepInv(c, s, schedule[0]);
      StillInAlloc(c, s, schedule, t);
      SearchGoesOn(c, s, schedule[0], t, from);
      SearchLasts(c, Step(c, s, schedule[0]), schedule[1..], t, from);
    }
  }

  lemma InvFits(c: Config, s: State)
    requires Inv(c, s)
    ensures s.Fits(c)
  {
  }

  lemma StillInAlloc(c: Config, s: State, schedule: seq<Move>, t: nat)
    requires s.Fits(c) && schedule != [] && InAllocThroughout(c, s, schedule, t)
    ensures InAlloc(Step(c, s, schedule[0]), t)
  {
    assert InAllocThroughout(c, Step(c, s, schedule[0]), schedule[1..], t);
  }

  /** Under any schedule: a call of `alloc` that ends without a node found the pool empty at a
      moment, during the call, when the stack was empty. */
  lemma AllocFailsOnlyIfEmptied(c: Config, s: State, t: nat, spurious: bool, schedule: seq<Move>, last: Move)
    requires Inv(c, s) && t < |s.pcs| && s.pcs[t].Idle? && last.t == t
    requires InAllocThroughout(c, Step(c, s, Move(t, AllocCall, spurious)), schedule, t)
    requires var e := Exec(c, Step(c, s, Move(t, AllocCall, spurious)), schedule);
      e.Fits(c) && t < |Step(c, e, last).pcs| && Step(c, e, last).pcs[t].Idle?
    ensures var f := Step(c, Exec(c, Step(c, s, Move(t, AllocCall, spurious)), schedule), last);
      SawEmpty(c, f.log, |s.log|)
  {
    var m := Move(t, AllocCall, spurious);
    var s1 := Step(c, s, m);
    StepInv(c, s, m);
    assert s1 == AllocSees(s, t);
    LoadSearches(c, s, t, |s.log|);
    SearchLasts(c, s1, schedule, t, |s.log|);
    var e := Exec(c, s1, schedule);
    assert Step(c, e, last).log == e.log;
  }

  /** The operation log of a run is never revised, so the order is a linearization: an
      operation takes effect at one of its own steps. */
  lemma {:induction false} LogOnlyGrows(c: Config, s: State, more: seq<Move>)
    requires Inv(c, s)
    ensures s.log <= Exec(c, s, more).log
    decreases |more|
  {
    if more != [] {
      StepInv(c, s, more[0]);
      EventLogged(c, s, more[0]);
      LogOnlyGrows(c, Step(c, s, more[0]), more[1..]);
    }
  }

  /** A thread that wins a node has popped the top of the stack. */
  lemma AllocPopsTheTop(c: Config, s: State, m: Move)
    requires Inv(c, s) && m.t < |s.pcs| && s.pcs[m.t].AllocNext?
    requires s.head == s.pcs[m.t].seen && !m.spurious
    ensures var s' := Step(c, s, m); var stack := Replay(c, s.log);
      stack != [] && s'.pcs[m.t] == AllocWon(stack[0]) && Replay(c, s'.log) == stack[1..]
  {
    CoreStep(c, s, m, Replay(c, s.log));
    LogStep(c, s.log, Popped(s.head.node.value));
  }

  /** A thread that is about to give up loaded the head at a moment when the stack was empty. */
  lemma AllocFailsOnlyWhenEmpty(c: Config, s: State, t: nat)
    requires Inv(c, s) && t < |s.pcs|
    ensures AllocSees(s, t).pcs[t].seen.node.None? <==> Replay(c, s.log) == []
  {
  }
}
