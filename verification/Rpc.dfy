/** Remote calls between nodes that exchange packets over a network that may lose, delay,
    repeat and reorder them.  A node forwards a request by issuing a call of its own that
    remembers the caller's trace id, through any number of hops. */
module Rpc {
  type Data = int
  /** A call is identified by the node that issued it and the trace id it got there. */
  datatype CallId = CallId(node: nat, trace: nat)

  /** The wire form of an rpc: `pack` writes the trace id, the sender's role, and the
      argument (role client) or the result (role server).  `root` is bookkeeping. */
  datatype Packet = Packet(src: nat, dst: nat, trace: nat, fromServer: bool, body: Data, root: CallId)

  /** An rpc that waits in `_rpcs` for its result.  `proxyTrace` is 0 unless it forwards a
      request that came from `peer`. */
  datatype Pending = Pending(argument: Data, proxyTrace: nat, peer: nat, root: CallId)

  datatype Node = Node(nextTrace: nat, rpcs: map<nat, Pending>, timers: multiset<nat>)

  /** What became of a call: its `client` or its `timeout` handler ran. */
  datatype Event = ClientRan(id: CallId, argument: Data, result: Data) | TimedOut(id: CallId)

  datatype Issue = Issue(argument: Data, timeout: int, root: CallId)
  /** A server ran for a request that goes back to call `root`. */
  datatype Computed = Computed(root: CallId, argument: Data, result: Data)

  datatype State = State(
    nodes: seq<Node>,
    packets: set<Packet>,          // everything ever sent: loss is a packet never delivered
    issued: map<CallId, Issue>,    // history
    computed: set<Computed>,       // history
    events: seq<Event>)            // history

  /** `server` returns false (the result is sent back) or true (the request is passed on). */
  datatype Decision = Answer(result: Data) | Forward(dst: nat, timeout: int)

  datatype Move =
    | Call(node: nat, dst: nat, argument: Data, timeout: int)
    | Deliver(packet: Packet, decision: Decision)
    | TimerFires(node: nat, trace: nat)

  function Init(n: nat): State {
    State(seq(n, _ => Node(0, map[], multiset{})), {}, map[], {}, [])
  }

  // ---------------------------------------------------------------------------
  // One step
  // ---------------------------------------------------------------------------

  const DEFAULT_TIMEOUT: nat := 30

  /** The value that `set_request` computes from `get_timeout`. */
  function Effective(timeout: int): nat {
    if timeout > 0 then timeout else DEFAULT_TIMEOUT
  }

  /** The trace id that the timer of a new request looks for.  `set_request` passes the
      timeout where `set_timeout_timer` expects the trace id, and the other way round. */
  function TimerTarget(trace: nat, timeout: int): nat {
    Effective(timeout)
  }

  /** `set_request`, followed by sending the packed rpc to `dst`. */
  function SetRequest(s: State, n: nat, dst: nat, argument: Data, proxyTrace: nat, peer: nat,
                      timeout: int, root: CallId): State
    requires n < |s.nodes|
  {
    var node := s.nodes[n];
    var trace := node.nextTrace + 1;
    var node' := Node(trace, node.rpcs[trace := Pending(argument, proxyTrace, peer, root)],
                      node.timers + multiset{TimerTarget(trace, timeout)});
    s.(nodes := s.nodes[n := node'],
       packets := s.packets + {Packet(n, dst, trace, false, argument, root)},
       issued := s.issued[CallId(n, trace) := Issue(argument, timeout, root)])
  }

  /** `run` in the role of the server. */
  function RunServer(s: State, p: Packet, decision: Decision): State
    requires p.dst < |s.nodes|
  {
    match decision
    case Answer(result) =>
      s.(packets := s.packets + {Packet(p.dst, p.src, p.trace, true, result, p.root)},
         computed := s.computed + {Computed(p.root, p.body, result)})
    case Forward(dst, timeout) =>
      SetRequest(s, p.dst, dst, p.body, p.trace, p.src, timeout, p.root)
  }

  /** Erases a call from `_rpcs`, under the lock. */
  function Claim(s: State, n: nat, trace: nat): State
    requires n < |s.nodes|
  {
    s.(nodes := s.nodes[n := s.nodes[n].(rpcs := s.nodes[n].rpcs - {trace})])
  }

  /** `run` in the role of the client: a forwarded call goes back to its caller under the
      caller's trace id, any other call is completed. */
  function RunClient(s: State, p: Packet): State
    requires p.dst < |s.nodes|
  {
    var rpcs := s.nodes[p.dst].rpcs;
    if p.trace !in rpcs then s
    else
      var rpc := rpcs[p.trace];
      var claimed := Claim(s, p.dst, p.trace);
      if rpc.proxyTrace > 0 then
        claimed.(packets := s.packets + {Packet(p.dst, rpc.peer, rpc.proxyTrace, true, p.body, rpc.root)})
      else
        claimed.(events := s.events + [ClientRan(CallId(p.dst, p.trace), rpc.argument, p.body)])
  }

  /** The timer set by `set_timeout_timer`; it runs once. */
  function RunTimer(s: State, n: nat, trace: nat): State
    requires n < |s.nodes|
  {
    var spent := s.(nodes := s.nodes[n := s.nodes[n].(timers := s.nodes[n].timers - multiset{trace})]);
    if trace !in s.nodes[n].rpcs then spent
    else Claim(spent, n, trace).(events := s.events + [TimedOut(CallId(n, trace))])
  }

  ghost predicate Enabled(s: State, m: Move) {
    match m
    case Call(n, dst, _, _) => n < |s.nodes| && dst < |s.nodes|
    case Deliver(p, decision) =>
      p in s.packets && p.dst < |s.nodes| && (decision.Forward? ==> decision.dst < |s.nodes|)
    case TimerFires(n, trace) => n < |s.nodes| && trace in s.nodes[n].timers
  }

  /** `unpack` turns the role in the packet round: what a client sent makes a server run. */
  function Receive(s: State, p: Packet, decision: Decision): State
    requires p.dst < |s.nodes|
  {
    var isServer := !p.fromServer;
    if isServer then RunServer(s, p, decision) else RunClient(s, p)
  }

  ghost function Step(s: State, m: Move): State {
    if !Enabled(s, m) then s
    else
      match m
      case Call(n, dst, argument, timeout) =>
        SetRequest(s, n, dst, argument, 0, n, timeout, CallId(n, s.nodes[n].nextTrace + 1))
      case Deliver(p, decision) =>
        Receive(s, p, decision)
      case TimerFires(n, trace) => RunTimer(s, n, trace)
  }

  ghost function Run(s: State, moves: seq<Move>): State {
    if moves == [] then s else Step(Run(s, moves[..|moves| - 1]), moves[|moves| - 1])
  }

  // ---------------------------------------------------------------------------
  // The invariant
  // ---------------------------------------------------------------------------

  /** Call `id` was made with `argument`, for the call `root` (itself unless it forwards). */
  ghost predicate IssuedFor(issued: map<CallId, Issue>, id: CallId, root: CallId, argument: Data) {
    && id in issued && issued[id].root == root && issued[id].argument == argument
    && root in issued && issued[root].root == root && issued[root].argument == argument
  }

  ghost predicate RpcOk(issued: map<CallId, Issue>, id: CallId, rpc: Pending) {
    && IssuedFor(issued, id, rpc.root, rpc.argument)
    && (if rpc.proxyTrace == 0 then rpc.root == id
        else IssuedFor(issued, CallId(rpc.peer, rpc.proxyTrace), rpc.root, rpc.argument))
  }

  ghost predicate PacketOk(issued: map<CallId, Issue>, computed: set<Computed>, p: Packet) {
    if p.fromServer then
      && CallId(p.dst, p.trace) in issued
      && IssuedFor(issued, CallId(p.dst, p.trace), p.root, issued[CallId(p.dst, p.trace)].argument)
      && Computed(p.root, issued[p.root].argument, p.body) in computed
    else
      p.trace > 0 && IssuedFor(issued, CallId(p.src, p.trace), p.root, p.body)
  }

  ghost predicate EventOk(s: State, e: Event) {
    && e.id in s.issued && e.id.node < |s.nodes| && e.id.trace !in s.nodes[e.id.node].rpcs
    && (e.ClientRan? ==>
         IssuedFor(s.issued, e.id, e.id, e.argument) && Computed(e.id, e.argument, e.result) in s.computed)
  }

  /** Trace ids are given out in order. */
  ghost predicate IssuedInv(s: State) {
    forall id :: id in s.issued ==> id.node < |s.nodes| && 1 <= id.trace <= s.nodes[id.node].nextTrace
  }

  ghost predicate RpcsInv(s: State) {
    forall n, t :: 0 <= n < |s.nodes| && t in s.nodes[n].rpcs ==> RpcOk(s.issued, CallId(n, t), s.nodes[n].rpcs[t])
  }

  ghost predicate PacketsInv(s: State) {
    forall p :: p in s.packets ==> PacketOk(s.issued, s.computed, p)
  }

  ghost predicate EventsInv(s: State) {
    && (forall i :: 0 <= i < |s.events| ==> EventOk(s, s.events[i]))
    && (forall i, j :: 0 <= i < j < |s.events| ==> s.events[i].id != s.events[j].id)
  }

  ghost predicate Inv(s: State) {
    IssuedInv(s) && RpcsInv(s) && PacketsInv(s) && EventsInv(s)
  }

  lemma InitInv(n: nat)
    ensures Inv(Init(n))
  {
  }

  // A new call

  function NewId(s: State, n: nat): CallId
    requires n < |s.nodes|
  {
    CallId(n, s.nodes[n].nextTrace + 1)
  }

  lemma NewIdIsNew(s: State, n: nat)
    requires IssuedInv(s) && n < |s.nodes|
    ensures NewId(s, n) !in s.issued
  {
  }

  lemma IssuedGrows(issued: map<CallId, Issue>, id: CallId, issue: Issue)
    requires id !in issued
    ensures forall c, root, a :: IssuedFor(issued, c, root, a) ==> IssuedFor(issued[id := issue], c, root, a)
  {
  }

  /** The caller of a new request is known: the request itself, or the one it forwards. */
  ghost predicate CallerKnown(s: State, n: nat, argument: Data, proxyTrace: nat, peer: nat, root: CallId)
    requires n < |s.nodes|
  {
    if proxyTrace == 0 then root == NewId(s, n)
    else IssuedFor(s.issued, CallId(peer, proxyTrace), root, argument)
  }

  lemma NewRpcs(s: State, n: nat, dst: nat, argument: Data, proxyTrace: nat, peer: nat, timeout: int, root: CallId)
    requires Inv(s) && n < |s.nodes| && CallerKnown(s, n, argument, proxyTrace, peer, root)
    ensures var s' := SetRequest(s, n, dst, argument, proxyTrace, peer, timeout, root);
      RpcsInv(s') && IssuedFor(s'.issued, NewId(s, n), root, argument)
  {
    var s' := SetRequest(s, n, dst, argument, proxyTrace, peer, timeout, root);
    NewIdIsNew(s, n);
    IssuedGrows(s.issued, NewId(s, n), Issue(argument, timeout, root));
    forall m, t | 0 <= m < |s'.nodes| && t in s'.nodes[m].rpcs
      ensures RpcOk(s'.issued, CallId(m, t), s'.nodes[m].rpcs[t])
    {
      if CallId(m, t) != NewId(s, n) { assert RpcOk(s.issued, CallId(m, t), s.nodes[m].rpcs[t]); }
    }
  }

  lemma NewPackets(s: State, n: nat, dst: nat, argument: Data, proxyTrace: nat, peer: nat, timeout: int, root: CallId)
    requires Inv(s) && n < |s.nodes| && CallerKnown(s, n, argument, proxyTrace, peer, root)
    ensures PacketsInv(SetRequest(s, n, dst, argument, proxyTrace, peer, timeout, root))
  {
    var s' := SetRequest(s, n, dst, argument, proxyTrace, peer, timeout, root);
    NewRpcs(s, n, dst, argument, proxyTrace, peer, timeout, root);
    NewIdIsNew(s, n);
    IssuedGrows(s.issued, NewId(s, n), Issue(argument, timeout, root));
    forall p | p in s'.packets
      ensures PacketOk(s'.issued, s'.computed, p)
    {
      if p in s.packets { assert PacketOk(s.issued, s.computed, p); }
    }
  }

  lemma NewEvents(s: State, n: nat, dst: nat, argument: Data, proxyTrace: nat, peer: nat, timeout: int, root: CallId)
    requires Inv(s) && n < |s.nodes|
    ensures var s' := SetRequest(s, n, dst, argument, proxyTrace, peer, timeout, root); EventsInv(s') && IssuedInv(s')
  {
    var s' := SetRequest(s, n, dst, argument, proxyTrace, peer, timeout, root);
    NewIdIsNew(s, n);
    IssuedGrows(s.issued, NewId(s, n), Issue(argument, timeout, root));
    forall i | 0 <= i < |s'.events|
      ensures EventOk(s', s'.events[i])
    {
      assert EventOk(s, s.events[i]);
    }
  }

  lemma SetRequestInv(s: State, n: nat, dst: nat, argument: Data, proxyTrace: nat, peer: nat, timeout: int,
      root: CallId)
    requires Inv(s) && n < |s.nodes| && CallerKnown(s, n, argument, proxyTrace, peer, root)
    ensures Inv(SetRequest(s, n, dst, argument, proxyTrace, peer, timeout, root))
  {
    NewRpcs(s, n, dst, argument, proxyTrace, peer, timeout, root);
    NewPackets(s, n, dst, argument, proxyTrace, peer, timeout, root);
    NewEvents(s, n, dst, argument, proxyTrace, peer, timeout, root);
  }

  // The other steps

  lemma RunServerInv(s: State, p: Packet, decision: Decision)
    requires Inv(s) && p in s.packets && !p.fromServer && p.dst < |s.nodes|
    ensures Inv(RunServer(s, p, decision))
  {
    assert PacketOk(s.issued, s.computed, p);
    if decision.Forward? {
      SetRequestInv(s, p.dst, decision.dst, p.body, p.trace, p.src, decision.timeout, p.root);
    } else {
      var s' := RunServer(s, p, decision);
      forall q | q in s'.packets
        ensures PacketOk(s'.issued, s'.computed, q)
      {
        if q in s.packets { assert PacketOk(s.issued, s.computed, q); }
      }
      forall i | 0 <= i < |s'.events|
        ensures EventOk(s', s'.events[i])
      {
        assert EventOk(s, s.events[i]);
      }
    }
  }

  /** Erasing a pending call, and then saying what became of it. */
  lemma ClaimInv(s: State, n: nat, trace: nat)
    requires Inv(s) && n < |s.nodes| && trace in s.nodes[n].rpcs
    ensures Inv(Claim(s, n, trace))
    ensures forall i :: 0 <= i < |s.events| ==> s.events[i].id != CallId(n, trace)
  {
    var s' := Claim(s, n, trace);
    forall i | 0 <= i < |s.events|
      ensures EventOk(s', s'.events[i]) && s.events[i].id != CallId(n, trace)
    {
      assert EventOk(s, s.events[i]);
    }
    forall m, t | 0 <= m < |s'.nodes| && t in s'.nodes[m].rpcs
      ensures RpcOk(s'.issued, CallId(m, t), s'.nodes[m].rpcs[t])
    {
      assert RpcOk(s.issued, CallId(m, t), s.nodes[m].rpcs[t]);
    }
  }

  lemma AddEvent(s: State, e: Event)
    requires Inv(s) && EventOk(s, e)
    requires forall i :: 0 <= i < |s.events| ==> s.events[i].id != e.id
    ensures Inv(s.(events := s.events + [e]))
  {
    var s' := s.(events := s.events + [e]);
    forall i | 0 <= i < |s'.events|
      ensures EventOk(s', s'.events[i])
    {
      if i < |s.events| { assert EventOk(s, s.events[i]); }
    }
  }

  lemma AddPacket(s: State, p: Packet)
    requires Inv(s) && PacketOk(s.issued, s.computed, p)
    ensures Inv(s.(packets := s.packets + {p}))
  {
    var s' := s.(packets := s.packets + {p});
    forall i | 0 <= i < |s'.events|
      ensures EventOk(s', s'.events[i])
    {
      assert EventOk(s, s.events[i]);
    }
  }

  lemma RunClientInv(s: State, p: Packet)
    requires Inv(s) && p in s.packets && p.fromServer && p.dst < |s.nodes|
    ensures Inv(RunClient(s, p))
  {
    assert PacketOk(s.issued, s.computed, p);
    if p.trace in s.nodes[p.dst].rpcs {
      var rpc := s.nodes[p.dst].rpcs[p.trace];
      assert RpcOk(s.issued, CallId(p.dst, p.trace), rpc);
      ClaimInv(s, p.dst, p.trace);
      var claimed := Claim(s, p.dst, p.trace);
      if rpc.proxyTrace > 0 {
        AddPacket(claimed, Packet(p.dst, rpc.peer, rpc.proxyTrace, true, p.body, rpc.root));
      } else {
        AddEvent(claimed, ClientRan(CallId(p.dst, p.trace), rpc.argument, p.body));
      }
    }
  }

  lemma SpendInv(s: State, n: nat, timers: multiset<nat>)
    requires Inv(s) && n < |s.nodes|
    ensures Inv(s.(nodes := s.nodes[n := s.nodes[n].(timers := timers)]))
  {
    var s' := s.(nodes := s.nodes[n := s.nodes[n].(timers := timers)]);
    forall i | 0 <= i < |s'.events|
      ensures EventOk(s', s'.events[i])
    {
      assert EventOk(s, s.events[i]);
    }
    forall m, t | 0 <= m < |s'.nodes| && t in s'.nodes[m].rpcs
      ensures RpcOk(s'.issued, CallId(m, t), s'.nodes[m].rpcs[t])
    {
      assert RpcOk(s.issued, CallId(m, t), s.nodes[m].rpcs[t]);
    }
  }

  lemma RunTimerInv(s: State, n: nat, trace: nat)
    requires Inv(s) && n < |s.nodes|
    ensures Inv(RunTimer(s, n, trace))
  {
    SpendInv(s, n, s.nodes[n].timers - multiset{trace});
    if trace in s.nodes[n].rpcs {
      var spent := s.(nodes := s.nodes[n := s.nodes[n].(timers := s.nodes[n].timers - multiset{trace})]);
      assert RpcOk(s.issued, CallId(n, trace), s.nodes[n].rpcs[trace]);
      ClaimInv(spent, n, trace);
      AddEvent(Claim(spent, n, trace), TimedOut(CallId(n, trace)));
    }
  }

  lemma DeliverInv(s: State, p: Packet, decision: Decision)
    requires Inv(s) && p in s.packets && p.dst < |s.nodes|
    ensures Inv(Receive(s, p, decision))
  {
    if p.fromServer {
      RunClientInv(s, p);
    } else {
      RunServerInv(s, p, decision);
    }
  }

  lemma StepInv(s: State, m: Move)
    requires Inv(s)
    ensures Inv(Step(s, m))
  {
    if Enabled(s, m) {
      if m.Call? {
        assert Step(s, m) == SetRequest(s, m.node, m.dst, m.argument, 0, m.node, m.timeout, NewId(s, m.node));
        SetRequestInv(s, m.node, m.dst, m.argument, 0, m.node, m.timeout, NewId(s, m.node));
      } else if m.Deliver? {
        assert Step(s, m) == Receive(s, m.packet, m.decision);
        DeliverInv(s, m.packet, m.decision);
      } else {
        assert Step(s, m) == RunTimer(s, m.node, m.trace);
        RunTimerInv(s, m.node, m.trace);
      }
    }
  }

  lemma {:induction false} RunInv(s: State, moves: seq<Move>)
    requires Inv(s)
    ensures Inv(Run(s, moves))
  {
    if moves != [] {
      RunInv(s, moves[..|moves| - 1]);
      StepInv(Run(s, moves[..|moves| - 1]), moves[|moves| - 1]);
    }
  }

  // ---------------------------------------------------------------------------
  // Main results
  // ---------------------------------------------------------------------------

  /** In every run each call is completed or timed out at most once in total, and while it
      is neither, its entry is there to be claimed at most once. */
  lemma CompletedAtMostOnce(n: nat, moves: seq<Move>, i: nat, j: nat)
    requires i < |Run(Init(n), moves).events| && j < |Run(Init(n), moves).events|
    ensures var events := Run(Init(n), moves).events;
      events[i].id == events[j].id ==> i == j
  {
    InitInv(n);
    RunInv(Init(n), moves);
  }

  /** In every run, through any number of hops, a result given to `client` was computed by
      a server for that very call, on the argument the call was made with. */
  lemma ResultBelongsToCall(n: nat, moves: seq<Move>, e: Event)
    requires e in Run(Init(n), moves).events && e.ClientRan?
    ensures var s := Run(Init(n), moves);
      && e.id in s.issued && s.issued[e.id].argument == e.argument && s.issued[e.id].root == e.id
      && Computed(e.id, e.argument, e.result) in s.computed
  {
    InitInv(n);
    RunInv(Init(n), moves);
    assert EventOk(Run(Init(n), moves), e);
  }

  // ---------------------------------------------------------------------------
  // Forwarding
  // ---------------------------------------------------------------------------

  lemma {:induction false} RunOn(s: State, moves: seq<Move>, more: seq<Move>)
    ensures Run(s, moves + more) == Run(Run(s, moves), more)
    decreases |more|
  {
    if more == [] {
      assert moves + more == moves;
    } else {
      var n := |more| - 1;
      RunOn(s, moves, more[..n]);
      assert (moves + more)[..|moves + more| - 1] == moves + more[..n];
    }
  }

  lemma RunFirst(s: State, m: Move, more: seq<Move>)
    ensures Run(s, [m] + more) == Run(Step(s, m), more)
  {
    RunOn(s, [m], more);
    assert [m][..0] == [];
  }

  /** Call `id` and `d` calls that it forwards for, one after the other, are all pending. */
  ghost predicate Chain(s: State, id: CallId, d: nat)
    decreases d
  {
    && id.node < |s.nodes| && id.trace in s.nodes[id.node].rpcs
    && var rpc := s.nodes[id.node].rpcs[id.trace];
       if d == 0 then rpc.proxyTrace == 0
       else rpc.proxyTrace > 0 && Chain(s, CallId(rpc.peer, rpc.proxyTrace), d - 1)
  }

  /** The call at the end of the chain. */
  ghost function Origin(s: State, id: CallId, d: nat): CallId
    requires Chain(s, id, d)
    decreases d
  {
    if d == 0 then id
    else
      var rpc := s.nodes[id.node].rpcs[id.trace];
      Origin(s, CallId(rpc.peer, rpc.proxyTrace), d - 1)
  }

  lemma {:induction false} ChainDepth(s: State, id: CallId, d: nat, e: nat)
    requires Chain(s, id, d) && Chain(s, id, e)
    ensures d == e
    decreases d
  {
    if d > 0 && e > 0 {
      var rpc := s.nodes[id.node].rpcs[id.trace];
      ChainDepth(s, CallId(rpc.peer, rpc.proxyTrace), d - 1, e - 1);
    }
  }

  /** Erasing the first call of a chain leaves the rest of it. */
  lemma {:induction false} ChainKept(s: State, s': State, first: CallId, id: CallId, e: nat, d: nat)
    requires Chain(s, first, e) && Chain(s, id, d) && d < e
    requires s'.nodes == Claim(s, first.node, first.trace).nodes
    ensures Chain(s', id, d) && Origin(s', id, d) == Origin(s, id, d)
    ensures s'.nodes[id.node].rpcs[id.trace] == s.nodes[id.node].rpcs[id.trace]
    decreases d
  {
    if id == first {
      ChainDepth(s, id, d, e);
    }
    if d > 0 {
      var rpc := s.nodes[id.node].rpcs[id.trace];
      ChainKept(s, s', first, CallId(rpc.peer, rpc.proxyTrace), e, d - 1);
    }
  }

  lemma {:induction false} OriginPending(s: State, id: CallId, d: nat)
    requires Chain(s, id, d)
    ensures Chain(s, Origin(s, id, d), 0)
    decreases d
  {
    if d > 0 {
      var rpc := s.nodes[id.node].rpcs[id.trace];
      OriginPending(s, CallId(rpc.peer, rpc.proxyTrace), d - 1);
    }
  }

  lemma {:induction false} OriginKept(s: State, s': State, first: CallId, id: CallId, e: nat, d: nat)
    requires Chain(s, first, e) && Chain(s, id, d) && d < e
    requires s'.nodes == Claim(s, first.node, first.trace).nodes
    ensures Chain(s', id, d)
    ensures var root := Origin(s, id, d);
      Chain(s, root, 0) && Chain(s', root, 0) && Origin(s', id, d) == root
      && s'.nodes[root.node].rpcs[root.trace] == s.nodes[root.node].rpcs[root.trace]
  {
    ChainKept(s, s', first, id, e, d);
    OriginPending(s, id, d);
    ChainKept(s, s', first, Origin(s, id, d), e, 0);
  }

  /** The result for a call at the end of any number of forwarding nodes goes back node by
      node, each time under the trace id of the call before, and completes the call at the
      origin of the chain, with the argument that it was made with. */
  lemma {:induction false} ResultGoesBack(s: State, id: CallId, d: nat, p: Packet) returns (moves: seq<Move>)
    requires Chain(s, id, d)
    requires p in s.packets && p.fromServer && p.dst == id.node && p.trace == id.trace
    ensures |moves| == d + 1 && forall i :: 0 <= i < |moves| ==> moves[i].Deliver?
    ensures var root := Origin(s, id, d); var e := Run(s, moves);
      && Chain(s, root, 0)
      && e.events == s.events + [ClientRan(root, s.nodes[root.node].rpcs[root.trace].argument, p.body)]
    decreases d
  {
    var m := Deliver(p, Answer(0));
    var s' := Step(s, m);
    assert s' == RunClient(s, p);
    OriginPending(s, id, d);
    if d == 0 {
      moves := [m];
      RunFirst(s, m, []);
      assert [m] + [] == [m];
    } else {
      var rpc := s.nodes[id.node].rpcs[id.trace];
      var caller := CallId(rpc.peer, rpc.proxyTrace);
      OriginKept(s, s', id, caller, d, d - 1);
      var back := Packet(p.dst, rpc.peer, rpc.proxyTrace, true, p.body, rpc.root);
      assert back in s'.packets && s'.events == s.events;
      var rest := ResultGoesBack(s', caller, d - 1, back);
      moves := [m] + rest;
      RunFirst(s, m, rest);
    }
  }

  /** A request at node `dst`, with the timeout of the call that passes it on. */
  datatype Hop = Hop(dst: nat, timeout: int)

  /** Every call that is pending stays so, as it is. */
  ghost predicate PendingStay(s: State, s': State) {
    && |s'.nodes| == |s.nodes|
    && forall n, t :: 0 <= n < |s.nodes| && t in s.nodes[n].rpcs ==>
         t in s'.nodes[n].rpcs && s'.nodes[n].rpcs[t] == s.nodes[n].rpcs[t]
  }

  lemma RequestKeepsPending(s: State, n: nat, dst: nat, argument: Data, proxyTrace: nat, peer: nat,
      timeout: int, root: CallId)
    requires Inv(s) && n < |s.nodes|
    ensures PendingStay(s, SetRequest(s, n, dst, argument, proxyTrace, peer, timeout, root))
  {
    forall m, t | 0 <= m < |s.nodes| && t in s.nodes[m].rpcs
      ensures CallId(m, t) != NewId(s, n)
    {
      assert RpcOk(s.issued, CallId(m, t), s.nodes[m].rpcs[t]);
    }
  }

  lemma {:induction false} ChainStays(s: State, s': State, id: CallId, d: nat)
    requires PendingStay(s, s') && Chain(s, id, d)
    ensures Chain(s', id, d) && Origin(s', id, d) == Origin(s, id, d)
    decreases d
  {
    if d > 0 {
      var rpc := s.nodes[id.node].rpcs[id.trace];
      ChainStays(s, s', CallId(rpc.peer, rpc.proxyTrace), d - 1);
    }
  }

  /** A request that is passed on: the new one is sent and is pending behind the old one. */
  lemma ForwardIs(s: State, p: Packet, hop: Hop)
    requires Inv(s) && p in s.packets && !p.fromServer && p.dst < |s.nodes| && hop.dst < |s.nodes|
    ensures var s' := Step(s, Deliver(p, Forward(hop.dst, hop.timeout))); var next := NewId(s, p.dst);
      && Inv(s') && PendingStay(s, s') && s'.events == s.events && p.trace > 0
      && next.trace in s'.nodes[p.dst].rpcs
      && s'.nodes[p.dst].rpcs[next.trace] == Pending(p.body, p.trace, p.src, p.root)
      && Packet(p.dst, hop.dst, next.trace, false, p.body, p.root) in s'.packets
  {
    var m := Deliver(p, Forward(hop.dst, hop.timeout));
    StepInv(s, m);
    assert PacketOk(s.issued, s.computed, p);
    RequestKeepsPending(s, p.dst, hop.dst, p.body, p.trace, p.src, hop.timeout, p.root);
    assert Step(s, m) == SetRequest(s, p.dst, hop.dst, p.body, p.trace, p.src, hop.timeout, p.root);
  }

  /** With a further call behind it, a chain is longer and comes from the same call. */
  lemma ChainExtends(s: State, s': State, id: CallId, d: nat, next: CallId, rpc: Pending)
    requires PendingStay(s, s') && Chain(s, id, d) && id == CallId(rpc.peer, rpc.proxyTrace) && rpc.proxyTrace > 0
    requires next.node < |s'.nodes| && next.trace in s'.nodes[next.node].rpcs
    requires s'.nodes[next.node].rpcs[next.trace] == rpc
    ensures Chain(s', next, d + 1) && Origin(s', next, d + 1) == Origin(s, id, d)
  {
    ChainStays(s, s', id, d);
  }

  /** The answer of a server is sent back to the node that asked. */
  lemma AnswerReturns(s: State, p: Packet, id: CallId, d: nat, result: Data)
    requires Chain(s, id, d) && id == CallId(p.src, p.trace)
    requires p in s.packets && !p.fromServer && p.dst < |s.nodes|
    ensures var s' := Step(s, Deliver(p, Answer(result)));
      && s'.nodes == s.nodes && s'.events == s.events
      && Packet(p.dst, p.src, p.trace, true, result, p.root) in s'.packets
  {
  }

  /** What the servers decide on the way: to pass the request on, hop by hop, then to answer. */
  ghost predicate Decides(moves: seq<Move>, hops: seq<Hop>, result: Data) {
    && |hops| < |moves| && (forall i :: 0 <= i < |moves| ==> moves[i].Deliver?)
    && (forall i :: 0 <= i < |hops| ==> moves[i].decision == Forward(hops[i].dst, hops[i].timeout))
    && moves[|hops|].decision == Answer(result)
  }

  /** The moves complete the call with the result, and nothing else happens to any call. */
  ghost predicate Completes(s: State, moves: seq<Move>, root: CallId, result: Data) {
    && Chain(s, root, 0)
    && Run(s, moves).events == s.events + [ClientRan(root, s.nodes[root.node].rpcs[root.trace].argument, result)]
  }

  lemma CompletesFirst(s: State, m: Move, rest: seq<Move>, root: CallId, result: Data)
    requires PendingStay(s, Step(s, m)) && Step(s, m).events == s.events && Chain(s, root, 0)
    requires Completes(Step(s, m), rest, root, result)
    ensures Completes(s, [m] + rest, root, result)
  {
    hide Step;
    RunFirst(s, m, rest);
  }

  /** The last server answers. */
  lemma AnswerTravels(s: State, p: Packet, d: nat, result: Data) returns (moves: seq<Move>)
    requires Chain(s, CallId(p.src, p.trace), d)
    requires p in s.packets && !p.fromServer && p.dst < |s.nodes|
    ensures Decides(moves, [], result) && |moves| == d + 2
    ensures Completes(s, moves, Origin(s, CallId(p.src, p.trace), d), result)
  {
    var id, m := CallId(p.src, p.trace), Deliver(p, Answer(result));
    OriginPending(s, id, d);
    AnswerReturns(s, p, id, d, result);
    ChainStays(s, Step(s, m), id, d);
    var rest := ResultGoesBack(Step(s, m), id, d, Packet(p.dst, p.src, p.trace, true, result, p.root));
    moves := [m] + rest;
    CompletesFirst(s, m, rest, Origin(s, id, d), result);
  }

  /** A request on its way is passed on, answered, and its result brought back. */
  lemma {:induction false} RequestTravels(s: State, p: Packet, d: nat, hops: seq<Hop>, result: Data)
      returns (moves: seq<Move>)
    requires Inv(s) && Chain(s, CallId(p.src, p.trace), d)
    requires p in s.packets && !p.fromServer && p.dst < |s.nodes|
    requires forall i :: 0 <= i < |hops| ==> hops[i].dst < |s.nodes|
    ensures Decides(moves, hops, result) && |moves| == 2 * |hops| + d + 2
    ensures Completes(s, moves, Origin(s, CallId(p.src, p.trace), d), result)
    decreases |hops|
  {
    hide Inv, Completes, Step, Chain, Origin, PendingStay;
    if hops == [] {
      moves := AnswerTravels(s, p, d, result);
    } else {
      var id, root := CallId(p.src, p.trace), Origin(s, CallId(p.src, p.trace), d);
      var m, next := Deliver(p, Forward(hops[0].dst, hops[0].timeout)), NewId(s, p.dst);
      ForwardIs(s, p, hops[0]);
      SameNodes(s, Step(s, m));
      OriginPending(s, id, d);
      ChainExtends(s, Step(s, m), id, d, next, Pending(p.body, p.trace, p.src, p.root));
      var p' := Packet(p.dst, hops[0].dst, next.trace, false, p.body, p.root);
      var rest := RequestTravels(Step(s, m), p', d + 1, hops[1..], result);
      moves := [m] + rest;
      CompletesFirst(s, m, rest, root, result);
      DecidesFirst(m, rest, hops, result);
    }
  }

  lemma SameNodes(s: State, s': State)
    requires PendingStay(s, s')
    ensures |s'.nodes| == |s.nodes|
  {
  }

  lemma DecidesFirst(m: Move, rest: seq<Move>, hops: seq<Hop>, result: Data)
    requires hops != [] && m.Deliver? && m.decision == Forward(hops[0].dst, hops[0].timeout)
    requires Decides(rest, hops[1..], result)
    ensures Decides([m] + rest, hops, result)
  {
    var moves := [m] + rest;
    forall i | 0 < i < |moves|
      ensures moves[i] == rest[i - 1]
    {
    }
    forall i | 0 <= i < |hops|
      ensures moves[i].decision == Forward(hops[i].dst, hops[i].timeout)
    {
      if i > 0 {
        assert hops[1..][i - 1] == hops[i];
      }
    }
  }

  /** A call is sent, and pending. */
  lemma CallIs(s: State, call: Move)
    requires Inv(s) && call.Call? && Enabled(s, call)
    ensures call.node < |s.nodes| && call.dst < |s.nodes|
    ensures var s' := Step(s, call); var id := NewId(s, call.node);
      && Inv(s') && |s'.nodes| == |s.nodes| && s'.events == s.events && Chain(s', id, 0)
      && s'.nodes[id.node].rpcs[id.trace].argument == call.argument
      && Packet(call.node, call.dst, id.trace, false, call.argument, id) in s'.packets
  {
    StepInv(s, call);
    var id := NewId(s, call.node);
    assert Step(s, call) == SetRequest(s, call.node, call.dst, call.argument, 0, call.node, call.timeout, id);
  }

  /** A whole call, from any reachable state: it is sent, passed on by any number of servers,
      answered by the last one, and with the delivery of each reply the result comes back to
      the caller, whose `client` runs with its own argument and that result; nothing else
      happens to any call. */
  lemma CallCompletes(n: nat, before: seq<Move>, call: Move, hops: seq<Hop>, result: Data)
      returns (moves: seq<Move>)
    requires call.Call? && Enabled(Run(Init(n), before), call)
    requires forall i :: 0 <= i < |hops| ==> hops[i].dst < |Run(Init(n), before).nodes|
    ensures Decides(moves, hops, result) && |moves| == 2 * |hops| + 2
    ensures var s := Run(Init(n), before);
      && call.node < |s.nodes|
      && Run(s, [call] + moves).events == s.events + [ClientRan(NewId(s, call.node), call.argument, result)]
  {
    hide Step, Inv, Decides, Run;
    var s := Run(Init(n), before);
    InitInv(n);
    RunInv(Init(n), before);
    CallIs(s, call);
    var id := NewId(s, call.node);
    var p := Packet(call.node, call.dst, id.trace, false, call.argument, id);
    moves := RequestTravels(Step(s, call), p, 0, hops, result);
    RunFirst(s, call, moves);
  }

  // ---------------------------------------------------------------------------
  // Time-outs
  // ---------------------------------------------------------------------------

  /** Some call of node `n` had the effective timeout `k`. */
  ghost predicate TimeoutUsed(s: State, n: nat, k: nat) {
    exists id :: id in s.issued && id.node == n && Effective(s.issued[id].timeout) == k
  }

  ghost predicate TimersInv(s: State) {
    && IssuedInv(s)
    && (forall n, t :: 0 <= n < |s.nodes| && t in s.nodes[n].timers ==> TimeoutUsed(s, n, t))
    && (forall e :: e in s.events && e.TimedOut? ==> TimeoutUsed(s, e.id.node, e.id.trace))
  }

  lemma UsedStays(s: State, s': State, n: nat, k: nat)
    requires TimeoutUsed(s, n, k) && forall id :: id in s.issued ==> id in s'.issued && s'.issued[id] == s.issued[id]
    ensures TimeoutUsed(s', n, k)
  {
    var id :| id in s.issued && id.node == n && Effective(s.issued[id].timeout) == k;
    assert id in s'.issued && id.node == n && Effective(s'.issued[id].timeout) == k;
  }

  lemma SetRequestTimers(s: State, n: nat, dst: nat, argument: Data, proxyTrace: nat, peer: nat, timeout: int,
      root: CallId)
    requires TimersInv(s) && n < |s.nodes|
    ensures TimersInv(SetRequest(s, n, dst, argument, proxyTrace, peer, timeout, root))
  {
    var s' := SetRequest(s, n, dst, argument, proxyTrace, peer, timeout, root);
    NewIdIsNew(s, n);
    forall m, t | 0 <= m < |s'.nodes| && t in s'.nodes[m].timers
      ensures TimeoutUsed(s', m, t)
    {
      if t in s.nodes[m].timers {
        UsedStays(s, s', m, t);
      } else {
        assert NewId(s, n) in s'.issued && s'.issued[NewId(s, n)].timeout == timeout;
      }
    }
    forall e | e in s'.events && e.TimedOut?
      ensures TimeoutUsed(s', e.id.node, e.id.trace)
    {
      UsedStays(s, s', e.id.node, e.id.trace);
    }
  }

  lemma StepTimers(s: State, m: Move)
    requires TimersInv(s)
    ensures TimersInv(Step(s, m))
  {
    if Enabled(s, m) {
      if m.Call? {
        assert Step(s, m) == SetRequest(s, m.node, m.dst, m.argument, 0, m.node, m.timeout, NewId(s, m.node));
        SetRequestTimers(s, m.node, m.dst, m.argument, 0, m.node, m.timeout, NewId(s, m.node));
      } else if m.Deliver? {
        assert Step(s, m) == Receive(s, m.packet, m.decision);
        DeliverTimers(s, m.packet, m.decision);
      } else {
        assert Step(s, m) == RunTimer(s, m.node, m.trace);
        FireTimers(s, m.node, m.trace);
      }
    }
  }

  lemma FireTimers(s: State, n: nat, trace: nat)
    requires TimersInv(s) && n < |s.nodes| && trace in s.nodes[n].timers
    ensures TimersInv(RunTimer(s, n, trace))
  {
    assert TimeoutUsed(s, n, trace);
    OldTimers(s, RunTimer(s, n, trace));
  }

  lemma DeliverTimers(s: State, p: Packet, decision: Decision)
    requires TimersInv(s) && p.dst < |s.nodes|
    ensures TimersInv(Receive(s, p, decision))
  {
    if p.fromServer {
      OldTimers(s, RunClient(s, p));
    } else if decision.Forward? {
      SetRequestTimers(s, p.dst, decision.dst, p.body, p.trace, p.src, decision.timeout, p.root);
    } else {
      OldTimers(s, RunServer(s, p, decision));
    }
  }

  lemma OldTimers(s: State, s': State)
    requires TimersInv(s) && s'.issued == s.issued && |s'.nodes| == |s.nodes|
    requires forall n :: 0 <= n < |s.nodes| ==>
      s'.nodes[n].nextTrace == s.nodes[n].nextTrace && s'.nodes[n].timers <= s.nodes[n].timers
    requires forall e :: e in s'.events && e.TimedOut? ==> e in s.events || TimeoutUsed(s, e.id.node, e.id.trace)
    ensures TimersInv(s')
  {
    forall n, t | 0 <= n < |s'.nodes| && t in s'.nodes[n].timers
      ensures TimeoutUsed(s', n, t)
    {
      assert t in s.nodes[n].timers;
      UsedStays(s, s', n, t);
    }
    forall e | e in s'.events && e.TimedOut?
      ensures TimeoutUsed(s', e.id.node, e.id.trace)
    {
      UsedStays(s, s', e.id.node, e.id.trace);
    }
  }

  lemma {:induction false} RunTimers(n: nat, moves: seq<Move>)
    ensures TimersInv(Run(Init(n), moves))
  {
    if moves != [] {
      RunTimers(n, moves[..|moves| - 1]);
      StepTimers(Run(Init(n), moves[..|moves| - 1]), moves[|moves| - 1]);
    }
  }

  /** Over any run, only a call whose trace id equals a timeout used at its node is ever
      timed out: the timer looks for the timeout value instead of the trace id. */
  lemma TimedOutTraceIsATimeout(n: nat, moves: seq<Move>, e: Event)
    requires e in Run(Init(n), moves).events && e.TimedOut?
    ensures TimeoutUsed(Run(Init(n), moves), e.id.node, e.id.trace)
  {
    RunTimers(n, moves);
  }

  /** So with the default timeout everywhere, the first call of a node is never timed out,
      whether or not an answer comes; and no call is, but the thirtieth. */
  lemma OnlyThirtiethTimesOut(n: nat, moves: seq<Move>, e: Event)
    requires var s := Run(Init(n), moves);
      && e in s.events && e.TimedOut?
      && forall id :: id in s.issued ==> s.issued[id].timeout == DEFAULT_TIMEOUT
    ensures e.id.trace == DEFAULT_TIMEOUT
  {
    TimedOutTraceIsATimeout(n, moves, e);
  }

  /** Every call of these moves, forwarded or not, has the effective timeout `k`. */
  ghost predicate UsesTimeout(moves: seq<Move>, k: nat) {
    forall i :: 0 <= i < |moves| ==> MoveUses(moves[i], k)
  }

  ghost predicate MoveUses(m: Move, k: nat) {
    && (m.Call? ==> Effective(m.timeout) == k)
    && (m.Deliver? && m.decision.Forward? ==> Effective(m.decision.timeout) == k)
  }

  /** All calls have the effective timeout `k`, and a pending call whose trace id is `k` still
      has its timer. */
  ghost predicate Timed(s: State, k: nat) {
    && (forall id :: id in s.issued ==> Effective(s.issued[id].timeout) == k)
    && (forall n :: 0 <= n < |s.nodes| && k in s.nodes[n].rpcs ==> k in s.nodes[n].timers)
  }

  lemma SetRequestTimed(s: State, n: nat, dst: nat, argument: Data, proxyTrace: nat, peer: nat, timeout: int,
                        root: CallId, k: nat)
    requires Timed(s, k) && n < |s.nodes| && Effective(timeout) == k
    ensures Timed(SetRequest(s, n, dst, argument, proxyTrace, peer, timeout, root), k)
  {
  }

  lemma RunClientTimed(s: State, p: Packet, k: nat)
    requires Timed(s, k) && p.dst < |s.nodes|
    ensures Timed(RunClient(s, p), k)
  {
  }

  lemma RunTimerTimed(s: State, n: nat, trace: nat, k: nat)
    requires Timed(s, k) && n < |s.nodes|
    ensures Timed(RunTimer(s, n, trace), k)
  {
    var s' := RunTimer(s, n, trace);
    assert forall m :: 0 <= m < |s.nodes| && m != n ==> s'.nodes[m] == s.nodes[m];
  }

  lemma StepTimed(s: State, m: Move, k: nat)
    requires Timed(s, k) && MoveUses(m, k)
    ensures Timed(Step(s, m), k)
  {
    if Enabled(s, m) {
      if m.Call? {
        assert Step(s, m) == SetRequest(s, m.node, m.dst, m.argument, 0, m.node, m.timeout, NewId(s, m.node));
        SetRequestTimed(s, m.node, m.dst, m.argument, 0, m.node, m.timeout, NewId(s, m.node), k);
      } else if m.TimerFires? {
        assert Step(s, m) == RunTimer(s, m.node, m.trace);
        RunTimerTimed(s, m.node, m.trace, k);
      } else {
        assert Step(s, m) == Receive(s, m.packet, m.decision);
        ReceiveTimed(s, m.packet, m.decision, k);
      }
    }
  }

  lemma ReceiveTimed(s: State, p: Packet, decision: Decision, k: nat)
    requires Timed(s, k) && p.dst < |s.nodes| && (decision.Forward? ==> Effective(decision.timeout) == k)
    ensures Timed(Receive(s, p, decision), k)
  {
    if p.fromServer {
      RunClientTimed(s, p, k);
    } else if decision.Forward? {
      SetRequestTimed(s, p.dst, decision.dst, p.body, p.trace, p.src, decision.timeout, p.root, k);
    }
  }

  lemma {:induction false} RunTimed(s: State, moves: seq<Move>, k: nat)
    requires Timed(s, k) && UsesTimeout(moves, k)
    ensures Timed(Run(s, moves), k)
    decreases |moves|
  {
    if moves != [] {
      RunTimed(s, moves[..|moves| - 1], k);
      StepTimed(Run(s, moves[..|moves| - 1]), moves[|moves| - 1], k);
    }
  }

  /** Some continuation in which the same timeout is used times the call out. */
  ghost predicate MayTimeOut(s: State, id: CallId, k: nat) {
    exists more :: UsesTimeout(more, k) && TimedOut(id) in Run(s, more).events
  }

  /** The exact condition: where every call has the same timeout, a pending call can be timed
      out, now or ever, exactly if its trace id happens to be that timeout. */
  lemma TimesOutIffTraceIsTimeout(n: nat, moves: seq<Move>, id: CallId, k: nat)
    requires UsesTimeout(moves, k)
    requires var s := Run(Init(n), moves); id.node < |s.nodes| && id.trace in s.nodes[id.node].rpcs
    ensures MayTimeOut(Run(Init(n), moves), id, k) <==> id.trace == k
  {
    var s := Run(Init(n), moves);
    if id.trace == k {
      RunTimed(Init(n), moves, k);
      var m := TimerFires(id.node, k);
      RunFirst(s, m, []);
      assert [m] + [] == [m];
      assert Step(s, m).events == s.events + [TimedOut(id)];
      assert UsesTimeout([m], k) && TimedOut(id) in Run(s, [m]).events;
    }
    forall more | UsesTimeout(more, k) && TimedOut(id) in Run(s, more).events
      ensures id.trace == k
    {
      TimedOutHasTimeout(n, moves, more, id, k);
    }
  }

  lemma TimedOutHasTimeout(n: nat, moves: seq<Move>, more: seq<Move>, id: CallId, k: nat)
    requires UsesTimeout(moves, k) && UsesTimeout(more, k)
    requires TimedOut(id) in Run(Run(Init(n), moves), more).events
    ensures id.trace == k
  {
    RunOn(Init(n), moves, more);
    RunTimed(Init(n), moves + more, k);
    TimedOutTraceIsATimeout(n, moves + more, TimedOut(id));
  }

  /** A lost reply: the first call of a node, with the default timeout.  Whatever follows with
      the default timeout, it is never timed out; and if no packet is delivered, it is pending
      for ever. */
  lemma LostReplyNeverTimesOut(argument: Data, more: seq<Move>)
    requires UsesTimeout(more, DEFAULT_TIMEOUT)
    ensures var s := Run(Init(2), [Call(0, 1, argument, 0)] + more);
      && TimedOut(CallId(0, 1)) !in s.events
      && ((forall i :: 0 <= i < |more| ==> !more[i].Deliver?) ==> |s.nodes| == 2 && 1 in s.nodes[0].rpcs)
  {
    var first := [Call(0, 1, argument, 0)];
    RunOn(Init(2), first, more);
    if TimedOut(CallId(0, 1)) in Run(Init(2), first + more).events {
      TimedOutHasTimeout(2, first, more, CallId(0, 1), DEFAULT_TIMEOUT);
    }
    if forall i :: 0 <= i < |more| ==> !more[i].Deliver? {
      assert first[..0] == [];
      StaysPending(Run(Init(2), first), more);
    }
  }

  lemma {:induction false} StaysPending(s: State, more: seq<Move>)
    requires |s.nodes| == 2 && 1 in s.nodes[0].rpcs && 1 !in s.nodes[0].timers
    requires UsesTimeout(more, DEFAULT_TIMEOUT) && forall i :: 0 <= i < |more| ==> !more[i].Deliver?
    ensures var r := Run(s, more); |r.nodes| == 2 && 1 in r.nodes[0].rpcs && 1 !in r.nodes[0].timers
    decreases |more|
  {
    if more != [] {
      var n := |more| - 1;
      StaysPending(s, more[..n]);
      assert MoveUses(more[n], DEFAULT_TIMEOUT);
    }
  }
}
