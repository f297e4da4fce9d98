/** Thread groups whose workers take tasks from the queue of their group, from a queue of
    their own, or, when they have none, from another group. */
module ThreadPool {
  import opened Arith

  /** A task belongs to the group that accepted it, or to the worker that queued it as an
      essential task of its own thread. */
  datatype Home = OfGroup(g: nat) | OfWorker(w: nat)
  datatype Task = Task(id: nat, home: Home)

  datatype Group = Group(maxsize: nat, queue: seq<Task>, stop: bool)

  /** Where a worker stands.  `probed` lists the groups a stealing worker has tried. */
  datatype Pc = Looking | Stealing(offset: nat, probed: seq<nat>) | Sleeping | Running(task: Task) | Exited

  datatype Worker = Worker(group: nat, pc: Pc, essential: seq<Task>)

  datatype State = State(
    steal: bool,
    groups: seq<Group>,
    workers: seq<Worker>,
    next: nat,
    accepted: seq<Task>,   // history
    finished: seq<Task>)   // history

  datatype Move =
    | AddTask(g: nat)
    | AddEssential(w: nat)
    | Stop(g: nat)                        // the first section of the destructor
    | Look(w: nat, offset: nat)           // `offset`: the random start, if it comes to stealing
    | Probe(w: nat, gotLock: bool)        // `try_to_lock` may fail
    | Wake(w: nat)
    | Finish(w: nat)

  // ---------------------------------------------------------------------------
  // The steps
  // ---------------------------------------------------------------------------

  function SetGroup(s: State, g: nat, group: Group): State
    requires g < |s.groups|
  {
    s.(groups := s.groups[g := group])
  }

  function SetWorker(s: State, w: nat, worker: Worker): State
    requires w < |s.workers|
  {
    s.(workers := s.workers[w := worker])
  }

  /** `thread_group::add_task`. */
  function StepAddTask(s: State, g: nat): State
    requires g < |s.groups|
  {
    var group := s.groups[g];
    if |group.queue| >= group.maxsize || group.stop then s
    else
      var t := Task(s.next, OfGroup(g));
      SetGroup(s, g, group.(queue := group.queue + [t])).(next := s.next + 1, accepted := s.accepted + [t])
  }

  /** `add_essential_task`, called by the task that worker `w` runs. */
  function StepAddEssential(s: State, w: nat): State
    requires w < |s.workers|
  {
    var worker := s.workers[w];
    var t := Task(s.next, OfWorker(w));
    SetWorker(s, w, worker.(essential := worker.essential + [t])).(next := s.next + 1, accepted := s.accepted + [t])
  }

  /** Worker `w` takes the front task of group `g`. */
  function TakeFrom(s: State, w: nat, g: nat): State
    requires w < |s.workers| && g < |s.groups| && s.groups[g].queue != []
  {
    var group := s.groups[g];
    SetWorker(SetGroup(s, g, group.(queue := group.queue[1..])), w, s.workers[w].(pc := Running(group.queue[0])))
  }

  /** The critical section at the head of a worker's loop: take a task, leave, or go on to
      steal or sleep. */
  function StepLook(s: State, w: nat, offset: nat): State
    requires w < |s.workers| && s.workers[w].group < |s.groups|
  {
    var worker := s.workers[w];
    var group := s.groups[worker.group];
    if worker.essential != [] then
      SetWorker(s, w, worker.(pc := Running(worker.essential[0]), essential := worker.essential[1..]))
    else if group.queue != [] then TakeFrom(s, w, worker.group)
    else if group.stop then SetWorker(s, w, worker.(pc := Exited))
    else if s.steal then SetWorker(s, w, worker.(pc := Stealing(offset, [])))
    else SetWorker(s, w, worker.(pc := Sleeping))
  }

  /** The next index of the loop of `try_steal_one`, not counting the worker's own group. */
  function ProbeIndex(offset: nat, i: nat, groups: nat): nat
    requires 0 < groups
  {
    (offset + i) % groups
  }

  /** One turn of the loop of `try_steal_one`; after the last the worker waits. */
  function StepProbe(s: State, w: nat, gotLock: bool): State
    requires w < |s.workers| && s.workers[w].pc.Stealing? && 0 < |s.groups|
  {
    var worker := s.workers[w];
    var i := |worker.pc.probed|;
    if i == |s.groups| then SetWorker(s, w, worker.(pc := Sleeping))
    else
      var idx := ProbeIndex(worker.pc.offset, i, |s.groups|);
      if idx != worker.group && gotLock && s.groups[idx].queue != [] then TakeFrom(s, w, idx)
      else SetWorker(s, w, worker.(pc := worker.pc.(probed := worker.pc.probed + [idx])))
  }

  /** `wait` returns only if the group was stopped or there is a task. */
  function StepWake(s: State, w: nat): State
    requires w < |s.workers| && s.workers[w].group < |s.groups|
  {
    var worker := s.workers[w];
    var group := s.groups[worker.group];
    if group.stop || worker.essential != [] || group.queue != [] then SetWorker(s, w, worker.(pc := Looking)) else s
  }

  /** The task returns or throws, and is destroyed. */
  function StepFinish(s: State, w: nat): State
    requires w < |s.workers| && s.workers[w].pc.Running?
  {
    SetWorker(s, w, s.workers[w].(pc := Looking)).(finished := s.finished + [s.workers[w].pc.task])
  }

  ghost predicate Shaped(s: State) {
    forall w :: 0 <= w < |s.workers| ==> s.workers[w].group < |s.groups|
  }

  ghost predicate Enabled(s: State, m: Move) {
    match m
    case AddTask(g) => g < |s.groups|
    case AddEssential(w) => w < |s.workers| && s.workers[w].pc.Running?
    case Stop(g) => g < |s.groups|
    case Look(w, offset) => w < |s.workers| && s.workers[w].pc.Looking? && offset < |s.groups|
    case Probe(w, _) => w < |s.workers| && s.workers[w].pc.Stealing?
    case Wake(w) => w < |s.workers| && s.workers[w].pc.Sleeping?
    case Finish(w) => w < |s.workers| && s.workers[w].pc.Running?
  }

  ghost function Step(s: State, m: Move): State
    requires Shaped(s)
  {
    if !Enabled(s, m) then s
    else
      match m
      case AddTask(g) => StepAddTask(s, g)
      case AddEssential(w) => StepAddEssential(s, w)
      case Stop(g) => SetGroup(s, g, s.groups[g].(stop := true))
      case Look(w, offset) => StepLook(s, w, offset)
      case Probe(w, gotLock) => StepProbe(s, w, gotLock)
      case Wake(w) => StepWake(s, w)
      case Finish(w) => StepFinish(s, w)
  }

  /** A pool that has just been started: no tasks, every worker at the head of its loop. */
  ghost predicate Started(s: State) {
    && Shaped(s) && s.next == 0 && s.accepted == [] && s.finished == []
    && (forall g :: 0 <= g < |s.groups| ==> s.groups[g].queue == [] && !s.groups[g].stop)
    && (forall w :: 0 <= w < |s.workers| ==> s.workers[w].pc == Looking && s.workers[w].essential == [])
  }

  /** No worker changes its group. */
  ghost predicate SameShape(s: State, s': State) {
    && |s'.groups| == |s.groups| && |s'.workers| == |s.workers| && s'.steal == s.steal
    && forall w :: 0 <= w < |s.workers| ==> s'.workers[w].group == s.workers[w].group
  }

  lemma LookShaped(s: State, w: nat, offset: nat)
    requires w < |s.workers| && s.workers[w].group < |s.groups|
    ensures SameShape(s, StepLook(s, w, offset))
  {
  }

  lemma ProbeShaped(s: State, w: nat, gotLock: bool)
    requires w < |s.workers| && s.workers[w].pc.Stealing? && 0 < |s.groups|
    ensures SameShape(s, StepProbe(s, w, gotLock))
  {
  }

  lemma StepShaped(s: State, m: Move)
    requires Shaped(s)
    ensures var s' := Step(s, m);
      Shaped(s') && |s'.groups| == |s.groups| && |s'.workers| == |s.workers| && s'.steal == s.steal
    ensures forall w :: 0 <= w < |s.workers| ==> Step(s, m).workers[w].group == s.workers[w].group
  {
    hide StepLook, StepProbe;
    if Enabled(s, m) {
      match m
      case Look(w, offset) => LookShaped(s, w, offset);
      case Probe(w, gotLock) => ProbeShaped(s, w, gotLock);
      case _ =>
    }
    assert SameShape(s, Step(s, m));
  }

  ghost function Run(s: State, moves: seq<Move>): (r: State)
    requires Shaped(s)
    ensures Shaped(r) && |r.groups| == |s.groups| && |r.workers| == |s.workers| && r.steal == s.steal
    ensures forall w :: 0 <= w < |s.workers| ==> r.workers[w].group == s.workers[w].group
  {
    if moves == [] then s
    else
      var before := Run(s, moves[..|moves| - 1]);
      StepShaped(before, moves[|moves| - 1]);
      Step(before, moves[|moves| - 1])
  }

  // ---------------------------------------------------------------------------
  // Where the tasks are
  // ---------------------------------------------------------------------------

  function Sum(bags: seq<multiset<Task>>): multiset<Task> {
    if bags == [] then multiset{} else Sum(bags[..|bags| - 1]) + bags[|bags| - 1]
  }

  lemma {:induction false} SumUpdate(bags: seq<multiset<Task>>, i: nat, bag: multiset<Task>, t: Task)
    requires i < |bags|
    ensures Sum(bags[i := bag])[t] + bags[i][t] == Sum(bags)[t] + bag[t]
    decreases |bags|
  {
    var n := |bags| - 1;
    var after := bags[i := bag];
    assert Sum(after) == Sum(after[..n]) + after[n];
    if i == n {
      assert after[..n] == bags[..n];
    } else {
      assert after[..n] == bags[..n][i := bag];
      SumUpdate(bags[..n], i, bag, t);
    }
  }

  lemma {:induction false} SumHas(bags: seq<multiset<Task>>, t: Task) returns (i: nat)
    requires t in Sum(bags)
    ensures i < |bags| && t in bags[i]
    decreases |bags|
  {
    i := |bags| - 1;
    if t !in bags[i] {
      i := SumHas(bags[..i], t);
    }
  }

  function Held(worker: Worker): multiset<Task> {
    multiset(worker.essential) + if worker.pc.Running? then multiset{worker.pc.task} else multiset{}
  }

  function QueueBags(groups: seq<Group>): seq<multiset<Task>> {
    seq(|groups|, i requires 0 <= i < |groups| => multiset(groups[i].queue))
  }

  function WorkerBags(workers: seq<Worker>): seq<multiset<Task>> {
    seq(|workers|, i requires 0 <= i < |workers| => Held(workers[i]))
  }

  function Queued(s: State): multiset<Task> { Sum(QueueBags(s.groups)) }

  function InHand(s: State): multiset<Task> { Sum(WorkerBags(s.workers)) }

  lemma SetGroupBags(s: State, g: nat, group: Group, t: Task)
    requires g < |s.groups|
    ensures Queued(SetGroup(s, g, group))[t] + multiset(s.groups[g].queue)[t] == Queued(s)[t] + multiset(group.queue)[t]
  {
    assert QueueBags(s.groups[g := group]) == QueueBags(s.groups)[g := multiset(group.queue)];
    SumUpdate(QueueBags(s.groups), g, multiset(group.queue), t);
  }

  lemma SetWorkerBags(s: State, w: nat, worker: Worker, t: Task)
    requires w < |s.workers|
    ensures InHand(SetWorker(s, w, worker))[t] + Held(s.workers[w])[t] == InHand(s)[t] + Held(worker)[t]
  {
    assert WorkerBags(s.workers[w := worker]) == WorkerBags(s.workers)[w := Held(worker)];
    SumUpdate(WorkerBags(s.workers), w, Held(worker), t);
  }

  /** Task `t` is in a queue, with a worker or finished as often as it was accepted. */
  ghost predicate Accounted(s: State, t: Task) {
    Queued(s)[t] + InHand(s)[t] + multiset(s.finished)[t] == multiset(s.accepted)[t]
  }

  /** Tasks are numbered in the order of their acceptance. */
  ghost predicate Numbered(s: State) {
    |s.accepted| == s.next && forall i :: 0 <= i < |s.accepted| ==> s.accepted[i].id == i
  }

  lemma FrontTask(queue: seq<Task>)
    requires queue != []
    ensures multiset(queue) == multiset{queue[0]} + multiset(queue[1..])
  {
    assert queue == [queue[0]] + queue[1..];
  }

  lemma TakeFromAccounted(s: State, w: nat, g: nat, t: Task)
    requires Accounted(s, t) && w < |s.workers| && g < |s.groups| && s.groups[g].queue != []
    requires !s.workers[w].pc.Running?
    ensures Accounted(TakeFrom(s, w, g), t)
  {
    var group := s.groups[g];
    var s1 := SetGroup(s, g, group.(queue := group.queue[1..]));
    SetGroupBags(s, g, group.(queue := group.queue[1..]), t);
    FrontTask(group.queue);
    SetWorkerBags(s1, w, s.workers[w].(pc := Running(group.queue[0])), t);
  }

  /** A worker that moves on without touching tasks. */
  lemma MoveAccounted(s: State, w: nat, worker: Worker, t: Task)
    requires Accounted(s, t) && w < |s.workers| && Held(worker) == Held(s.workers[w])
    ensures Accounted(SetWorker(s, w, worker), t)
  {
    SetWorkerBags(s, w, worker, t);
  }

  lemma LookAccounted(s: State, w: nat, offset: nat, t: Task)
    requires Accounted(s, t) && Shaped(s) && w < |s.workers| && s.workers[w].pc.Looking?
    ensures Accounted(StepLook(s, w, offset), t)
  {
    var worker := s.workers[w];
    var group := s.groups[worker.group];
    if worker.essential != [] {
      FrontTask(worker.essential);
      MoveAccounted(s, w, worker.(pc := Running(worker.essential[0]), essential := worker.essential[1..]), t);
    } else if group.queue != [] {
      TakeFromAccounted(s, w, worker.group, t);
    } else {
      MoveAccounted(s, w, worker.(pc := Exited), t);
      MoveAccounted(s, w, worker.(pc := Stealing(offset, [])), t);
      MoveAccounted(s, w, worker.(pc := Sleeping), t);
    }
  }

  lemma ProbeAccounted(s: State, w: nat, gotLock: bool, t: Task)
    requires Accounted(s, t) && w < |s.workers| && s.workers[w].pc.Stealing? && 0 < |s.groups|
    ensures Accounted(StepProbe(s, w, gotLock), t)
  {
    var worker := s.workers[w];
    var i := |worker.pc.probed|;
    MoveAccounted(s, w, worker.(pc := Sleeping), t);
    if i != |s.groups| {
      var idx := ProbeIndex(worker.pc.offset, i, |s.groups|);
      MoveAccounted(s, w, worker.(pc := worker.pc.(probed := worker.pc.probed + [idx])), t);
      if s.groups[idx].queue != [] {
        TakeFromAccounted(s, w, idx, t);
      }
    }
  }

  lemma AddAccounted(s: State, g: nat, t: Task)
    requires Accounted(s, t) && g < |s.groups|
    ensures Accounted(StepAddTask(s, g), t)
  {
    var group := s.groups[g];
    SetGroupBags(s, g, group.(queue := group.queue + [Task(s.next, OfGroup(g))]), t);
  }

  lemma AddEssentialAccounted(s: State, w: nat, t: Task)
    requires Accounted(s, t) && w < |s.workers|
    ensures Accounted(StepAddEssential(s, w), t)
  {
    var worker := s.workers[w];
    SetWorkerBags(s, w, worker.(essential := worker.essential + [Task(s.next, OfWorker(w))]), t);
  }

  lemma FinishAccounted(s: State, w: nat, t: Task)
    requires Accounted(s, t) && w < |s.workers| && s.workers[w].pc.Running?
    ensures Accounted(StepFinish(s, w), t)
  {
    SetWorkerBags(s, w, s.workers[w].(pc := Looking), t);
  }

  lemma StopAccounted(s: State, g: nat, t: Task)
    requires Accounted(s, t) && g < |s.groups|
    ensures Accounted(SetGroup(s, g, s.groups[g].(stop := true)), t)
  {
    SetGroupBags(s, g, s.groups[g].(stop := true), t);
  }

  lemma WakeAccounted(s: State, w: nat, t: Task)
    requires Accounted(s, t) && w < |s.workers| && s.workers[w].group < |s.groups| && s.workers[w].pc.Sleeping?
    ensures Accounted(StepWake(s, w), t)
  {
    MoveAccounted(s, w, s.workers[w].(pc := Looking), t);
  }

  lemma StepAccounted(s: State, m: Move, t: Task)
    requires Shaped(s) && Accounted(s, t)
    ensures Accounted(Step(s, m), t)
  {
    hide Accounted, SetGroup, StepAddTask, StepAddEssential, StepLook, StepProbe, StepWake, StepFinish;
    if Enabled(s, m) {
      match m
      case AddTask(g) => AddAccounted(s, g, t);
      case AddEssential(w) => AddEssentialAccounted(s, w, t);
      case Stop(g) => StopAccounted(s, g, t);
      case Look(w, offset) => LookAccounted(s, w, offset, t);
      case Probe(w, gotLock) => ProbeAccounted(s, w, gotLock, t);
      case Wake(w) => WakeAccounted(s, w, t);
      case Finish(w) => FinishAccounted(s, w, t);
    }
  }

  lemma StepNumbered(s: State, m: Move)
    requires Shaped(s) && Numbered(s)
    ensures Numbered(Step(s, m))
  {
  }

  lemma {:induction false} EmptySum(bags: seq<multiset<Task>>)
    requires forall i :: 0 <= i < |bags| ==> bags[i] == multiset{}
    ensures Sum(bags) == multiset{}
    decreases |bags|
  {
    if bags != [] {
      EmptySum(bags[..|bags| - 1]);
    }
  }

  lemma {:induction false} RunAccounted(s: State, moves: seq<Move>, t: Task)
    requires Started(s)
    ensures Accounted(Run(s, moves), t) && Numbered(Run(s, moves))
    decreases |moves|
  {
    if moves == [] {
      EmptySum(QueueBags(s.groups));
      EmptySum(WorkerBags(s.workers));
    } else {
      RunAccounted(s, moves[..|moves| - 1], t);
      StepAccounted(Run(s, moves[..|moves| - 1]), moves[|moves| - 1], t);
      StepNumbered(Run(s, moves[..|moves| - 1]), moves[|moves| - 1]);
    }
  }

  lemma OneOfEach(accepted: seq<Task>, t: Task)
    requires forall i :: 0 <= i < |accepted| ==> accepted[i].id == i
    ensures multiset(accepted)[t] == if t in accepted then 1 else 0
  {
    if t in accepted {
      var k :| 0 <= k < |accepted| && accepted[k] == t;
      assert accepted == accepted[..k] + [t] + accepted[k + 1..];
      assert t !in accepted[..k] && t !in accepted[k + 1..];
    }
  }

  /** In every state of every run, a task that was accepted is in exactly one place, once:
      in a queue, with a worker, or among the finished tasks. */
  lemma EveryTaskInOnePlace(s: State, moves: seq<Move>, t: Task)
    requires Started(s)
    ensures var r := Run(s, moves);
      Queued(r)[t] + InHand(r)[t] + multiset(r.finished)[t] == if t in r.accepted then 1 else 0
  {
    RunAccounted(s, moves, t);
    OneOfEach(Run(s, moves).accepted, t);
  }

  // ---------------------------------------------------------------------------
  // Order
  // ---------------------------------------------------------------------------

  /** A queue of group `g` that holds its latest tasks, in the order of their acceptance. */
  ghost predicate QueueOrdered(queue: seq<Task>, accepted: seq<Task>, next: nat, g: nat) {
    && (forall i, j :: 0 <= i < j < |queue| ==> queue[i].id < queue[j].id)
    && (forall t :: t in queue ==> t.id < next)
    && (forall t, u :: t in accepted && t.home == OfGroup(g) && t !in queue && u in queue ==> t.id < u.id)
  }

  ghost predicate Ordered(s: State, g: nat)
    requires g < |s.groups|
  {
    QueueOrdered(s.groups[g].queue, s.accepted, s.next, g)
  }

  lemma PopOrdered(queue: seq<Task>, accepted: seq<Task>, next: nat, g: nat)
    requires queue != [] && QueueOrdered(queue, accepted, next, g)
    ensures QueueOrdered(queue[1..], accepted, next, g)
  {
    forall t, u | t in accepted && t.home == OfGroup(g) && t !in queue[1..] && u in queue[1..]
      ensures t.id < u.id
    {
      var i :| 0 <= i < |queue[1..]| && queue[1..][i] == u;
      assert queue[i + 1] == u && queue[0].id < u.id;
      assert t in queue ==> t == queue[0];
    }
  }

  lemma PushOrdered(queue: seq<Task>, accepted: seq<Task>, next: nat, g: nat, t: Task)
    requires QueueOrdered(queue, accepted, next, g) && t.id == next
    requires forall u :: u in accepted ==> u.id < next
    ensures QueueOrdered(queue + [t], accepted + [t], next + 1, g)
  {
  }

  lemma SameQueueOrdered(s: State, s': State, g: nat)
    requires g < |s.groups| && Ordered(s, g) && g < |s'.groups| && s'.groups[g].queue == s.groups[g].queue
    requires s.next <= s'.next
    requires forall t :: t in s'.accepted && t.home == OfGroup(g) ==> t in s.accepted
    ensures Ordered(s', g)
  {
  }

  lemma TakeFromOrdered(s: State, w: nat, h: nat, g: nat)
    requires w < |s.workers| && h < |s.groups| && s.groups[h].queue != [] && g < |s.groups| && Ordered(s, g)
    ensures Ordered(TakeFrom(s, w, h), g)
  {
    if g == h {
      PopOrdered(s.groups[g].queue, s.accepted, s.next, g);
    } else {
      SameQueueOrdered(s, TakeFrom(s, w, h), g);
    }
  }

  lemma AddOrdered(s: State, h: nat, g: nat)
    requires h < |s.groups| && g < |s.groups| && Ordered(s, g) && Numbered(s)
    ensures Ordered(StepAddTask(s, h), g)
  {
    if g == h {
      PushOrdered(s.groups[g].queue, s.accepted, s.next, g, Task(s.next, OfGroup(g)));
    } else {
      SameQueueOrdered(s, StepAddTask(s, h), g);
    }
  }

  lemma StepOrdered(s: State, m: Move, g: nat)
    requires Shaped(s) && g < |s.groups| && Ordered(s, g) && Numbered(s)
    ensures Ordered(Step(s, m), g)
  {
    if Enabled(s, m) {
      match m
      case AddTask(h) => AddOrdered(s, h, g);
      case Look(w, offset) =>
        var h := s.workers[w].group;
        if s.workers[w].essential == [] && s.groups[h].queue != [] {
          TakeFromOrdered(s, w, h, g);
        } else {
          SameQueueOrdered(s, Step(s, m), g);
        }
      case Probe(w, gotLock) => ProbeOrdered(s, w, gotLock, g);
      case _ => SameQueueOrdered(s, Step(s, m), g);
    }
  }

  lemma ProbeOrdered(s: State, w: nat, gotLock: bool, g: nat)
    requires w < |s.workers| && s.workers[w].pc.Stealing? && g < |s.groups| && Ordered(s, g)
    ensures Ordered(StepProbe(s, w, gotLock), g)
  {
    var i := |s.workers[w].pc.probed|;
    var h := ProbeIndex(s.workers[w].pc.offset, i, |s.groups|);
    if i != |s.groups| && h != s.workers[w].group && gotLock && s.groups[h].queue != [] {
      TakeFromOrdered(s, w, h, g);
    } else {
      SameQueueOrdered(s, StepProbe(s, w, gotLock), g);
    }
  }

  lemma {:induction false} RunOrdered(s: State, moves: seq<Move>, g: nat)
    requires Started(s) && g < |s.groups|
    ensures Ordered(Run(s, moves), g)
    decreases |moves|
  {
    if moves != [] {
      var front := moves[..|moves| - 1];
      RunOrdered(s, front, g);
      RunAccounted(s, front, Task(0, OfGroup(g)));
      StepOrdered(Run(s, front), moves[|moves| - 1], g);
    }
  }

  /** Tasks leave the queue of their group, to its own workers and to thieves, in the order
      in which the group accepted them. */
  lemma TakenInOrder(s: State, moves: seq<Move>, g: nat, t: Task, u: Task)
    requires Started(s) && g < |s.groups|
    requires var r := Run(s, moves);
      t in r.accepted && t.home == OfGroup(g) && t !in r.groups[g].queue && u in r.groups[g].queue
    ensures t.id < u.id
  {
    RunOrdered(s, moves, g);
  }

  // ---------------------------------------------------------------------------
  // Stopping a group
  // ---------------------------------------------------------------------------

  ghost predicate ProbedInOrder(offset: nat, probed: seq<nat>, groups: nat) {
    && offset < groups && |probed| <= groups
    && forall i :: 0 <= i < |probed| ==> probed[i] == ProbeIndex(offset, i, groups)
  }

  /** A worker holds its own essential tasks, and tasks of its group or, with stealing on,
      of any group. */
  ghost predicate WorkerOk(s: State, w: nat)
    requires w < |s.workers| && s.workers[w].group < |s.groups|
  {
    var worker := s.workers[w];
    && (forall t :: t in worker.essential ==> t.home == OfWorker(w))
    && (worker.pc.Running? ==>
          var home := worker.pc.task.home;
          home == OfWorker(w) || (home.OfGroup? && (home.g == worker.group || s.steal)))
    && (worker.pc.Exited? ==>
          worker.essential == [] && s.groups[worker.group].stop && s.groups[worker.group].queue == [])
    && (worker.pc.Stealing? ==> s.steal && ProbedInOrder(worker.pc.offset, worker.pc.probed, |s.groups|))
  }

  ghost predicate GroupOk(s: State, g: nat)
    requires g < |s.groups|
  {
    forall t :: t in s.groups[g].queue ==> t.home == OfGroup(g)
  }

  ghost predicate Inv(s: State) {
    && Shaped(s)
    && (forall w :: 0 <= w < |s.workers| ==> WorkerOk(s, w))
    && (forall g :: 0 <= g < |s.groups| ==> GroupOk(s, g))
  }

  /** One worker changes. */
  lemma SetWorkerInv(s: State, w: nat, worker: Worker)
    requires Inv(s) && w < |s.workers| && worker.group == s.workers[w].group
    requires WorkerOk(SetWorker(s, w, worker), w)
    ensures Inv(SetWorker(s, w, worker))
  {
    var s' := SetWorker(s, w, worker);
    forall v | 0 <= v < |s'.workers|
      ensures WorkerOk(s', v)
    {
      if v != w { assert WorkerOk(s, v); }
    }
    forall g | 0 <= g < |s'.groups|
      ensures GroupOk(s', g)
    {
      assert GroupOk(s, g);
    }
  }

  /** One group changes; a stopped group with an empty queue stays one. */
  lemma SetGroupInv(s: State, g: nat, group: Group)
    requires Inv(s) && g < |s.groups| && GroupOk(SetGroup(s, g, group), g)
    requires s.groups[g].stop && s.groups[g].queue == [] ==> group.stop && group.queue == []
    ensures Inv(SetGroup(s, g, group))
  {
    var s' := SetGroup(s, g, group);
    forall v | 0 <= v < |s'.workers|
      ensures WorkerOk(s', v)
    {
      assert WorkerOk(s, v);
    }
    forall h | 0 <= h < |s'.groups|
      ensures GroupOk(s', h)
    {
      if h != g { assert GroupOk(s, h); }
    }
  }

  lemma TakeFromInv(s: State, w: nat, g: nat)
    requires Inv(s) && w < |s.workers| && g < |s.groups| && s.groups[g].queue != []
    requires !s.workers[w].pc.Running? && !s.workers[w].pc.Exited? && (g == s.workers[w].group || s.steal)
    ensures Inv(TakeFrom(s, w, g))
  {
    var group := s.groups[g];
    assert GroupOk(s, g) && WorkerOk(s, w);
    SetGroupInv(s, g, group.(queue := group.queue[1..]));
    SetWorkerInv(SetGroup(s, g, group.(queue := group.queue[1..])), w, s.workers[w].(pc := Running(group.queue[0])));
  }

  lemma LookInv(s: State, w: nat, offset: nat)
    requires Inv(s) && w < |s.workers| && s.workers[w].pc.Looking? && offset < |s.groups|
    ensures Inv(StepLook(s, w, offset))
  {
    var worker := s.workers[w];
    var group := s.groups[worker.group];
    assert WorkerOk(s, w);
    if worker.essential != [] {
      SetWorkerInv(s, w, worker.(pc := Running(worker.essential[0]), essential := worker.essential[1..]));
    } else if group.queue != [] {
      TakeFromInv(s, w, worker.group);
    } else if group.stop {
      SetWorkerInv(s, w, worker.(pc := Exited));
    } else if s.steal {
      SetWorkerInv(s, w, worker.(pc := Stealing(offset, [])));
    } else {
      SetWorkerInv(s, w, worker.(pc := Sleeping));
    }
  }

  lemma ProbeInv(s: State, w: nat, gotLock: bool)
    requires Inv(s) && w < |s.workers| && s.workers[w].pc.Stealing? && 0 < |s.groups|
    ensures Inv(StepProbe(s, w, gotLock))
  {
    var worker := s.workers[w];
    var i := |worker.pc.probed|;
    assert WorkerOk(s, w);
    if i == |s.groups| {
      SetWorkerInv(s, w, worker.(pc := Sleeping));
    } else {
      var idx := ProbeIndex(worker.pc.offset, i, |s.groups|);
      if idx != worker.group && gotLock && s.groups[idx].queue != [] {
        TakeFromInv(s, w, idx);
      } else {
        SetWorkerInv(s, w, worker.(pc := worker.pc.(probed := worker.pc.probed + [idx])));
      }
    }
  }

  lemma AddInv(s: State, g: nat)
    requires Inv(s) && g < |s.groups|
    ensures Inv(StepAddTask(s, g))
  {
    var group := s.groups[g];
    if |group.queue| < group.maxsize && !group.stop {
      assert GroupOk(s, g);
      SetGroupInv(s, g, group.(queue := group.queue + [Task(s.next, OfGroup(g))]));
      SameHolders(SetGroup(s, g, group.(queue := group.queue + [Task(s.next, OfGroup(g))])), StepAddTask(s, g));
    }
  }

  lemma SameHolders(s: State, s': State)
    requires Inv(s) && s'.groups == s.groups && s'.workers == s.workers && s'.steal == s.steal
    ensures Inv(s')
  {
    forall w | 0 <= w < |s'.workers|
      ensures WorkerOk(s', w)
    {
      assert WorkerOk(s, w);
    }
    forall g | 0 <= g < |s'.groups|
      ensures GroupOk(s', g)
    {
      assert GroupOk(s, g);
    }
  }

  lemma AddEssentialInv(s: State, w: nat)
    requires Inv(s) && w < |s.workers| && s.workers[w].pc.Running?
    ensures Inv(StepAddEssential(s, w))
  {
    var worker := s.workers[w].(essential := s.workers[w].essential + [Task(s.next, OfWorker(w))]);
    assert WorkerOk(s, w);
    SetWorkerInv(s, w, worker);
    SameHolders(SetWorker(s, w, worker), StepAddEssential(s, w));
  }

  lemma FinishInv(s: State, w: nat)
    requires Inv(s) && w < |s.workers| && s.workers[w].pc.Running?
    ensures Inv(StepFinish(s, w))
  {
    assert WorkerOk(s, w);
    SetWorkerInv(s, w, s.workers[w].(pc := Looking));
    SameHolders(SetWorker(s, w, s.workers[w].(pc := Looking)), StepFinish(s, w));
  }

  lemma StepInv(s: State, m: Move)
    requires Inv(s)
    ensures Inv(Step(s, m))
  {
    if Enabled(s, m) {
      match m
      case AddTask(g) => AddInv(s, g);
      case AddEssential(w) => AddEssentialInv(s, w);
      case Stop(g) =>
        assert GroupOk(s, g);
        SetGroupInv(s, g, s.groups[g].(stop := true));
      case Look(w, offset) => LookInv(s, w, offset);
      case Probe(w, gotLock) => ProbeInv(s, w, gotLock);
      case Wake(w) =>
        assert WorkerOk(s, w);
        SetWorkerInv(s, w, s.workers[w].(pc := Looking));
      case Finish(w) => FinishInv(s, w);
    }
  }

  lemma {:induction false} RunInv(s: State, moves: seq<Move>)
    requires Started(s)
    ensures Inv(Run(s, moves))
    decreases |moves|
  {
    if moves != [] {
      RunInv(s, moves[..|moves| - 1]);
      StepInv(Run(s, moves[..|moves| - 1]), moves[|moves| - 1]);
    }
  }

  ghost predicate HasWorker(s: State, g: nat) {
    exists w :: 0 <= w < |s.workers| && s.workers[w].group == g
  }

  ghost predicate HasOtherWorker(s: State, g: nat) {
    exists w :: 0 <= w < |s.workers| && s.workers[w].group != g
  }

  /** The group is stopped, and every `join` of its destructor can return. */
  ghost predicate Joined(s: State, g: nat)
    requires g < |s.groups|
  {
    && s.groups[g].stop
    && (forall w :: 0 <= w < |s.workers| && s.workers[w].group == g ==> s.workers[w].pc.Exited?)
  }

  /** An accepted task that is not finished is in the queue of its group or with a worker. */
  lemma Located(s: State, moves: seq<Move>, t: Task) returns (queued: bool, i: nat)
    requires Started(s)
    requires var r := Run(s, moves); t in r.accepted && t !in r.finished
    ensures var r := Run(s, moves);
      if queued then i < |r.groups| && t.home == OfGroup(i) && r.groups[i].queue != []
      else
        && i < |r.workers| && !r.workers[i].pc.Exited?
        && (t.home == OfWorker(i)
            || (r.workers[i].pc == Running(t) && t.home.OfGroup? && (t.home.g == r.workers[i].group || r.steal)))
  {
    var r := Run(s, moves);
    EveryTaskInOnePlace(s, moves, t);
    RunInv(s, moves);
    queued := t in Queued(r);
    if queued {
      i := SumHas(QueueBags(r.groups), t);
      assert GroupOk(r, i);
    } else {
      i := SumHas(WorkerBags(r.workers), t);
      assert WorkerOk(r, i);
    }
  }

  /** A worker that has left saw its group stopped and without tasks, and so it stays. */
  lemma ExitedQueue(s: State, moves: seq<Move>, w: nat)
    requires Started(s)
    requires var r := Run(s, moves); w < |r.workers| && r.workers[w].pc.Exited?
    ensures var r := Run(s, moves); r.groups[r.workers[w].group].queue == []
  {
    RunInv(s, moves);
    assert WorkerOk(Run(s, moves), w);
  }

  /** Once all workers of a group have left, and it had at least one, every task it ever
      accepted is finished, or was stolen and is being run by a worker of another group. */
  lemma JoinedGroupIsDone(s: State, moves: seq<Move>, g: nat, t: Task)
    requires Started(s) && HasWorker(s, g)
    requires var r := Run(s, moves); g < |r.groups| && Joined(r, g) && t in r.accepted && t.home == OfGroup(g)
    ensures var r := Run(s, moves);
      t in r.finished
      || (r.steal && exists w :: 0 <= w < |r.workers| && r.workers[w].group != g && r.workers[w].pc == Running(t))
  {
    var r := Run(s, moves);
    if t !in r.finished {
      var w :| 0 <= w < |s.workers| && s.workers[w].group == g;
      assert r.workers[w].group == g;
      ExitedQueue(s, moves, w);
      var queued, i := Located(s, moves, t);
    }
  }

  /** Without stealing they are all finished. */
  lemma JoinedGroupIsDoneWithoutStealing(s: State, moves: seq<Move>, g: nat, t: Task)
    requires Started(s) && !s.steal && HasWorker(s, g)
    requires var r := Run(s, moves); g < |r.groups| && Joined(r, g) && t in r.accepted && t.home == OfGroup(g)
    ensures t in Run(s, moves).finished
  {
    JoinedGroupIsDone(s, moves, g, t);
  }

  lemma RunMore(s: State, moves: seq<Move>, m: Move)
    requires Shaped(s)
    ensures Run(s, moves + [m]) == Step(Run(s, moves), m)
  {
    assert (moves + [m])[..|moves|] == moves;
  }

  /** Worker `v` starts to steal, is handed the only task of group `g`, and the group is
      stopped. */
  function StealingMoves(v: nat, g: nat): seq<Move> {
    [Look(v, g), AddTask(g), Probe(v, true), Stop(g)]
  }

  /** Task `t` of group `g` is with the thief `v`, and the first `k` workers of the group have
      left. */
  ghost predicate Robbed(s: State, g: nat, v: nat, t: Task, k: nat) {
    && g < |s.groups| && s.groups[g].stop && s.groups[g].queue == []
    && v < |s.workers| && s.workers[v].group != g && s.workers[v].pc == Running(t)
    && t in s.accepted && s.finished == [] && Shaped(s)
    && (forall w :: 0 <= w < |s.workers| && s.workers[w].group == g ==>
          s.workers[w].pc == (if w < k then Exited else Looking) && s.workers[w].essential == [])
  }

  lemma RunFour(s: State, m1: Move, m2: Move, m3: Move, m4: Move)
    requires Shaped(s)
    ensures Run(s, [m1]) == Step(s, m1) && Run(s, [m1, m2]) == Step(Run(s, [m1]), m2)
    ensures Run(s, [m1, m2, m3]) == Step(Run(s, [m1, m2]), m3)
    ensures Run(s, [m1, m2, m3, m4]) == Step(Run(s, [m1, m2, m3]), m4)
  {
    RunMore(s, [], m1);
    RunMore(s, [m1], m2);
    RunMore(s, [m1, m2], m3);
    RunMore(s, [m1, m2, m3], m4);
    assert [] + [m1] == [m1] && [m1] + [m2] == [m1, m2] && [m1, m2] + [m3] == [m1, m2, m3];
    assert [m1, m2, m3] + [m4] == [m1, m2, m3, m4];
  }

  lemma LookSteals(s: State, g: nat, v: nat)
    requires Started(s) && s.steal && g < |s.groups| && v < |s.workers|
    ensures Step(s, Look(v, g)) == SetWorker(s, v, s.workers[v].(pc := Stealing(g, [])))
  {
  }

  lemma AddQueues(s: State, g: nat)
    requires Shaped(s) && g < |s.groups| && s.groups[g].queue == [] && !s.groups[g].stop && s.groups[g].maxsize > 0
    requires s.next == 0 && s.accepted == []
    ensures var t := Task(0, OfGroup(g));
      Step(s, AddTask(g)) == SetGroup(s, g, s.groups[g].(queue := [t])).(next := 1, accepted := [t])
  {
    var t := Task(0, OfGroup(g));
    assert s.groups[g].queue + [t] == [t] && s.accepted + [t] == [t];
    assert Step(s, AddTask(g)) == StepAddTask(s, g);
  }

  lemma ProbeTakes(s: State, g: nat, v: nat)
    requires Shaped(s) && g < |s.groups| && v < |s.workers| && s.workers[v].group != g
    requires s.workers[v].pc == Stealing(g, []) && s.groups[g].queue != []
    ensures Step(s, Probe(v, true)) == TakeFrom(s, v, g)
  {
    DivModUnique(g, |s.groups|, 0, g);
    assert ProbeIndex(g, 0, |s.groups|) == g;
  }

  lemma StopStops(s: State, g: nat)
    requires Shaped(s) && g < |s.groups|
    ensures Step(s, Stop(g)) == SetGroup(s, g, s.groups[g].(stop := true))
  {
  }

  lemma ThiefTakesTask(s: State, g: nat, v: nat)
    requires Started(s) && s.steal && g < |s.groups| && s.groups[g].maxsize > 0
    requires v < |s.workers| && s.workers[v].group != g
    ensures Robbed(Run(s, StealingMoves(v, g)), g, v, Task(0, OfGroup(g)), 0)
  {
    hide Step, Run;
    RunFour(s, Look(v, g), AddTask(g), Probe(v, true), Stop(g));
    var t := Task(0, OfGroup(g));
    LookSteals(s, g, v);
    AddQueues(Run(s, [Look(v, g)]), g);
    ProbeTakes(Run(s, [Look(v, g), AddTask(g)]), g, v);
    var s3 := Run(s, [Look(v, g), AddTask(g), Probe(v, true)]);
    assert s3.groups[g].queue == [] && s3.workers[v].pc == Running(t);
    StopStops(s3, g);
  }

  /** The workers of the group leave, one after the other. */
  function LeavingMoves(s: State, g: nat, k: nat): seq<Move>
    requires k <= |s.workers|
  {
    if k == 0 then []
    else LeavingMoves(s, g, k - 1) + [if s.workers[k - 1].group == g then Look(k - 1, 0) else Stop(g)]
  }

  lemma LeaveStep(s: State, g: nat, v: nat, t: Task, k: nat)
    requires Robbed(s, g, v, t, k) && k < |s.workers|
    ensures Robbed(Step(s, if s.workers[k].group == g then Look(k, 0) else Stop(g)), g, v, t, k + 1)
  {
  }

  lemma {:induction false} AllLeave(s: State, before: seq<Move>, g: nat, v: nat, t: Task, k: nat)
    requires Shaped(s) && k <= |s.workers| && Robbed(Run(s, before), g, v, t, 0)
    ensures Robbed(Run(s, before + LeavingMoves(s, g, k)), g, v, t, k)
  {
    hide Robbed, Step, Run;
    if k == 0 {
      assert before + [] == before;
    } else {
      AllLeave(s, before, g, v, t, k - 1);
      var moves := before + LeavingMoves(s, g, k - 1);
      var m := if s.workers[k - 1].group == g then Look(k - 1, 0) else Stop(g);
      RunMore(s, moves, m);
      assert moves + [m] == before + LeavingMoves(s, g, k);
      var r := Run(s, moves);
      assert r.workers[k - 1].group == s.workers[k - 1].group;
      LeaveStep(r, g, v, t, k - 1);
    }
  }

  ghost predicate DoneWhenJoined(s: State, moves: seq<Move>, g: nat)
    requires Shaped(s) && g < |s.groups|
  {
    var r := Run(s, moves);
    Joined(r, g) ==> forall t :: t in r.accepted && t.home == OfGroup(g) ==> t in r.finished
  }

  ghost predicate AcceptsNone(s: State, g: nat) {
    g < |s.groups| && s.groups[g].maxsize == 0 && forall t :: t in s.accepted ==> t.home != OfGroup(g)
  }

  lemma StepAcceptsNone(s: State, m: Move, g: nat)
    requires Shaped(s) && AcceptsNone(s, g)
    ensures AcceptsNone(Step(s, m), g)
  {
  }

  lemma {:induction false} NoneAccepted(s: State, moves: seq<Move>, g: nat)
    requires Started(s) && g < |s.groups| && s.groups[g].maxsize == 0
    ensures AcceptsNone(Run(s, moves), g)
    decreases |moves|
  {
    hide Step;
    if moves != [] {
      NoneAccepted(s, moves[..|moves| - 1], g);
      StepAcceptsNone(Run(s, moves[..|moves| - 1]), moves[|moves| - 1], g);
    }
  }

  /** In every run the tasks of a group are finished when its workers have left, exactly if it
      accepts none, or it has a worker and nobody can steal from it: stealing is off, or no
      worker belongs to another group. */
  lemma DoneIffNobodySteals(s: State, g: nat)
    requires Started(s) && g < |s.groups|
    ensures (forall moves :: DoneWhenJoined(s, moves, g))
      <==> s.groups[g].maxsize == 0 || (HasWorker(s, g) && (!s.steal || !HasOtherWorker(s, g)))
  {
    if s.groups[g].maxsize > 0 && !HasWorker(s, g) {
      NobodyRuns(s, g);
    } else if s.steal && HasOtherWorker(s, g) && s.groups[g].maxsize > 0 {
      var v :| 0 <= v < |s.workers| && s.workers[v].group != g;
      StolenWhileJoined(s, g, v);
    } else {
      forall moves
        ensures DoneWhenJoined(s, moves, g)
      {
        DoneUnlessStolen(s, moves, g);
      }
    }
  }

  /** A group without workers is stopped with the task that it accepted. */
  lemma NobodyRuns(s: State, g: nat)
    requires Started(s) && g < |s.groups| && !HasWorker(s, g) && s.groups[g].maxsize > 0
    ensures !DoneWhenJoined(s, [AddTask(g)] + [Stop(g)], g)
  {
    RunMore(s, [], AddTask(g));
    AddQueues(s, g);
    RunMore(s, [AddTask(g)], Stop(g));
    var r := Run(s, [AddTask(g)] + [Stop(g)]);
    assert [] + [AddTask(g)] == [AddTask(g)];
    assert r.accepted[0] in r.accepted && r.accepted[0] !in r.finished;
    forall w | 0 <= w < |r.workers|
      ensures r.workers[w].group != g
    {
      assert s.workers[w].group == r.workers[w].group;
    }
  }

  lemma StolenWhileJoined(s: State, g: nat, v: nat)
    requires Started(s) && g < |s.groups|
    requires s.steal && s.groups[g].maxsize > 0 && v < |s.workers| && s.workers[v].group != g
    ensures !DoneWhenJoined(s, StealingMoves(v, g) + LeavingMoves(s, g, |s.workers|), g)
  {
    var t := Task(0, OfGroup(g));
    ThiefTakesTask(s, g, v);
    AllLeave(s, StealingMoves(v, g), g, v, t, |s.workers|);
    var r := Run(s, StealingMoves(v, g) + LeavingMoves(s, g, |s.workers|));
    assert Joined(r, g) && t in r.accepted && t !in r.finished;
  }

  lemma DoneUnlessStolen(s: State, moves: seq<Move>, g: nat)
    requires Started(s) && g < |s.groups|
    requires s.groups[g].maxsize == 0 || (HasWorker(s, g) && (!s.steal || !HasOtherWorker(s, g)))
    ensures DoneWhenJoined(s, moves, g)
  {
    var r := Run(s, moves);
    if Joined(r, g) {
      forall t | t in r.accepted && t.home == OfGroup(g)
        ensures t in r.finished
      {
        if s.groups[g].maxsize == 0 {
          NoneAccepted(s, moves, g);
        } else {
          JoinedGroupIsDone(s, moves, g, t);
        }
      }
    }
  }

  /** A worker leaves no essential task behind. */
  lemma EssentialTasksAreDone(s: State, moves: seq<Move>, w: nat, t: Task)
    requires Started(s)
    requires var r := Run(s, moves);
      w < |r.workers| && r.workers[w].pc.Exited? && t in r.accepted && t.home == OfWorker(w)
    ensures t in Run(s, moves).finished
  {
    if t !in Run(s, moves).finished {
      var queued, i := Located(s, moves, t);
    }
  }

  // ---------------------------------------------------------------------------
  // Queues are bounded, and workers work
  // ---------------------------------------------------------------------------

  ghost predicate Bounded(s: State) {
    forall g :: 0 <= g < |s.groups| ==> |s.groups[g].queue| <= s.groups[g].maxsize
  }

  lemma StepBounded(s: State, m: Move)
    requires Shaped(s) && Bounded(s)
    ensures Bounded(Step(s, m))
    ensures forall g :: 0 <= g < |s.groups| && g < |Step(s, m).groups| ==>
      Step(s, m).groups[g].maxsize == s.groups[g].maxsize
  {
  }

  /** In every run, no queue holds more tasks than its group allows. */
  lemma {:induction false} QueuesAreBounded(s: State, moves: seq<Move>, g: nat)
    requires Started(s) && g < |s.groups|
    ensures var r := Run(s, moves); Bounded(r) && r.groups[g].maxsize == s.groups[g].maxsize
    decreases |moves|
  {
    if moves != [] {
      hide Step;
      QueuesAreBounded(s, moves[..|moves| - 1], g);
      StepBounded(Run(s, moves[..|moves| - 1]), moves[|moves| - 1]);
    }
  }

  /** The next step of worker `w`, which finds every other queue locked when it steals. */
  function WorkMove(worker: Worker, w: nat): Move {
    match worker.pc
    case Looking => Look(w, 0)
    case Stealing(_, _) => Probe(w, false)
    case Sleeping => Wake(w)
    case Running(_) => Finish(w)
    case Exited => Wake(w)
  }

  /** The tasks that worker `w` has before it: in its hand, its own, and those of its group. */
  ghost function Before(s: State, w: nat): seq<Task>
    requires w < |s.workers| && s.workers[w].group < |s.groups|
  {
    var worker := s.workers[w];
    (if worker.pc.Running? then [worker.pc.task] else []) + (worker.essential + s.groups[worker.group].queue)
  }

  /** Steps to the next look at the queues. */
  function Distance(worker: Worker, groups: nat): nat {
    match worker.pc
    case Stealing(_, probed) => if |probed| <= groups then 2 + groups - |probed| else 2
    case Sleeping => 1
    case _ => 0
  }

  /** A step with tasks before it finishes one, takes one, or brings the worker to where it
      takes one. */
  lemma WorkStep(s: State, w: nat)
    requires Inv(s) && w < |s.workers| && Before(s, w) != []
    ensures var s' := Step(s, WorkMove(s.workers[w], w)); var worker := s.workers[w]; var worker' := s'.workers[w];
      && worker'.group == worker.group
      && (if worker.pc.Running? then
            Before(s', w) == Before(s, w)[1..] && s'.finished == s.finished + [Before(s, w)[0]]
          else
            && Before(s', w) == Before(s, w) && s'.finished == s.finished
            && (worker'.pc.Running? || Distance(worker', |s.groups|) < Distance(worker, |s.groups|)))
  {
    assert WorkerOk(s, w);
  }

  predicate OwnMove(m: Move, w: nat) {
    (m.Look? || m.Probe? || m.Wake? || m.Finish?) && m.w == w
  }

  ghost predicate AllFinished(tasks: seq<Task>, finished: seq<Task>) {
    forall t :: t in tasks ==> t in finished
  }

  /** From any reachable state, a worker that is given steps finishes every task it has before
      it: the one in its hand, its essential ones, and all those in the queue of its group. */
  lemma {:induction false} WorkerFinishesAll(s: State, w: nat) returns (moves: seq<Move>)
    requires Inv(s) && w < |s.workers|
    ensures forall i :: 0 <= i < |moves| ==> OwnMove(moves[i], w)
    ensures AllFinished(Before(s, w), Run(s, moves).finished) && s.finished <= Run(s, moves).finished
    decreases |Before(s, w)|, if s.workers[w].pc.Running? then 0 else 1, Distance(s.workers[w], |s.groups|)
  {
    if Before(s, w) == [] {
      moves := [];
    } else {
      hide Inv, Step, Before, Distance;
      var m := WorkMove(s.workers[w], w);
      WorkStep(s, w);
      StepInv(s, m);
      var rest := WorkerFinishesAll(Step(s, m), w);
      moves := [m] + rest;
      RunFirst(s, m, rest);
      forall t | t in Before(s, w)
        ensures t in Run(s, moves).finished
      {
        if s.workers[w].pc.Running? && t !in Before(s, w)[1..] {
          assert t == Before(s, w)[0] && t == Step(s, m).finished[|s.finished|];
          assert t == Run(s, moves).finished[|s.finished|];
        }
      }
    }
  }

  lemma {:induction false} RunFirst(s: State, m: Move, rest: seq<Move>)
    requires Shaped(s)
    ensures Shaped(Step(s, m)) && Run(s, [m] + rest) == Run(Step(s, m), rest)
    decreases |rest|
  {
    hide Step;
    StepShaped(s, m);
    var all := [m] + rest;
    if rest == [] {
      assert all[..0] == [];
    } else {
      assert all[..|all| - 1] == [m] + rest[..|rest| - 1];
      RunFirst(s, m, rest[..|rest| - 1]);
    }
  }

  lemma AddAccepts(s: State, g: nat)
    requires Shaped(s) && g < |s.groups| && !s.groups[g].stop && |s.groups[g].queue| < s.groups[g].maxsize
    ensures var s' := Step(s, AddTask(g)); var t := Task(s.next, OfGroup(g));
      s'.accepted == s.accepted + [t] && s'.groups[g].queue == s.groups[g].queue + [t] && s'.workers == s.workers
  {
    assert Step(s, AddTask(g)) == StepAddTask(s, g);
  }

  /** From any reachable state, a task that is added to a group with room, before the group is
      stopped, is accepted, and any worker of the group finishes it when it is given steps. */
  lemma AddedTaskIsFinished(s: State, w: nat, g: nat) returns (moves: seq<Move>)
    requires Inv(s) && w < |s.workers| && g == s.workers[w].group
    requires !s.groups[g].stop && |s.groups[g].queue| < s.groups[g].maxsize
    ensures forall i :: 0 <= i < |moves| ==> OwnMove(moves[i], w)
    ensures var t := Task(s.next, OfGroup(g)); var s' := Step(s, AddTask(g));
      s'.accepted == s.accepted + [t] && t in Run(s', moves).finished
  {
    hide Step;
    var s' := Step(s, AddTask(g));
    AddAccepts(s, g);
    StepInv(s, AddTask(g));
    moves := WorkerFinishesAll(s', w);
    assert s'.groups[g].queue[|s.groups[g].queue|] in Before(s', w);
  }

  /** A task that is run may add an essential one: its worker finishes that too, stopped or
      not, however full the queue of its group is. */
  lemma AddedEssentialIsFinished(s: State, w: nat) returns (moves: seq<Move>)
    requires Inv(s) && w < |s.workers| && s.workers[w].pc.Running?
    ensures forall i :: 0 <= i < |moves| ==> OwnMove(moves[i], w)
    ensures var t := Task(s.next, OfWorker(w)); var s' := Step(s, AddEssential(w));
      s'.accepted == s.accepted + [t] && t in Run(s', moves).finished
  {
    var s' := Step(s, AddEssential(w));
    assert s' == StepAddEssential(s, w);
    assert s'.workers[w].essential[|s.workers[w].essential|] in Before(s', w);
    hide Step;
    StepInv(s, AddEssential(w));
    moves := WorkerFinishesAll(s', w);
  }

  // ---------------------------------------------------------------------------
  // Stealing
  // ---------------------------------------------------------------------------

  /** The loop of `try_steal_one` visits every group exactly once, whatever its start. */
  lemma ProbesAreAPermutation(offset: nat, n: nat, g: nat)
    requires g < n
    ensures exists i :: 0 <= i < n && ProbeIndex(offset, i, n) == g
    ensures forall i, j :: 0 <= i < j < n ==> ProbeIndex(offset, i, n) != ProbeIndex(offset, j, n)
  {
    var i := (g - offset) % n;
    Reaches(offset, n, g);
    assert 0 <= i < n && ProbeIndex(offset, i, n) == g;
    forall i, j | 0 <= i < j < n
      ensures ProbeIndex(offset, i, n) != ProbeIndex(offset, j, n)
    {
      if ProbeIndex(offset, i, n) == ProbeIndex(offset, j, n) {
        SameRemainder(offset + i, offset + j, n);
      }
    }
  }

  lemma Reaches(offset: nat, n: nat, g: nat)
    requires g < n
    ensures 0 <= (g - offset) % n < n && (offset + (g - offset) % n) % n == g
  {
    ShiftedRemainder(g - offset, n, offset);
    DivModUnique(g, n, 0, g);
  }

  /** In every run: a worker that gives up stealing has tried every other group exactly once. */
  lemma FailedStealProbedEveryGroup(s: State, moves: seq<Move>, w: nat, g: nat)
    requires Started(s)
    requires var r := Run(s, moves);
      && w < |r.workers| && g < |r.groups|
      && r.workers[w].pc.Stealing? && |r.workers[w].pc.probed| == |r.groups|
    ensures var probed := Run(s, moves).workers[w].pc.probed;
      && (exists i :: 0 <= i < |probed| && probed[i] == g)
      && (forall i, j :: 0 <= i < j < |probed| ==> probed[i] != probed[j])
  {
    RunInv(s, moves);
    var r := Run(s, moves);
    assert WorkerOk(r, w);
    ProbesAreAPermutation(r.workers[w].pc.offset, |r.groups|, g);
  }
}
