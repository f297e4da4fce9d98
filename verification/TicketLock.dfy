/** The ticket spin lock.  Both counters are unsigned and wrap at `wrap` (2^32 for the
    32-bit counters of the class); threads are interleaved step by step. */
module TicketLock {
  import opened Arith

  const UNSIGNED_WRAP: nat := 0x1_0000_0000

  datatype Pc = Idle | Waiting(ticket: nat) | Critical(ticket: nat)

  datatype State = State(
    nextTicket: nat,
    serving: nat,
    pcs: seq<Pc>,
    order: seq<nat>,     // history: threads in the order in which they drew a ticket
    entered: seq<nat>,   // history: threads in the order in which they got the lock
    released: nat)       // history: number of `unlock` calls

  function Init(threads: nat): State {
    State(0, 0, seq(threads, _ => Idle), [], [], 0)
  }

  /** The next atomic step of thread `t`: draw a ticket, look at `_serving`, or unlock. */
  function Step(wrap: nat, s: State, t: nat): State
    requires 0 < wrap
  {
    if t >= |s.pcs| then s
    else match s.pcs[t]
      case Idle =>
        s.(nextTicket := (s.nextTicket + 1) % wrap,
           pcs := s.pcs[t := Waiting(s.nextTicket)],
           order := s.order + [t])
      case Waiting(ticket) =>
        if s.serving != ticket then s
        else s.(pcs := s.pcs[t := Critical(ticket)], entered := s.entered + [t])
      case Critical(ticket) =>
        s.(serving := (s.serving + 1) % wrap,
           pcs := s.pcs[t := Idle],
           released := s.released + 1)
  }

  /** The state after a schedule, the sequence of threads that take a step. */
  function Run(wrap: nat, threads: nat, schedule: seq<nat>): State
    requires 0 < wrap
  {
    if schedule == [] then Init(threads)
    else Step(wrap, Run(wrap, threads, schedule[..|schedule| - 1]), schedule[|schedule| - 1])
  }

  ghost predicate MutuallyExclusive(s: State) {
    forall t, u :: 0 <= t < |s.pcs| && 0 <= u < |s.pcs| && s.pcs[t].Critical? && s.pcs[u].Critical? ==> t == u
  }

  /** The threads that hold a ticket, the holder of the lock first. */
  ghost function Queue(s: State): seq<nat>
    requires s.released <= |s.order|
  {
    s.order[s.released..]
  }

  ghost predicate InPlace(wrap: nat, s: State, k: nat)
    requires 0 < wrap && s.released <= |s.order| && k < |Queue(s)| && Queue(s)[k] < |s.pcs|
  {
    var pc := s.pcs[Queue(s)[k]];
    && !pc.Idle? && pc.ticket == (s.released + k) % wrap
    && (pc.Critical? <==> s.released + k < |s.entered|)
  }

  /** Tickets are positions in `order`, kept modulo `wrap`; the threads with a ticket are
      exactly those behind position `released`, each once. */
  ghost predicate Inv(wrap: nat, threads: nat, s: State)
    requires 0 < wrap
  {
    && |s.pcs| == threads
    && s.released <= |s.entered| <= |s.order|
    && |s.entered| <= s.released + 1
    && s.entered == s.order[..|s.entered|]
    && s.nextTicket == |s.order| % wrap
    && s.serving == s.released % wrap
    && (forall i :: 0 <= i < |s.order| ==> s.order[i] < threads)
    && Distinct(Queue(s))
    && (forall k :: 0 <= k < |Queue(s)| ==> InPlace(wrap, s, k))
    && (forall t :: 0 <= t < threads && !s.pcs[t].Idle? ==> t in Queue(s))
  }

  /** The threads that hold the lock or wait for it. */
  function Busy(s: State): set<nat> {
    set t: nat | t < |s.pcs| && !s.pcs[t].Idle?
  }

  /** At no time of the run do more threads hold or wait than a counter has values. */
  ghost predicate Uncrowded(wrap: nat, threads: nat, schedule: seq<nat>)
    requires 0 < wrap
  {
    && |Busy(Run(wrap, threads, schedule))| <= wrap
    && (schedule == [] || Uncrowded(wrap, threads, schedule[..|schedule| - 1]))
  }

  lemma QueueIsBusy(wrap: nat, threads: nat, s: State)
    requires 0 < wrap && Inv(wrap, threads, s)
    ensures |Queue(s)| <= |Busy(s)|
  {
    DistinctSize(Queue(s));
    forall t | t in Queue(s)
      ensures t in Busy(s)
    {
      var k :| 0 <= k < |Queue(s)| && Queue(s)[k] == t;
      assert InPlace(wrap, s, k);
    }
    SubsetSize(Elements(Queue(s)), Busy(s));
  }

  /** A waiting thread that finds its ticket served is the first one in the queue. */
  lemma ServedIsFirst(wrap: nat, threads: nat, s: State, t: nat)
    requires 0 < wrap && Inv(wrap, threads, s) && |Queue(s)| <= wrap
    requires t < threads && !s.pcs[t].Idle? && s.pcs[t].ticket == s.serving
    ensures Queue(s) != [] && Queue(s)[0] == t
  {
    var k :| 0 <= k < |Queue(s)| && Queue(s)[k] == t;
    assert InPlace(wrap, s, k);
    SameRemainder(s.released, s.released + k, wrap);
  }

  lemma CriticalIsServed(wrap: nat, threads: nat, s: State, t: nat)
    requires 0 < wrap && Inv(wrap, threads, s) && t < threads && s.pcs[t].Critical?
    ensures s.released + 1 == |s.entered| && Queue(s) != [] && Queue(s)[0] == t
  {
    var k :| 0 <= k < |Queue(s)| && Queue(s)[k] == t;
    assert InPlace(wrap, s, k);
  }

  lemma DrawInv(wrap: nat, threads: nat, s: State, t: nat)
    requires 0 < wrap && Inv(wrap, threads, s) && t < threads && s.pcs[t].Idle?
    ensures Inv(wrap, threads, Step(wrap, s, t)) && Queue(Step(wrap, s, t)) == Queue(s) + [t]
  {
    var s' := Step(wrap, s, t);
    ShiftedRemainder(|s.order|, wrap, 1);
    assert Queue(s') == Queue(s) + [t];
    forall k | 0 <= k < |Queue(s')|
      ensures k < |Queue(s)| ==> Queue(s)[k] != t
      ensures InPlace(wrap, s', k)
    {
      assert k < |Queue(s)| ==> InPlace(wrap, s, k);
    }
  }

  lemma EnterInv(wrap: nat, threads: nat, s: State, t: nat)
    requires 0 < wrap && Inv(wrap, threads, s) && |Queue(s)| <= wrap
    requires t < threads && s.pcs[t].Waiting? && s.pcs[t].ticket == s.serving
    ensures Inv(wrap, threads, Step(wrap, s, t))
  {
    var s' := Step(wrap, s, t);
    ServedIsFirst(wrap, threads, s, t);
    assert InPlace(wrap, s, 0);
    assert s'.entered == s'.order[..|s'.entered|];
    forall k | 0 <= k < |Queue(s')|
      ensures InPlace(wrap, s', k)
    {
      assert InPlace(wrap, s, k);
    }
  }

  lemma DistinctTail(q: seq<nat>, t: nat, rest: seq<nat>)
    requires Distinct(q) && q == [t] + rest
    ensures Distinct(rest) && t !in rest && forall x :: x in q ==> x == t || x in rest
  {
    forall i, j | 0 <= i < j < |rest|
      ensures rest[i] != rest[j]
    {
      assert q[i + 1] != q[j + 1];
    }
    forall i | 0 <= i < |rest|
      ensures rest[i] != t
    {
      assert q[0] != q[i + 1];
    }
  }

  lemma ReleaseInv(wrap: nat, threads: nat, s: State, t: nat)
    requires 0 < wrap && Inv(wrap, threads, s) && t < threads && s.pcs[t].Critical?
    ensures Inv(wrap, threads, Step(wrap, s, t))
  {
    var s' := Step(wrap, s, t);
    CriticalIsServed(wrap, threads, s, t);
    ShiftedRemainder(s.released, wrap, 1);
    assert Queue(s) == [t] + Queue(s');
    DistinctTail(Queue(s), t, Queue(s'));
    hide Distinct;
    forall k | 0 <= k < |Queue(s')|
      ensures InPlace(wrap, s', k)
    {
      assert InPlace(wrap, s, k + 1) && Queue(s)[k + 1] == Queue(s')[k];
    }
  }

  lemma StepInv(wrap: nat, threads: nat, s: State, t: nat)
    requires 0 < wrap && Inv(wrap, threads, s) && |Queue(s)| <= wrap
    ensures Inv(wrap, threads, Step(wrap, s, t))
  {
    if t < threads {
      if s.pcs[t].Idle? { DrawInv(wrap, threads, s, t); }
      else if s.pcs[t].Critical? { ReleaseInv(wrap, threads, s, t); }
      else if s.pcs[t].ticket == s.serving { EnterInv(wrap, threads, s, t); }
    }
  }

  lemma {:induction false} RunInv(wrap: nat, threads: nat, schedule: seq<nat>)
    requires 0 < wrap && (schedule == [] || Uncrowded(wrap, threads, schedule[..|schedule| - 1]))
    ensures Inv(wrap, threads, Run(wrap, threads, schedule))
  {
    if schedule != [] {
      var front := schedule[..|schedule| - 1];
      RunInv(wrap, threads, front);
      QueueIsBusy(wrap, threads, Run(wrap, threads, front));
      StepInv(wrap, threads, Run(wrap, threads, front), schedule[|schedule| - 1]);
    }
  }

  /** Threads get the lock in the order in which they asked for it, wrap-around or not. */
  lemma FirstComeFirstServed(wrap: nat, threads: nat, schedule: seq<nat>)
    requires 0 < wrap && Uncrowded(wrap, threads, schedule)
    ensures Run(wrap, threads, schedule).entered <= Run(wrap, threads, schedule).order
  {
    RunInv(wrap, threads, schedule);
  }

  /** At most one thread holds the lock, however many threads there are, as long as no more
      hold or wait at once than a counter has values. */
  lemma ExclusiveUnlessCrowded(wrap: nat, threads: nat, schedule: seq<nat>)
    requires 0 < wrap && Uncrowded(wrap, threads, schedule)
    ensures MutuallyExclusive(Run(wrap, threads, schedule))
  {
    var s := Run(wrap, threads, schedule);
    RunInv(wrap, threads, schedule);
    forall t, u | 0 <= t < threads && 0 <= u < threads && s.pcs[t].Critical? && s.pcs[u].Critical?
      ensures t == u
    {
      CriticalIsServed(wrap, threads, s, t);
      CriticalIsServed(wrap, threads, s, u);
    }
  }

  lemma {:induction false} FewThreadsDoNotCrowd(wrap: nat, threads: nat, schedule: seq<nat>)
    requires 0 < wrap && threads <= wrap
    ensures Uncrowded(wrap, threads, schedule) && |Run(wrap, threads, schedule).pcs| == threads
  {
    if schedule != [] {
      FewThreadsDoNotCrowd(wrap, threads, schedule[..|schedule| - 1]);
    }
    SubsetSize(Busy(Run(wrap, threads, schedule)), Below(threads));
  }

  // ---------------------------------------------------------------------------
  // Everyone gets in
  // ---------------------------------------------------------------------------

  /** While nobody holds the lock, the first thread of the queue enters with its next step. */
  lemma FirstEnters(wrap: nat, threads: nat, s: State)
    requires 0 < wrap && Inv(wrap, threads, s) && |Queue(s)| <= wrap && Queue(s) != []
    ensures var t := Queue(s)[0];
      && t < threads
      && (s.pcs[t].Critical? || (s.pcs[t].Waiting? && Step(wrap, s, t).pcs[t].Critical?))
      && (s.pcs[t].Waiting? ==> Inv(wrap, threads, Step(wrap, s, t)) && Queue(Step(wrap, s, t)) == Queue(s))
  {
    assert InPlace(wrap, s, 0);
    StepInv(wrap, threads, s, Queue(s)[0]);
  }

  /** `unlock` lets the next ticket in: the next thread is first, and enters with its next step. */
  lemma ReleaseAdmitsNext(wrap: nat, threads: nat, s: State, t: nat)
    requires 0 < wrap && Inv(wrap, threads, s) && |Queue(s)| <= wrap
    requires t < threads && s.pcs[t].Critical?
    ensures var s' := Step(wrap, s, t);
      && Inv(wrap, threads, s') && s'.pcs[t].Idle? && Queue(s) == [t] + Queue(s')
      && (Queue(s') != [] ==> Queue(s')[0] < threads && Step(wrap, s', Queue(s')[0]).pcs[Queue(s')[0]].Critical?)
  {
    var s' := Step(wrap, s, t);
    CriticalIsServed(wrap, threads, s, t);
    ReleaseInv(wrap, threads, s, t);
    assert Queue(s) == [t] + Queue(s');
    if Queue(s') != [] {
      assert InPlace(wrap, s', 0);
    }
  }

  function RunFrom(wrap: nat, s: State, schedule: seq<nat>): State
    requires 0 < wrap
    decreases |schedule|
  {
    if schedule == [] then s else RunFrom(wrap, Step(wrap, s, schedule[0]), schedule[1..])
  }

  lemma RunFirst(wrap: nat, s: State, t: nat, rest: seq<nat>)
    requires 0 < wrap
    ensures RunFrom(wrap, s, [t] + rest) == RunFrom(wrap, Step(wrap, s, t), rest)
  {
    assert ([t] + rest)[1..] == rest;
  }

  predicate HasLock(s: State, t: nat) {
    t < |s.pcs| && s.pcs[t].Critical?
  }

  /** The holder unlocks, and those behind it follow one by one. */
  lemma NextInLine(wrap: nat, threads: nat, s: State, k: nat) returns (schedule: seq<nat>)
    requires 0 < wrap && Inv(wrap, threads, s) && |Queue(s)| <= wrap && 0 < k < |Queue(s)|
    requires Queue(s)[0] < threads && s.pcs[Queue(s)[0]].Critical?
    ensures |schedule| <= 2 * k && HasLock(RunFrom(wrap, s, schedule), Queue(s)[k])
    decreases k, 0
  {
    hide Step, InPlace;
    var first := Queue(s)[0];
    ReleaseAdmitsNext(wrap, threads, s, first);
    var s' := Step(wrap, s, first);
    assert Queue(s)[k] == Queue(s')[k - 1];
    var rest := EveryoneGetsIn(wrap, threads, s', k - 1);
    schedule := [first] + rest;
    RunFirst(wrap, s, first, rest);
  }

  /** No thread is kept out: with `k` threads before it, a thread gets the lock once each of
      these has entered and left, in at most `2 * k + 1` steps. */
  lemma {:induction false} EveryoneGetsIn(wrap: nat, threads: nat, s: State, k: nat) returns (schedule: seq<nat>)
    requires 0 < wrap && Inv(wrap, threads, s) && |Queue(s)| <= wrap && k < |Queue(s)|
    ensures |schedule| <= 2 * k + 1 && HasLock(RunFrom(wrap, s, schedule), Queue(s)[k])
    decreases k, 1
  {
    hide Step, InPlace;
    var first := Queue(s)[0];
    FirstEnters(wrap, threads, s);
    if s.pcs[first].Critical? {
      schedule := [];
      if k > 0 {
        schedule := NextInLine(wrap, threads, s, k);
      }
    } else {
      var s' := Step(wrap, s, first);
      var rest := [];
      if k > 0 {
        rest := NextInLine(wrap, threads, s', k);
      }
      schedule := [first] + rest;
      RunFirst(wrap, s, first, rest);
    }
  }

  /** So does a thread that calls `lock`: it draws a ticket and gets the lock once those who hold or
      wait at that moment have left. */
  lemma LockIsTaken(wrap: nat, threads: nat, s: State, t: nat) returns (schedule: seq<nat>)
    requires 0 < wrap && Inv(wrap, threads, s) && |Queue(s)| < wrap && t < threads && s.pcs[t].Idle?
    ensures |schedule| <= 2 * |Queue(s)| + 2 && HasLock(RunFrom(wrap, s, schedule), t)
    ensures schedule != [] && schedule[0] == t
  {
    hide Step, InPlace;
    DrawInv(wrap, threads, s, t);
    var s' := Step(wrap, s, t);
    var rest := EveryoneGetsIn(wrap, threads, s', |Queue(s)|);
    schedule := [t] + rest;
    RunFirst(wrap, s, t, rest);
  }

  // ---------------------------------------------------------------------------
  // With more threads than counter values the lock is broken
  // ---------------------------------------------------------------------------

  /** Thread 0 takes the lock, then threads 1 to `k` draw a ticket. */
  function Crowd(k: nat): seq<nat> {
    if k == 0 then [0, 0] else Crowd(k - 1) + [k]
  }

  ghost predicate Crowded(wrap: nat, threads: nat, k: nat, s: State)
    requires 0 < wrap && k < threads
  {
    && |s.pcs| == threads && s.serving == 0 && s.nextTicket == (k + 1) % wrap
    && s.pcs[0] == Critical(0)
    && (forall t :: 1 <= t <= k ==> s.pcs[t] == Waiting(t % wrap))
    && (forall t :: k < t < threads ==> s.pcs[t] == Idle)
  }

  lemma CrowdStarts(wrap: nat, threads: nat)
    requires 0 < wrap && 0 < threads
    ensures Crowded(wrap, threads, 0, Run(wrap, threads, [0, 0]))
  {
    assert [0, 0][..1] == [0] && [0][..0] == [];
    assert Run(wrap, threads, [0]) == Step(wrap, Init(threads), 0);
    assert Run(wrap, threads, [0, 0]) == Step(wrap, Run(wrap, threads, [0]), 0);
  }

  lemma CrowdGrows(wrap: nat, threads: nat, k: nat, s: State)
    requires 0 < wrap && 0 < k < threads && Crowded(wrap, threads, k - 1, s)
    ensures Crowded(wrap, threads, k, Step(wrap, s, k))
  {
    ShiftedRemainder(k, wrap, 1);
  }

  lemma {:induction false} CrowdWaits(wrap: nat, threads: nat, k: nat)
    requires 0 < wrap && k < threads
    ensures Crowded(wrap, threads, k, Run(wrap, threads, Crowd(k)))
  {
    if k == 0 {
      CrowdStarts(wrap, threads);
    } else {
      CrowdWaits(wrap, threads, k - 1);
      assert Crowd(k)[..|Crowd(k)| - 1] == Crowd(k - 1);
      CrowdGrows(wrap, threads, k, Run(wrap, threads, Crowd(k - 1)));
    }
  }

  ghost predicate SafeAfter(wrap: nat, threads: nat, schedule: seq<nat>)
    requires 0 < wrap
  {
    MutuallyExclusive(Run(wrap, threads, schedule))
  }

  /** Mutual exclusion holds in every run exactly when there are no more threads than
      values a counter can take. */
  lemma ExclusiveIffThreadsFit(wrap: nat, threads: nat)
    requires 0 < wrap
    ensures (forall schedule :: SafeAfter(wrap, threads, schedule)) <==> threads <= wrap
  {
    if threads <= wrap {
      forall schedule
        ensures SafeAfter(wrap, threads, schedule)
      {
        FewThreadsDoNotCrowd(wrap, threads, schedule);
        ExclusiveUnlessCrowded(wrap, threads, schedule);
      }
    } else {
      var schedule := Crowd(wrap) + [wrap];
      CrowdWaits(wrap, threads, wrap);
      assert wrap % wrap == 0;
      assert schedule[..|schedule| - 1] == Crowd(wrap);
      var s := Run(wrap, threads, schedule);
      assert s.pcs[0].Critical? && s.pcs[wrap].Critical?;
      assert !SafeAfter(wrap, threads, schedule);
    }
  }

  /** The lock as compiled: with its 32-bit counters it is safe in every run in which at most
      2^32 threads hold or wait at once. */
  lemma SafeWithUnsignedCounters(threads: nat, schedule: seq<nat>)
    requires Uncrowded(UNSIGNED_WRAP, threads, schedule)
    ensures var s := Run(UNSIGNED_WRAP, threads, schedule); MutuallyExclusive(s) && s.entered <= s.order
  {
    ExclusiveUnlessCrowded(UNSIGNED_WRAP, threads, schedule);
    FirstComeFirstServed(UNSIGNED_WRAP, threads, schedule);
  }
}
