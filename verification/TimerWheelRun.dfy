/** Whole runs on the linked lists: additions and ticks from a new wheel on. */
module TimerWheelRun {
  import opened TimerList
  import opened TimerWheelImpl
  import TimeWheel

  /** The arguments of a call of `add_timer`, and the id that the timer gets. */
  datatype Addition = Addition(id: nat, delay: bool, timeout: nat, repeats: int)

  /** The calls of `add_timer` before a tick, and what the handlers return in it. */
  datatype Turn = Turn(additions: seq<Addition>, keep: nat -> bool)

  /** The timer of an addition at some tick. */
  function Added(a: Addition, ticktime: nat, tick: nat): TimeWheel.Timer
    requires 0 < ticktime
  {
    var ticks := a.timeout / ticktime;
    TimeWheel.Timer(a.id, ticks, if a.delay then tick + ticks else tick, a.repeats)
  }

  function AllAdded(additions: seq<Addition>, ticktime: nat, tick: nat): seq<TimeWheel.Timer>
    requires 0 < ticktime
  {
    seq(|additions|, i requires 0 <= i < |additions| => Added(additions[i], ticktime, tick))
  }

  function Inputs(turns: seq<Turn>, ticktime: nat): seq<TimeWheel.Input>
    requires 0 < ticktime
  {
    seq(|turns|, i requires 0 <= i < |turns| =>
      TimeWheel.Input(AllAdded(turns[i].additions, ticktime, i), turns[i].keep))
  }

  /** Addition `j` before tick `n`: no other addition has its id, its handler keeps returning
      true, and its period is at least one tick or it fires only once. */
  ghost predicate Regular(turns: seq<Turn>, ticktime: nat, n: nat, j: nat)
    requires 0 < ticktime
  {
    && n < |turns| && j < |turns[n].additions|
    && var a := turns[n].additions[j];
    && a.timeout / ticktime < TimeWheel.HORIZON
    && (ticktime <= a.timeout || a.repeats == 0 || a.repeats == 1)
    && (forall i :: n <= i < |turns| ==> turns[i].keep(a.id))
    && (forall i, k :: 0 <= i < |turns| && 0 <= k < |turns[i].additions| && turns[i].additions[k].id == a.id ==>
          i == n && k == j)
  }

  lemma RegularIsAddedOnce(turns: seq<Turn>, ticktime: nat, n: nat, j: nat)
    requires 0 < ticktime && Regular(turns, ticktime, n, j)
    ensures var inputs := Inputs(turns, ticktime);
      TimeWheel.AddedOnce(inputs, n, j) && inputs[n].adds[j] == Added(turns[n].additions[j], ticktime, n)
  {
    var inputs := Inputs(turns, ticktime);
    assert inputs[n].adds[j].id == turns[n].additions[j].id;
    forall i, k | 0 <= i < |inputs| && 0 <= k < |inputs[i].adds| && inputs[i].adds[k].id == inputs[n].adds[j].id
      ensures i == n && k == j
    {
      assert turns[i].additions[k].id == inputs[i].adds[k].id;
    }
  }

  lemma PeriodInTicks(timeout: nat, ticktime: nat)
    requires 0 < ticktime <= timeout
    ensures 1 <= timeout / ticktime
  {
  }

  /** On values, a regular timer fires exactly on its schedule. */
  lemma RegularKeepsSchedule(turns: seq<Turn>, ticktime: nat, n: nat, j: nat, m: nat)
    requires 0 < ticktime && Regular(turns, ticktime, n, j) && m < |turns| < TimeWheel.HORIZON
    ensures var a := turns[n].additions[j];
      TimeWheel.FiresOnce(TimeWheel.LastFired(TimeWheel.Init(), Inputs(turns, ticktime)[..m + 1]), a.id,
        TimeWheel.OnSchedule(Added(a, ticktime, n), m))
  {
    hide TimeWheel.FiresOnce, TimeWheel.LastFired, TimeWheel.OnSchedule, TimeWheel.AddedOnce;
    var a := turns[n].additions[j];
    RegularIsAddedOnce(turns, ticktime, n, j);
    if ticktime <= a.timeout {
      PeriodInTicks(a.timeout, ticktime);
    }
    TimeWheel.NewWheelKeepsSchedule(Inputs(turns, ticktime), n, j, m);
  }

  lemma AddedIs(w: TimeWheel.Wheel, a: Addition, ticktime: nat)
    requires 0 < ticktime
    ensures TimeWheel.AddTimer(w, ticktime, a.id, a.delay, a.timeout, a.repeats)
         == w.(back := w.back + [Added(a, ticktime, w.tick)])
  {
  }

  lemma AllAddedNext(w: TimeWheel.Wheel, additions: seq<Addition>, ticktime: nat, tick: nat, i: nat)
    requires 0 < ticktime && i < |additions|
    ensures var all := AllAdded(additions, ticktime, tick);
      w.back + all[..i] + [Added(additions[i], ticktime, tick)] == w.back + all[..i + 1]
  {
  }

  /** `add_timer`, with a new node from the pool. */
  method AddOne(wheel: Wheel, a: Addition)
    requires wheel.Idle() && !wheel.stopped
    modifies wheel`repr, wheel.lists`head, wheel.lists`count, wheel.lists`nodes,
             wheel.repr`prev, wheel.repr`next, wheel.repr`home, wheel.repr`timer
    ensures wheel.Idle() && fresh(wheel.repr - old(wheel.repr))
    ensures var w := old(wheel.Value());
      wheel.Value() == w.(back := w.back + [Added(a, wheel.ticktime, w.tick)])
  {
    hide Wheel.ListOk, Wheel.Core, Wheel.SlotTimers, Wheel.Content, TimeWheel.AddTimer;
    ghost var w := wheel.Value();
    var t := new TimerNode(TimeWheel.Timer(a.id, 0, 0, 0));
    AddedIs(w, a, wheel.ticktime);
    var id := wheel.AddTimer(a.delay, a.timeout, a.repeats, true, a.id, t);
  }

  /** All additions before a tick. */
  method AddAll(wheel: Wheel, additions: seq<Addition>, ghost w: TimeWheel.Wheel)
    requires wheel.Idle() && !wheel.stopped && wheel.Value() == w
    modifies wheel`repr, wheel.lists`head, wheel.lists`count, wheel.lists`nodes,
             wheel.repr`prev, wheel.repr`next, wheel.repr`home, wheel.repr`timer
    ensures wheel.Idle() && fresh(wheel.repr - old(wheel.repr))
    ensures wheel.Value() == w.(back := w.back + AllAdded(additions, wheel.ticktime, w.tick))
  {
    hide Wheel.ListOk, Wheel.Core, Wheel.SlotTimers, Wheel.Content, Wheel.Value;
    ghost var all := AllAdded(additions, wheel.ticktime, w.tick);
    var i := 0;
    assert w.back + all[..0] == w.back;
    while i < |additions|
      invariant i <= |additions| && wheel.Idle() && fresh(wheel.repr - old(wheel.repr))
      invariant wheel.Value() == w.(back := w.back + all[..i])
    {
      AllAddedNext(w, additions, wheel.ticktime, w.tick, i);
      AddOne(wheel, additions[i]);
      i := i + 1;
    }
    assert all[..i] == all;
  }

  /** The additions of a turn, and its tick. */
  method TakeTurn(wheel: Wheel, turn: Turn, ghost w: TimeWheel.Wheel) returns (fired: seq<TimeWheel.Timer>)
    requires wheel.Idle() && !wheel.stopped && wheel.Value() == w
    modifies wheel, wheel.lists, wheel.coreLists, wheel.repr
    ensures wheel.Idle() && !wheel.stopped && fresh(wheel.repr - old(wheel.repr))
    ensures var input := TimeWheel.Input(AllAdded(turn.additions, wheel.ticktime, w.tick), turn.keep);
      wheel.Value() == TimeWheel.NextWheel(w, input) && fired == TimeWheel.Fired(TimeWheel.WithAdds(w, input))
  {
    hide Wheel.ListOk, Wheel.Core, Wheel.SlotTimers, Wheel.Content, Wheel.Value, TimeWheel.Tick, TimeWheel.Fired;
    AddAll(wheel, turn.additions, w);
    fired := wheel.Tick(turn.keep);
  }

  /** In every tick, every regular timer is called once if that is on its schedule, and is not
      called otherwise. */
  ghost predicate KeepsSchedules(turns: seq<Turn>, ticktime: nat, fired: seq<seq<TimeWheel.Timer>>)
    requires 0 < ticktime
  {
    forall n: nat, j: nat, m: nat :: Regular(turns, ticktime, n, j) && m < |fired| ==>
      TimeWheel.FiresOnce(fired[m], turns[n].additions[j].id,
        TimeWheel.OnSchedule(Added(turns[n].additions[j], ticktime, n), m))
  }

  lemma FiredKeepsSchedules(turns: seq<Turn>, ticktime: nat, fired: seq<seq<TimeWheel.Timer>>)
    requires 0 < ticktime && |fired| == |turns| < TimeWheel.HORIZON
    requires forall m :: 0 <= m < |turns| ==>
      fired[m] == TimeWheel.LastFired(TimeWheel.Init(), Inputs(turns, ticktime)[..m + 1])
    ensures KeepsSchedules(turns, ticktime, fired)
  {
    forall n: nat, j: nat, m: nat | Regular(turns, ticktime, n, j) && m < |fired|
      ensures TimeWheel.FiresOnce(fired[m], turns[n].additions[j].id,
        TimeWheel.OnSchedule(Added(turns[n].additions[j], ticktime, n), m))
    {
      RegularKeepsSchedule(turns, ticktime, n, j, m);
    }
  }

  /** A run from a new wheel on, among any other timers; `fired` holds the timers whose handlers
      were called, tick by tick. */
  method RunTurns(ticktime: nat, turns: seq<Turn>) returns (fired: seq<seq<TimeWheel.Timer>>)
    requires 0 < ticktime
    ensures |fired| == |turns|
    ensures forall m :: 0 <= m < |turns| ==>
      fired[m] == TimeWheel.LastFired(TimeWheel.Init(), Inputs(turns, ticktime)[..m + 1])
    ensures |turns| < TimeWheel.HORIZON ==> KeepsSchedules(turns, ticktime, fired)
  {
    hide KeepsSchedules;
    hide Wheel.ListOk, Wheel.Core, Wheel.SlotTimers, Wheel.Content, Wheel.Value, TimeWheel.Tick, TimeWheel.Fired;
    ghost var inputs := Inputs(turns, ticktime);
    var wheel := new Wheel(ticktime);
    fired := [];
    while |fired| < |turns|
      invariant |fired| <= |turns| && wheel.Idle() && !wheel.stopped && fresh(wheel)
      invariant wheel.ticktime == ticktime
      invariant fresh(wheel.lists) && fresh(wheel.coreLists) && fresh(wheel.repr)
      invariant wheel.Value() == TimeWheel.Exec(TimeWheel.Init(), inputs[..|fired|])
      invariant forall m :: 0 <= m < |fired| ==>
        fired[m] == TimeWheel.LastFired(TimeWheel.Init(), inputs[..m + 1])
    {
      var n := |fired|;
      var called := TakeTurn(wheel, turns[n], wheel.Value());
      fired := fired + [called];
      assert inputs[..n + 1][..n] == inputs[..n];
    }
    if |turns| < TimeWheel.HORIZON {
      FiredKeepsSchedules(turns, ticktime, fired);
    }
  }
}
