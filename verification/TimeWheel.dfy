/** The timing wheel on values: 4096 near slots, one overflow list, and the list of
    timers waiting to be loaded.  `Tick` does what one call of `timewheel::tick` does;
    `TimerWheelImpl` proves that the linked lists of the class compute the same. */
module TimeWheel {
  import opened Arith
  import opened Machine
  import opened Options

  const NEAR_SLOTS: nat := 4096
  /** Ticks and timeouts below this bound keep `_nexttime` inside a 64-bit signed integer. */
  const HORIZON: nat := 0x4000_0000_0000_0000

  datatype Timer = Timer(id: nat, timeout: nat, nexttime: nat, repeats: int) {
    /** A timer that can fire again does so at least one tick later. */
    predicate Sound() {
      1 <= timeout || repeats == 0 || repeats == 1
    }
    predicate InRange() {
      timeout < HORIZON && nexttime < 2 * HORIZON
    }
    /** `_nexttime - _tickcount`, an unsigned 64-bit difference. */
    function Distance(tick: nat): nat {
      (nexttime - tick) % UINT64_WRAP
    }
    function Slot(tick: nat): nat {
      if Distance(tick) > 0 then nexttime % NEAR_SLOTS else tick % NEAR_SLOTS
    }
    predicate IsNear(tick: nat) {
      Distance(tick) < NEAR_SLOTS
    }
  }

  datatype Wheel = Wheel(near: seq<seq<Timer>>, hanging: seq<Timer>, back: seq<Timer>, tick: nat) {
    predicate Shaped() {
      |near| == NEAR_SLOTS
    }
  }

  function Init(): Wheel {
    Wheel(seq(NEAR_SLOTS, _ => []), [], [], 0)
  }

  /** `add_timer`, atomically at the current tick. */
  function AddTimer(w: Wheel, ticktime: nat, id: nat, delay: bool, timeout: nat, repeats: int): Wheel
    requires 0 < ticktime
  {
    var ticks := timeout / ticktime;
    w.(back := w.back + [Timer(id, ticks, if delay then w.tick + ticks else w.tick, repeats)])
  }

  lemma AddTimerIs(w: Wheel, ticktime: nat, delay: bool, timeout: nat, timer: Timer)
    requires 0 < ticktime && timer.timeout == timeout / ticktime
    requires timer.nexttime == if delay then w.tick + timer.timeout else w.tick
    ensures AddTimer(w, ticktime, timer.id, delay, timeout, timer.repeats) == w.(back := w.back + [timer])
  {
  }

  /** `readd_timer`. */
  function Place(w: Wheel, t: Timer): (r: Wheel)
    requires w.Shaped()
    ensures r.Shaped() && r.tick == w.tick && r.back == w.back
  {
    if t.IsNear(w.tick) then
      w.(near := w.near[t.Slot(w.tick) := w.near[t.Slot(w.tick)] + [t]])
    else
      w.(hanging := w.hanging + [t])
  }

  /** `load_timers`, over the timers of the front change list. */
  function Load(w: Wheel, timers: seq<Timer>): (r: Wheel)
    requires w.Shaped()
    ensures r.Shaped() && r.tick == w.tick && r.back == w.back
  {
    if timers == [] then w else Place(Load(w, timers[..|timers| - 1]), timers[|timers| - 1])
  }

  lemma LoadOneMore(w: Wheel, timers: seq<Timer>, i: nat)
    requires w.Shaped() && i < |timers|
    ensures Load(w, timers[..i + 1]) == Place(Load(w, timers[..i]), timers[i])
  {
    assert timers[..i + 1][..i] == timers[..i];
  }

  /** A timer after it has fired and its handler has returned true. */
  function Rearm(t: Timer): Option<Timer> {
    var left := if t.repeats > 0 then t.repeats - 1 else t.repeats;
    if left == 0 then None else Some(t.(repeats := left, nexttime := t.nexttime + t.timeout))
  }

  /** The timers among `fired` that go back into the wheel; `keep` holds the handlers' results. */
  function Rearmed(fired: seq<Timer>, keep: nat -> bool): seq<Timer> {
    if fired == [] then []
    else
      var t := fired[|fired| - 1];
      Rearmed(fired[..|fired| - 1], keep)
      + (if keep(t.id) && Rearm(t).Some? then [Rearm(t).value] else [])
  }

  function DueSlot(w: Wheel): seq<Timer>
    requires w.Shaped()
  {
    w.near[w.tick % NEAR_SLOTS]
  }

  /** `handle_timer`. */
  function Handle(w: Wheel, keep: nat -> bool): (r: Wheel)
    requires w.Shaped()
    ensures r.Shaped() && r.tick == w.tick && r.back == w.back
  {
    Load(w.(near := w.near[w.tick % NEAR_SLOTS := []]), Rearmed(DueSlot(w), keep))
  }

  lemma HandleIs(w: Wheel, due: seq<Timer>, keep: nat -> bool)
    requires w.Shaped() && due == DueSlot(w)
    ensures Handle(w, keep) == Load(w.(near := w.near[w.tick % NEAR_SLOTS := []]), Rearmed(due, keep))
  {
  }

  /** `regroup_timers`: timers of the overflow list that have come near move to their slots. */
  function Regroup(w: Wheel, timers: seq<Timer>): (r: Wheel)
    requires w.Shaped()
    ensures r.Shaped() && r.tick == w.tick && r.back == w.back
  {
    if timers == [] then w.(hanging := [])
    else Place(Regroup(w, timers[..|timers| - 1]), timers[|timers| - 1])
  }

  lemma RearmOneMore(w: Wheel, due: seq<Timer>, keep: nat -> bool, i: nat)
    requires w.Shaped() && i < |due|
    ensures var r := Load(w, Rearmed(due[..i], keep)); var again := Rearm(due[i]);
      Load(w, Rearmed(due[..i + 1], keep)) == if keep(due[i].id) && again.Some? then Place(r, again.value) else r
  {
    assert due[..i + 1][..i] == due[..i];
    var before, after := Rearmed(due[..i], keep), Rearmed(due[..i + 1], keep);
    var again := Rearm(due[i]);
    if keep(due[i].id) && again.Some? {
      assert after == before + [again.value] && after[..|before|] == before;
    } else {
      assert after == before + [] == before;
    }
  }

  lemma RegroupOneMore(w: Wheel, timers: seq<Timer>, i: nat)
    requires w.Shaped() && i < |timers|
    ensures Regroup(w, timers[..i + 1]) == Place(Regroup(w, timers[..i]), timers[i])
  {
    assert timers[..i + 1][..i] == timers[..i];
  }

  /** The wheel after switching the change lists and loading the timers, before any fires. */
  function Loaded(w: Wheel): (r: Wheel)
    requires w.Shaped()
    ensures r.Shaped() && r.tick == w.tick && r.back == []
  {
    Load(w.(back := []), w.back)
  }

  /** The end of `tick`: count it, and regroup every 4096 ticks. */
  function Advance(handled: Wheel): (r: Wheel)
    requires handled.Shaped()
    ensures r.Shaped() && r.tick == handled.tick + 1
    ensures r.back == handled.back
  {
    var next := handled.(tick := handled.tick + 1);
    if next.tick % NEAR_SLOTS == 0 then Regroup(next, next.hanging) else next
  }

  lemma AdvanceIs(handled: Wheel, counted: Wheel)
    requires handled.Shaped() && counted == handled.(tick := handled.tick + 1)
    ensures Advance(handled) == if counted.tick % NEAR_SLOTS == 0 then Regroup(counted, counted.hanging) else counted
  {
  }

  function Tick(w: Wheel, keep: nat -> bool): (r: Wheel)
    requires w.Shaped()
    ensures r.Shaped() && r.tick == w.tick + 1
  {
    Advance(Handle(Loaded(w), keep))
  }

  /** The timers that fire in that tick, in order. */
  function Fired(w: Wheel): seq<Timer>
    requires w.Shaped()
  {
    DueSlot(Loaded(w))
  }

  // ---------------------------------------------------------------------------
  // The timers of a wheel as a bag
  // ---------------------------------------------------------------------------

  function NearBag(slots: seq<seq<Timer>>): multiset<Timer> {
    if slots == [] then multiset{} else NearBag(slots[..|slots| - 1]) + multiset(slots[|slots| - 1])
  }

  function Bag(w: Wheel): multiset<Timer> {
    NearBag(w.near) + multiset(w.hanging)
  }

  lemma {:induction false} NearBagUpdate(slots: seq<seq<Timer>>, i: nat, slot: seq<Timer>, t: Timer)
    requires i < |slots|
    ensures NearBag(slots[i := slot])[t] + multiset(slots[i])[t] == NearBag(slots)[t] + multiset(slot)[t]
  {
    var n := |slots| - 1;
    var slots' := slots[i := slot];
    assert NearBag(slots') == NearBag(slots'[..n]) + multiset(slots'[n]);
    if i == n {
      assert slots'[..n] == slots[..n];
    } else {
      assert slots'[..n] == slots[..n][i := slot];
      NearBagUpdate(slots[..n], i, slot, t);
    }
  }

  lemma {:induction false} NearBagHas(slots: seq<seq<Timer>>, t: Timer) returns (i: nat, k: nat)
    requires t in NearBag(slots)
    ensures i < |slots| && k < |slots[i]| && slots[i][k] == t
  {
    var n := |slots| - 1;
    if t in slots[n] {
      i := n;
      k :| 0 <= k < |slots[n]| && slots[n][k] == t;
    } else {
      i, k := NearBagHas(slots[..n], t);
    }
  }

  lemma PlaceBag(w: Wheel, t: Timer)
    requires w.Shaped()
    ensures Bag(Place(w, t)) == Bag(w) + multiset{t}
  {
    if t.IsNear(w.tick) {
      var i := t.Slot(w.tick);
      forall u
        ensures Bag(Place(w, t))[u] == Bag(w)[u] + multiset{t}[u]
      {
        NearBagUpdate(w.near, i, w.near[i] + [t], u);
      }
    }
  }

  lemma {:induction false} LoadBag(w: Wheel, timers: seq<Timer>)
    requires w.Shaped()
    ensures Bag(Load(w, timers)) == Bag(w) + multiset(timers)
  {
    if timers != [] {
      var n := |timers| - 1;
      LoadBag(w, timers[..n]);
      PlaceBag(Load(w, timers[..n]), timers[n]);
      assert timers == timers[..n] + [timers[n]];
    }
  }

  lemma {:induction false} RegroupBag(w: Wheel, timers: seq<Timer>)
    requires w.Shaped()
    ensures Bag(Regroup(w, timers)) == NearBag(w.near) + multiset(timers)
  {
    if timers != [] {
      var n := |timers| - 1;
      hide Place, NearBag;
      RegroupBag(w, timers[..n]);
      PlaceBag(Regroup(w, timers[..n]), timers[n]);
      assert timers == timers[..n] + [timers[n]];
    }
  }

  lemma HandleBag(w: Wheel, keep: nat -> bool)
    requires w.Shaped()
    ensures multiset(DueSlot(w)) <= Bag(w)
    ensures Bag(Handle(w, keep)) == Bag(w) - multiset(DueSlot(w)) + multiset(Rearmed(DueSlot(w), keep))
  {
    var i := w.tick % NEAR_SLOTS;
    var cleared := w.(near := w.near[i := []]);
    LoadBag(cleared, Rearmed(DueSlot(w), keep));
    forall u
      ensures Bag(cleared)[u] + multiset(DueSlot(w))[u] == Bag(w)[u]
    {
      NearBagUpdate(w.near, i, [], u);
    }
    assert Bag(cleared) == Bag(w) - multiset(DueSlot(w));
  }

  // ---------------------------------------------------------------------------
  // The slots
  // ---------------------------------------------------------------------------

  /** Every timer of a near slot belongs there by its time, modulo the number of slots. */
  ghost predicate InSlots(near: seq<seq<Timer>>) {
    forall i, k :: 0 <= i < |near| && 0 <= k < |near[i]| ==> near[i][k].nexttime % NEAR_SLOTS == i
  }

  ghost predicate Inv(w: Wheel) {
    w.Shaped() && InSlots(w.near)
  }

  lemma InitInv()
    ensures Inv(Init())
  {
  }

  /** A difference that is zero in 64 bits is a multiple of the number of slots. */
  lemma SlotIs(t: Timer, tick: nat)
    ensures t.Slot(tick) == t.nexttime % NEAR_SLOTS
  {
    if t.Distance(tick) == 0 {
      var q := (t.nexttime - tick) / UINT64_WRAP;
      assert t.nexttime == tick + q * UINT64_WRAP;
      var rounds := tick / NEAR_SLOTS + q * (UINT64_WRAP / NEAR_SLOTS);
      DivModUnique(t.nexttime, NEAR_SLOTS, rounds, tick % NEAR_SLOTS);
    }
  }

  lemma PlaceInv(w: Wheel, t: Timer)
    requires Inv(w)
    ensures Inv(Place(w, t))
  {
    SlotIs(t, w.tick);
  }

  lemma {:induction false} LoadInv(w: Wheel, timers: seq<Timer>)
    requires Inv(w)
    ensures Inv(Load(w, timers))
  {
    if timers != [] {
      LoadInv(w, timers[..|timers| - 1]);
      PlaceInv(Load(w, timers[..|timers| - 1]), timers[|timers| - 1]);
    }
  }

  /** Regrouping loads the timers of the overflow list anew. */
  lemma {:induction false} RegroupIsLoad(w: Wheel, timers: seq<Timer>)
    requires w.Shaped()
    ensures Regroup(w, timers) == Load(w.(hanging := []), timers)
  {
    if timers != [] {
      RegroupIsLoad(w, timers[..|timers| - 1]);
    }
  }

  lemma HandleInv(w: Wheel, keep: nat -> bool)
    requires Inv(w)
    ensures Inv(Handle(w, keep))
  {
    LoadInv(w.(near := w.near[w.tick % NEAR_SLOTS := []]), Rearmed(DueSlot(w), keep));
  }

  /** Every tick keeps every timer in the slot of its time, whatever its period. */
  lemma TickInv(w: Wheel, keep: nat -> bool)
    requires Inv(w)
    ensures Inv(Tick(w, keep))
  {
    LoadInv(w.(back := []), w.back);
    HandleInv(Loaded(w), keep);
    var next := Handle(Loaded(w), keep).(tick := w.tick + 1);
    RegroupIsLoad(next, next.hanging);
    LoadInv(next.(hanging := []), next.hanging);
  }

  lemma {:induction false} NearBagOf(near: seq<seq<Timer>>, t: Timer)
    requires forall i, k :: 0 <= i < |near| && 0 <= k < |near[i]| ==> near[i][k] != t
    ensures NearBag(near)[t] == 0
  {
    if NearBag(near)[t] > 0 {
      var i, k := NearBagHas(near, t);
    }
  }

  /** How often a timer is in the near slots, if its time is the tick's modulo the number of
      slots. */
  function DueCount(w: Wheel, t: Timer): nat {
    if t.nexttime % NEAR_SLOTS == w.tick % NEAR_SLOTS then NearBag(w.near)[t] else 0
  }

  /** The current slot holds all the timers of the near slots that belong there, and no other. */
  lemma DueExactly(w: Wheel, t: Timer)
    requires Inv(w)
    ensures multiset(DueSlot(w))[t] == DueCount(w, t)
  {
    var i := w.tick % NEAR_SLOTS;
    if t in DueSlot(w) {
      var k :| 0 <= k < |DueSlot(w)| && DueSlot(w)[k] == t;
      assert w.near[i][k] == t;
    }
    if t.nexttime % NEAR_SLOTS == i {
      var rest := w.near[i := []];
      NearBagOf(rest, t);
      NearBagUpdate(w.near, i, [], t);
    }
  }

  // ---------------------------------------------------------------------------
  // The wheel refines a bag of timers
  // ---------------------------------------------------------------------------

  /** All timers the wheel knows, including those that wait to be loaded. */
  function Everything(w: Wheel): multiset<Timer> {
    Bag(w) + multiset(w.back)
  }

  lemma AdvanceBag(handled: Wheel)
    requires handled.Shaped()
    ensures Bag(Advance(handled)) == Bag(handled)
  {
    var next := handled.(tick := handled.tick + 1);
    assert Bag(next) == Bag(handled);
    RegroupBag(next, next.hanging);
  }

  /** One tick, seen on the bag of all timers: those that fire are taken out, what the
      handlers keep goes back, and nothing else changes; and the timers that fire are those
      of the near slots whose time is the tick's, modulo the number of slots. */
  lemma TickRefinesBag(w: Wheel, keep: nat -> bool)
    requires Inv(w)
    ensures multiset(Fired(w)) <= Everything(w)
    ensures Everything(Tick(w, keep))
         == Everything(w) - multiset(Fired(w)) + multiset(Rearmed(Fired(w), keep))
    ensures forall t :: multiset(Fired(w))[t] == DueCount(Loaded(w), t)
  {
    LoadBag(w.(back := []), w.back);
    LoadInv(w.(back := []), w.back);
    var loaded := Loaded(w);
    forall t
      ensures multiset(Fired(w))[t] == DueCount(loaded, t)
    {
      DueExactly(loaded, t);
    }
    HandleBag(loaded, keep);
    AdvanceBag(Handle(loaded, keep));
  }

  // ---------------------------------------------------------------------------
  // One timer among others
  // ---------------------------------------------------------------------------

  /** Where the timer with some id is: in no list, in a near slot, in the overflow list, or in
      the list of timers to be loaded. */
  datatype Where = Nowhere | Near(t: Timer) | Hanging(t: Timer) | Back(t: Timer) {
    function InNear(): Option<Timer> { if Near? then Some(t) else None }
    function InHanging(): Option<Timer> { if Hanging? then Some(t) else None }
    function InBack(): Option<Timer> { if Back? then Some(t) else None }
  }

  /** The bag has the timer `current` under this id, or none. */
  ghost predicate Sole(bag: multiset<Timer>, id: nat, current: Option<Timer>) {
    forall t: Timer :: t.id == id ==> bag[t] == (if current == Some(t) then 1 else 0)
  }

  ghost predicate Within(w: Wheel, id: nat, p: Where) {
    Sole(NearBag(w.near), id, p.InNear()) && Sole(multiset(w.hanging), id, p.InHanging())
  }

  /** The timer with this id is at `p`, and there is no other with the id. */
  ghost predicate At(w: Wheel, id: nat, p: Where) {
    Within(w, id, p) && Sole(multiset(w.back), id, p.InBack())
  }

  predicate Proper(p: Where, id: nat) {
    p.Nowhere? || p.t.id == id
  }

  function PlaceAlone(t: Timer, tick: nat): Where {
    if t.IsNear(tick) then Near(t) else Hanging(t)
  }

  function LoadAlone(p: Where, tick: nat): Where {
    if p.Back? then PlaceAlone(p.t, tick) else p
  }

  predicate IsDue(l: Where, tick: nat) {
    l.Near? && l.t.nexttime % NEAR_SLOTS == tick % NEAR_SLOTS
  }

  /** Does the timer fire in this tick, once loaded? */
  predicate FiresAlone(p: Where, tick: nat) {
    IsDue(LoadAlone(p, tick), tick)
  }

  function RegroupAlone(p: Where, tick: nat): Where {
    if tick % NEAR_SLOTS == 0 && p.Hanging? then PlaceAlone(p.t, tick) else p
  }

  function HandleAlone(l: Where, tick: nat, kept: bool): Where {
    if !IsDue(l, tick) then l
    else if kept && Rearm(l.t).Some? then PlaceAlone(Rearm(l.t).value, tick)
    else Nowhere
  }

  function FiredAlone(p: Where, tick: nat): Option<Timer> {
    if FiresAlone(p, tick) then LoadAlone(p, tick).InNear() else None
  }

  /** One tick for a timer that is alone. */
  function TickAlone(p: Where, tick: nat, kept: bool): Where {
    RegroupAlone(HandleAlone(LoadAlone(p, tick), tick, kept), tick + 1)
  }

  lemma PlaceParts(w: Wheel, t: Timer, u: Timer)
    requires w.Shaped()
    ensures NearBag(Place(w, t).near)[u] == NearBag(w.near)[u] + (if t == u && t.IsNear(w.tick) then 1 else 0)
    ensures multiset(Place(w, t).hanging)[u] ==
      multiset(w.hanging)[u] + (if t == u && !t.IsNear(w.tick) then 1 else 0)
  {
    if t.IsNear(w.tick) {
      var i := t.Slot(w.tick);
      NearBagUpdate(w.near, i, w.near[i] + [t], u);
    }
  }

  lemma PlaceWithin(w: Wheel, t: Timer, id: nat, p: Where)
    requires w.Shaped() && Within(w, id, p) && (t.id == id ==> p == Nowhere)
    ensures Within(Place(w, t), id, if t.id == id then PlaceAlone(t, w.tick) else p)
  {
    forall u: Timer | u.id == id
      ensures NearBag(Place(w, t).near)[u] == NearBag(w.near)[u] + (if t == u && t.IsNear(w.tick) then 1 else 0)
      ensures multiset(Place(w, t).hanging)[u] ==
        multiset(w.hanging)[u] + (if t == u && !t.IsNear(w.tick) then 1 else 0)
    {
      PlaceParts(w, t, u);
    }
  }

  /** Loading a list of timers moves the one with this id, if it is among them. */
  lemma {:induction false} LoadWithin(w: Wheel, timers: seq<Timer>, id: nat, p: Where, current: Option<Timer>)
    requires w.Shaped() && Within(w, id, p) && Sole(multiset(timers), id, current)
    requires current.Some? ==> p == Nowhere && current.value.id == id
    ensures Within(Load(w, timers), id, if current.Some? then PlaceAlone(current.value, w.tick) else p)
    decreases |timers|
  {
    if timers == [] {
      assert current.Some? ==> multiset(timers)[current.value] == 1;
    } else {
      var n := |timers| - 1;
      var last := timers[n];
      assert timers == timers[..n] + [last];
      if last.id == id {
        assert multiset(timers)[last] > 0;
        LoadWithin(w, timers[..n], id, p, None);
        PlaceWithin(Load(w, timers[..n]), last, id, Nowhere);
      } else {
        LoadWithin(w, timers[..n], id, p, current);
        PlaceWithin(Load(w, timers[..n]), last, id, if current.Some? then PlaceAlone(current.value, w.tick) else p);
      }
    }
  }

  lemma {:induction false} RearmedSole(fired: seq<Timer>, keep: nat -> bool, id: nat, current: Option<Timer>)
    requires Sole(multiset(fired), id, current)
    ensures Sole(multiset(Rearmed(fired, keep)), id,
                 if current.Some? && keep(id) then Rearm(current.value) else None)
  {
    if fired != [] {
      var n := |fired| - 1;
      var last := fired[n];
      assert fired == fired[..n] + [last];
      if last.id == id {
        assert multiset(fired)[last] > 0;
        assert current == Some(last);
        assert Sole(multiset(fired[..n]), id, None);
        RearmedSole(fired[..n], keep, id, None);
      } else {
        RearmedSole(fired[..n], keep, id, current);
      }
    } else if current.Some? {
      assert current.value.id != id;
      assert Rearm(current.value).Some? ==> Rearm(current.value).value.id != id;
    }
  }

  lemma ClearedWithin(w: Wheel, id: nat, p: Where)
    requires Inv(w) && Within(w, id, p) && Proper(p, id)
    ensures Sole(multiset(DueSlot(w)), id, if IsDue(p, w.tick) then p.InNear() else None)
    ensures Within(w.(near := w.near[w.tick % NEAR_SLOTS := []]), id, if IsDue(p, w.tick) then Nowhere else p)
  {
    forall t: Timer | t.id == id
      ensures multiset(DueSlot(w))[t] == DueCount(w, t)
      ensures NearBag(w.near[w.tick % NEAR_SLOTS := []])[t] + multiset(DueSlot(w))[t] == NearBag(w.near)[t]
    {
      DueExactly(w, t);
      NearBagUpdate(w.near, w.tick % NEAR_SLOTS, [], t);
    }
  }

  lemma HandleWithin(w: Wheel, keep: nat -> bool, id: nat, p: Where)
    requires Inv(w) && Within(w, id, p) && Proper(p, id) && !p.Back?
    ensures Within(Handle(w, keep), id, HandleAlone(p, w.tick, keep(id)))
  {
    ClearedWithin(w, id, p);
    var due := if IsDue(p, w.tick) then p.InNear() else None;
    RearmedSole(DueSlot(w), keep, id, due);
    var again := if due.Some? && keep(id) then Rearm(due.value) else None;
    var cleared := w.(near := w.near[w.tick % NEAR_SLOTS := []]);
    LoadWithin(cleared, Rearmed(DueSlot(w), keep), id, if IsDue(p, w.tick) then Nowhere else p, again);
  }

  lemma RegroupWithin(w: Wheel, id: nat, p: Where)
    requires w.Shaped() && Within(w, id, p) && Proper(p, id) && !p.Back?
    ensures Within(Regroup(w, w.hanging), id, if p.Hanging? then PlaceAlone(p.t, w.tick) else p)
  {
    RegroupIsLoad(w, w.hanging);
    LoadWithin(w.(hanging := []), w.hanging, id, if p.Hanging? then Nowhere else p, p.InHanging());
  }

  lemma AdvanceWithin(w: Wheel, id: nat, p: Where)
    requires w.Shaped() && Within(w, id, p) && Proper(p, id) && !p.Back?
    ensures Within(Advance(w), id, RegroupAlone(p, w.tick + 1))
  {
    var next := w.(tick := w.tick + 1);
    AdvanceIs(w, next);
    RegroupWithin(next, id, p);
  }

  /** What happens around one tick: the timers added before it, and the handlers' results. */
  datatype Input = Input(adds: seq<Timer>, keep: nat -> bool)

  function WithAdds(w: Wheel, input: Input): Wheel {
    w.(back := w.back + input.adds)
  }

  lemma ProperAlone(p: Where, tick: nat, kept: bool, id: nat)
    requires Proper(p, id)
    ensures Proper(LoadAlone(p, tick), id) && !LoadAlone(p, tick).Back?
    ensures var h := HandleAlone(LoadAlone(p, tick), tick, kept); Proper(h, id) && !h.Back?
    ensures Proper(TickAlone(p, tick, kept), id) && !TickAlone(p, tick, kept).Back?
  {
  }

  lemma LoadedWithin(w: Wheel, id: nat, p: Where)
    requires Inv(w) && At(w, id, p) && Proper(p, id)
    ensures Inv(Loaded(w)) && Within(Loaded(w), id, LoadAlone(p, w.tick))
  {
    LoadWithin(w.(back := []), w.back, id, if p.Back? then Nowhere else p, p.InBack());
    LoadInv(w.(back := []), w.back);
  }

  lemma AddsWithin(w: Wheel, input: Input, id: nat, p: Where)
    requires At(w, id, p) && forall k :: 0 <= k < |input.adds| ==> input.adds[k].id != id
    ensures At(WithAdds(w, input), id, p)
  {
    forall t: Timer | t.id == id
      ensures multiset(w.back + input.adds)[t] == multiset(w.back)[t]
    {
      assert t !in input.adds;
    }
  }

  lemma HandledWithin(w: Wheel, keep: nat -> bool, id: nat, l: Where, tick: nat)
    requires Inv(w) && Within(w, id, l) && Proper(l, id) && !l.Back? && tick == w.tick
    ensures Within(Advance(Handle(w, keep)), id, RegroupAlone(HandleAlone(l, tick, keep(id)), tick + 1))
  {
    hide Within, Advance;
    var h, p := Handle(w, keep), HandleAlone(l, tick, keep(id));
    HandleWithin(w, keep, id, l);
    AdvanceWithin(h, id, p);
  }

  lemma FollowFired(w: Wheel, id: nat, p: Where)
    requires Inv(w) && At(w, id, p) && Proper(p, id)
    ensures Sole(multiset(Fired(w)), id, FiredAlone(p, w.tick))
  {
    ProperAlone(p, w.tick, true, id);
    LoadedWithin(w, id, p);
    ClearedWithin(Loaded(w), id, LoadAlone(p, w.tick));
  }

  /** A timer among any others does in a tick what it does alone. */
  lemma FollowTick(w: Wheel, keep: nat -> bool, id: nat, p: Where)
    requires Inv(w) && At(w, id, p) && Proper(p, id)
    ensures Sole(multiset(Fired(w)), id, FiredAlone(p, w.tick))
    ensures At(Tick(w, keep), id, TickAlone(p, w.tick, keep(id)))
  {
    hide Within, HandleAlone, LoadAlone, RegroupAlone;
    FollowFired(w, id, p);
    ProperAlone(p, w.tick, keep(id), id);
    LoadedWithin(w, id, p);
    HandledWithin(Loaded(w), keep, id, LoadAlone(p, w.tick), w.tick);
    assert Tick(w, keep).back == [] && !TickAlone(p, w.tick, keep(id)).Back?;
  }

  /** The timers with this id. */
  function Mine(timers: seq<Timer>, id: nat): multiset<Timer> {
    if timers == [] then multiset{}
    else
      var last := timers[|timers| - 1];
      Mine(timers[..|timers| - 1], id) + if last.id == id then multiset{last} else multiset{}
  }

  function MineNear(near: seq<seq<Timer>>, id: nat): multiset<Timer> {
    if near == [] then multiset{} else MineNear(near[..|near| - 1], id) + Mine(near[|near| - 1], id)
  }

  function Just(current: Option<Timer>): multiset<Timer> {
    if current.Some? then multiset{current.value} else multiset{}
  }

  lemma {:induction false} MineCounts(timers: seq<Timer>, id: nat, t: Timer)
    ensures Mine(timers, id)[t] == if t.id == id then multiset(timers)[t] else 0
    decreases |timers|
  {
    if timers != [] {
      var n := |timers| - 1;
      assert timers == timers[..n] + [timers[n]];
      MineCounts(timers[..n], id, t);
    }
  }

  lemma {:induction false} MineNearCounts(near: seq<seq<Timer>>, id: nat, t: Timer)
    ensures MineNear(near, id)[t] == if t.id == id then NearBag(near)[t] else 0
    decreases |near|
  {
    if near != [] {
      MineNearCounts(near[..|near| - 1], id, t);
      MineCounts(near[|near| - 1], id, t);
    }
  }

  /** The only timer with this id, if there is one, is at `p`. */
  ghost predicate Follow(w: Wheel, id: nat, p: Where) {
    && MineNear(w.near, id) == Just(p.InNear())
    && Mine(w.hanging, id) == Just(p.InHanging())
    && Mine(w.back, id) == Just(p.InBack())
  }

  lemma FollowIsAt(w: Wheel, id: nat, p: Where)
    requires Proper(p, id)
    ensures Follow(w, id, p) <==> At(w, id, p)
  {
    forall t
      ensures MineNear(w.near, id)[t] == if t.id == id then NearBag(w.near)[t] else 0
    {
      MineNearCounts(w.near, id, t);
    }
    MineIffSole(NearBag(w.near), MineNear(w.near, id), id, p.InNear());
    forall t
      ensures Mine(w.hanging, id)[t] == if t.id == id then multiset(w.hanging)[t] else 0
      ensures Mine(w.back, id)[t] == if t.id == id then multiset(w.back)[t] else 0
    {
      MineCounts(w.hanging, id, t);
      MineCounts(w.back, id, t);
    }
    MineIffSole(multiset(w.hanging), Mine(w.hanging, id), id, p.InHanging());
    MineIffSole(multiset(w.back), Mine(w.back, id), id, p.InBack());
  }

  lemma MineIffSole(bag: multiset<Timer>, mine: multiset<Timer>, id: nat, current: Option<Timer>)
    requires forall t :: mine[t] == if t.id == id then bag[t] else 0
    requires current.Some? ==> current.value.id == id
    ensures mine == Just(current) <==> Sole(bag, id, current)
  {
    if Sole(bag, id, current) {
      forall t
        ensures mine[t] == Just(current)[t]
      {
      }
      assert mine == Just(current);
    }
    if mine == Just(current) {
      forall t: Timer | t.id == id
        ensures bag[t] == Just(current)[t]
      {
        assert mine[t] == bag[t];
      }
    }
  }

  lemma MineIsSole(fired: seq<Timer>, id: nat, current: Option<Timer>)
    requires Sole(multiset(fired), id, current) && (current.Some? ==> current.value.id == id)
    ensures Mine(fired, id) == Just(current)
  {
    forall t
      ensures Mine(fired, id)[t] == Just(current)[t]
    {
      MineCounts(fired, id, t);
    }
  }

  function NextWheel(w: Wheel, input: Input): (r: Wheel)
    requires w.Shaped()
    ensures r.Shaped() && r.tick == w.tick + 1
  {
    Tick(WithAdds(w, input), input.keep)
  }

  /** So it does with other timers added first. */
  lemma FollowInput(w: Wheel, input: Input, id: nat, p: Where, tick: nat)
    requires Inv(w) && Follow(w, id, p) && Proper(p, id) && tick == w.tick
    requires forall k :: 0 <= k < |input.adds| ==> input.adds[k].id != id
    ensures Follow(NextWheel(w, input), id, TickAlone(p, tick, input.keep(id)))
    ensures Mine(Fired(WithAdds(w, input)), id) == Just(FiredAlone(p, tick))
  {
    var before := WithAdds(w, input);
    FollowIsAt(w, id, p);
    AddsWithin(w, input, id, p);
    FollowTick(before, input.keep, id, p);
    ProperAlone(p, w.tick, input.keep(id), id);
    MineIsSole(Fired(before), id, FiredAlone(p, w.tick));
    FollowIsAt(Tick(before, input.keep), id, TickAlone(p, w.tick, input.keep(id)));
  }

  // ---------------------------------------------------------------------------
  // Whole runs
  // ---------------------------------------------------------------------------

  ghost function Exec(w: Wheel, inputs: seq<Input>): (r: Wheel)
    requires w.Shaped()
    ensures r.Shaped() && r.tick == w.tick + |inputs|
    decreases |inputs|
  {
    if inputs == [] then w
    else NextWheel(Exec(w, inputs[..|inputs| - 1]), inputs[|inputs| - 1])
  }

  lemma {:induction false} ExecInv(w: Wheel, inputs: seq<Input>)
    requires Inv(w)
    ensures Inv(Exec(w, inputs))
    decreases |inputs|
  {
    if inputs != [] {
      ExecInv(w, inputs[..|inputs| - 1]);
      TickInv(WithAdds(Exec(w, inputs[..|inputs| - 1]), inputs[|inputs| - 1]), inputs[|inputs| - 1].keep);
    }
  }

  /** The timers that fire in the last tick of a run. */
  ghost function LastFired(w: Wheel, inputs: seq<Input>): seq<Timer>
    requires w.Shaped() && inputs != []
  {
    Fired(WithAdds(Exec(w, inputs[..|inputs| - 1]), inputs[|inputs| - 1]))
  }

  /** No timer with this id is added. */
  ghost predicate Spared(inputs: seq<Input>, id: nat) {
    forall i, k :: 0 <= i < |inputs| && 0 <= k < |inputs[i].adds| ==> inputs[i].adds[k].id != id
  }

  // ---------------------------------------------------------------------------
  // A timer alone
  // ---------------------------------------------------------------------------

  /** The next tick at which the overflow list is looked through. */
  function Boundary(tick: nat): nat {
    (tick / NEAR_SLOTS + 1) * NEAR_SLOTS
  }

  lemma BoundaryStep(tick: nat)
    ensures tick < Boundary(tick) <= tick + NEAR_SLOTS
    ensures (tick + 1) % NEAR_SLOTS == 0 ==>
      Boundary(tick) == tick + 1 && Boundary(tick + 1) == tick + 1 + NEAR_SLOTS
    ensures (tick + 1) % NEAR_SLOTS != 0 ==> Boundary(tick + 1) == Boundary(tick)
  {
  }

  /** The timer waits for its time: to be loaded, in its slot, or beyond the next look. */
  predicate Waits(p: Where, t: Timer, tick: nat) {
    t.InRange() &&
    (   (p == Back(t) && tick <= t.nexttime)
     || (p == Near(t) && tick <= t.nexttime < tick + NEAR_SLOTS)
     || (p == Hanging(t) && Boundary(tick) <= t.nexttime))
  }

  /** The timer's time is over, but it is in a slot that will come again. */
  predicate Overdue(p: Where, t: Timer, tick: nat) {
    t.InRange() && p == Near(t) && t.nexttime < tick <= t.nexttime + NEAR_SLOTS
  }

  /** The timer's time is over, and it is in the overflow list. */
  predicate Lost(p: Where, t: Timer, tick: nat) {
    t.InRange() && p == Hanging(t) && t.nexttime < tick
  }

  lemma DistanceIs(t: Timer, tick: nat)
    requires t.InRange() && tick < HORIZON
    ensures t.IsNear(tick) <==> tick <= t.nexttime < tick + NEAR_SLOTS
  {
    if tick <= t.nexttime {
      assert t.Distance(tick) == t.nexttime - tick;
    } else {
      assert t.Distance(tick) == t.nexttime - tick + UINT64_WRAP;
    }
  }

  lemma SlotComes(t: Timer, tick: nat)
    ensures tick <= t.nexttime < tick + NEAR_SLOTS ==>
      (t.nexttime % NEAR_SLOTS == tick % NEAR_SLOTS <==> t.nexttime == tick)
    ensures t.nexttime < tick <= t.nexttime + NEAR_SLOTS ==>
      (t.nexttime % NEAR_SLOTS == tick % NEAR_SLOTS <==> t.nexttime + NEAR_SLOTS == tick)
  {
    if tick <= t.nexttime < tick + NEAR_SLOTS && t.nexttime % NEAR_SLOTS == tick % NEAR_SLOTS {
      SameRemainder(tick, t.nexttime, NEAR_SLOTS);
    }
    if t.nexttime < tick <= t.nexttime + NEAR_SLOTS {
      ShiftedRemainder(t.nexttime, NEAR_SLOTS, NEAR_SLOTS);
      if t.nexttime % NEAR_SLOTS == tick % NEAR_SLOTS {
        assert (t.nexttime + NEAR_SLOTS) % NEAR_SLOTS == t.nexttime % NEAR_SLOTS;
        SameRemainder(tick, t.nexttime + NEAR_SLOTS, NEAR_SLOTS);
      }
    }
  }

  /** A waiting timer, loaded. */
  lemma LoadWaits(p: Where, t: Timer, tick: nat)
    requires Waits(p, t, tick) && tick < HORIZON
    ensures var l := LoadAlone(p, tick);
      if t.nexttime < tick + NEAR_SLOTS && l.Near? then l == Near(t)
      else l == Hanging(t) && tick < t.nexttime && Boundary(tick) <= t.nexttime
    ensures FiresAlone(p, tick) <==> t.nexttime == tick
  {
    DistanceIs(t, tick);
    SlotComes(t, tick);
    BoundaryStep(tick);
  }

  /** A timer that has been put where it belongs waits on. */
  lemma RegroupWaits(l: Where, t: Timer, tick: nat)
    requires t.InRange() && tick + 1 < HORIZON && tick < t.nexttime
    requires (l == Near(t) && t.nexttime < tick + NEAR_SLOTS)
      || (l == Hanging(t) && Boundary(tick) <= t.nexttime)
    ensures Waits(RegroupAlone(l, tick + 1), t, tick + 1)
  {
    BoundaryStep(tick);
    DistanceIs(t, tick + 1);
  }

  /** A tick of a waiting timer: it fires exactly at its time; then it waits again, or is
      overdue at once if its period is zero. */
  lemma WaitsTick(p: Where, t: Timer, tick: nat, kept: bool)
    requires Waits(p, t, tick) && tick + 1 < HORIZON
    ensures FiresAlone(p, tick) <==> t.nexttime == tick
    ensures t.nexttime == tick ==> LoadAlone(p, tick) == Near(t)
    ensures var q := TickAlone(p, tick, kept); var again := Rearm(t);
      if t.nexttime > tick then Waits(q, t, tick + 1)
      else if !kept || again.None? then q == Nowhere
      else if t.timeout > 0 then Waits(q, again.value, tick + 1)
      else Overdue(q, again.value, tick + 1)
  {
    LoadWaits(p, t, tick);
    BoundaryStep(tick);
    if t.nexttime > tick {
      RegroupWaits(LoadAlone(p, tick), t, tick);
    } else if kept && Rearm(t).Some? {
      var again := Rearm(t).value;
      DistanceIs(again, tick);
      if t.timeout > 0 {
        RegroupWaits(PlaceAlone(again, tick), again, tick);
      }
    }
  }

  /** A tick of an overdue timer of period zero: it fires when its slot comes again, a whole
      round late, and is then lost. */
  lemma OverdueTick(p: Where, t: Timer, tick: nat, kept: bool)
    requires Overdue(p, t, tick) && t.timeout == 0 && tick + 1 < HORIZON
    ensures FiresAlone(p, tick) <==> t.nexttime + NEAR_SLOTS == tick
    ensures var q := TickAlone(p, tick, kept); var again := Rearm(t);
      if t.nexttime + NEAR_SLOTS > tick then Overdue(q, t, tick + 1)
      else if !kept || again.None? then q == Nowhere
      else Lost(q, again.value, tick + 1)
  {
    SlotComes(t, tick);
    if t.nexttime + NEAR_SLOTS == tick && kept && Rearm(t).Some? {
      var again := Rearm(t).value;
      DistanceIs(again, tick);
      DistanceIs(again, tick + 1);
    }
  }

  lemma LostTick(p: Where, t: Timer, tick: nat, kept: bool)
    requires Lost(p, t, tick) && tick + 1 < HORIZON
    ensures !FiresAlone(p, tick) && Lost(TickAlone(p, tick, kept), t, tick + 1)
  {
    DistanceIs(t, tick + 1);
  }

  /** A timer whose time is over when it is loaded is lost at once. */
  lemma LateTick(t: Timer, tick: nat, kept: bool)
    requires t.InRange() && t.nexttime < tick && tick + 1 < HORIZON
    ensures var p := Back(t);
      !FiresAlone(p, tick) && Lost(TickAlone(p, tick, kept), t, tick + 1)
  {
    DistanceIs(t, tick);
    DistanceIs(t, tick + 1);
  }

  // ---------------------------------------------------------------------------
  // The schedule of a timer
  // ---------------------------------------------------------------------------

  /** When firing number `k` of a timer is due. */
  function FiringTime(x: Timer, k: nat): nat {
    x.nexttime + k * x.timeout
  }

  /** Does the timer have a firing number `k`?  A negative `repeats` has no end. */
  predicate HasFiring(x: Timer, k: nat) {
    (x.repeats > 0 ==> k < x.repeats) && (x.repeats == 0 ==> k == 0)
  }

  ghost predicate OnSchedule(x: Timer, tick: nat) {
    exists k: nat :: FiringTime(x, k) == tick && HasFiring(x, k)
  }

  function NthTimer(x: Timer, k: nat): Option<Timer> {
    if !HasFiring(x, k) then None
    else Some(x.(nexttime := FiringTime(x, k), repeats := if x.repeats > 0 then x.repeats - k else x.repeats))
  }

  /** `k` firings of `x` lie before `tick`. */
  ghost predicate FiredBefore(x: Timer, tick: nat, k: nat) {
    && (HasFiring(x, k) ==> tick <= FiringTime(x, k))
    && (forall j :: 0 <= j < k ==> FiringTime(x, j) < tick)
  }

  lemma FiringTimesRise(x: Timer, j: nat, k: nat)
    requires x.Sound() && j < k && HasFiring(x, k)
    ensures FiringTime(x, j) < FiringTime(x, k)
  {
    assert (k - j) * x.timeout >= 1 by {
      assert x.timeout >= 1 && k - j >= 1;
      assert (k - j - 1) * x.timeout >= 0;
      assert (k - j) * x.timeout == (k - j - 1) * x.timeout + x.timeout;
    }
    assert k * x.timeout == j * x.timeout + (k - j) * x.timeout;
  }

  lemma DueIffOnSchedule(x: Timer, tick: nat, k: nat)
    requires x.Sound() && FiredBefore(x, tick, k)
    ensures OnSchedule(x, tick) <==> (HasFiring(x, k) && FiringTime(x, k) == tick)
  {
    if j: nat :| FiringTime(x, j) == tick && HasFiring(x, j) {
      if j > k {
        FiringTimesRise(x, k, j);
      }
    }
  }

  /** After firing number `k` the timer is the one with firing number `k + 1`. */
  lemma NthRearmed(x: Timer, tick: nat, k: nat)
    requires x.Sound() && FiredBefore(x, tick, k) && HasFiring(x, k) && FiringTime(x, k) == tick
    ensures FiredBefore(x, tick + 1, k + 1)
    ensures Rearm(NthTimer(x, k).value) == NthTimer(x, k + 1)
    ensures HasFiring(x, k + 1) ==> x.timeout > 0
  {
    assert FiringTime(x, k + 1) == FiringTime(x, k) + x.timeout by {
      assert (k + 1) * x.timeout == k * x.timeout + x.timeout;
    }
    if HasFiring(x, k + 1) {
      FiringTimesRise(x, k, k + 1);
    }
  }

  /** A timer waits to be loaded in the next tick, among any others; its handler keeps
      returning true, and no other timer gets its id. */
  ghost predicate Awaits(w: Wheel, inputs: seq<Input>, x: Timer) {
    && Inv(w) && Follow(w, x.id, Back(x))
    && x.InRange() && w.tick + |inputs| < HORIZON
    && Spared(inputs, x.id)
    && (forall i :: 0 <= i < |inputs| ==> inputs[i].keep(x.id))
  }

  /** A timer on schedule before tick `tick`, with `k` firings behind it. */
  ghost predicate Scheduled(p: Where, x: Timer, tick: nat, k: nat) {
    FiredBefore(x, tick, k)
    && if NthTimer(x, k).None? then p == Nowhere else Waits(p, NthTimer(x, k).value, tick)
  }

  lemma ScheduledTick(p: Where, x: Timer, tick: nat, k: nat)
    requires x.Sound() && Scheduled(p, x, tick, k) && tick + 1 < HORIZON
    ensures FiresAlone(p, tick) <==> OnSchedule(x, tick)
    ensures FiresAlone(p, tick) ==> LoadAlone(p, tick).t.nexttime == tick
    ensures Scheduled(TickAlone(p, tick, true), x, tick + 1, if FiresAlone(p, tick) then k + 1 else k)
  {
    DueIffOnSchedule(x, tick, k);
    if HasFiring(x, k) {
      var t := NthTimer(x, k).value;
      WaitsTick(p, t, tick, true);
      if t.nexttime == tick {
        NthRearmed(x, tick, k);
      }
    }
  }

  // ---------------------------------------------------------------------------
  // Late timers and timers of period zero
  // ---------------------------------------------------------------------------

  /** A repeating timer of period zero, before tick `tick`. */
  ghost predicate Idling(p: Where, x: Timer, tick: nat) {
    if tick <= x.nexttime then Waits(p, x, tick)
    else if tick <= x.nexttime + NEAR_SLOTS then Rearm(x).Some? && Overdue(p, Rearm(x).value, tick)
    else p == Nowhere || (p.Hanging? && Lost(p, p.t, tick))
  }

  lemma IdlingTick(p: Where, x: Timer, tick: nat)
    requires !x.Sound() && Idling(p, x, tick) && tick + 1 < HORIZON
    ensures FiresAlone(p, tick) <==> tick == x.nexttime || tick == x.nexttime + NEAR_SLOTS
    ensures Idling(TickAlone(p, tick, true), x, tick + 1)
  {
    if tick <= x.nexttime {
      WaitsTick(p, x, tick, true);
    } else if tick <= x.nexttime + NEAR_SLOTS {
      OverdueTick(p, Rearm(x).value, tick, true);
    } else if p != Nowhere {
      LostTick(p, p.t, tick, true);
    }
  }

  /** A timer that was loaded after its time, before tick `tick`. */
  ghost predicate Missed(p: Where, x: Timer, tick: nat) {
    x.InRange() && x.nexttime < tick && (p == Back(x) || Lost(p, x, tick))
  }

  lemma MissedTick(p: Where, x: Timer, tick: nat)
    requires Missed(p, x, tick) && tick + 1 < HORIZON
    ensures !FiresAlone(p, tick) && Missed(TickAlone(p, tick, true), x, tick + 1)
  {
    if p.Back? {
      LateTick(x, tick, true);
    } else {
      LostTick(p, x, tick, true);
    }
  }

  // ---------------------------------------------------------------------------
  // Every timer, over every run
  // ---------------------------------------------------------------------------

  /** The ticks in which a timer fires that is loaded in tick `start`. */
  ghost predicate Fires(x: Timer, start: nat, tick: nat) {
    if x.nexttime < start then false
    else if x.Sound() then OnSchedule(x, tick)
    else tick == x.nexttime || tick == x.nexttime + NEAR_SLOTS
  }

  /** Where it is before a tick, with `k` firings behind it. */
  ghost predicate OnCourse(p: Where, x: Timer, start: nat, tick: nat, k: nat) {
    if x.nexttime < start then Missed(p, x, tick)
    else if x.Sound() then Scheduled(p, x, tick, k)
    else Idling(p, x, tick)
  }

  lemma CourseTick(p: Where, x: Timer, start: nat, tick: nat, k: nat) returns (k': nat)
    requires OnCourse(p, x, start, tick, k) && start <= tick && tick + 1 < HORIZON
    ensures FiresAlone(p, tick) <==> Fires(x, start, tick)
    ensures OnCourse(TickAlone(p, tick, true), x, start, tick + 1, k')
  {
    k' := if FiresAlone(p, tick) then k + 1 else k;
    if x.nexttime < start {
      MissedTick(p, x, tick);
    } else if x.Sound() {
      ScheduledTick(p, x, tick, k);
    } else {
      IdlingTick(p, x, tick);
    }
  }

  /** The timer fires once in this tick, or not at all. */
  ghost predicate FiresOnce(fired: seq<Timer>, id: nat, fires: bool) {
    |Mine(fired, id)| == if fires then 1 else 0
  }

  /** Among any other timers, the timer is on its course. */
  ghost predicate InCourse(w: Wheel, x: Timer, start: nat) {
    exists p, k :: OnCourse(p, x, start, w.tick, k) && Inv(w) && Follow(w, x.id, p) && Proper(p, x.id)
  }

  lemma StillInCourse(w: Wheel, x: Timer, start: nat, p: Where, tick: nat, k: nat)
    requires OnCourse(p, x, start, tick, k) && tick == w.tick && Inv(w) && Follow(w, x.id, p) && Proper(p, x.id)
    ensures InCourse(w, x, start)
  {
  }

  /** One tick, among any other timers. */
  lemma CourseInput(w: Wheel, input: Input, x: Timer, start: nat)
    requires InCourse(w, x, start) && start <= w.tick && w.tick + 1 < HORIZON
    requires input.keep(x.id) && forall j :: 0 <= j < |input.adds| ==> input.adds[j].id != x.id
    ensures w.Shaped() && InCourse(NextWheel(w, input), x, start)
    ensures FiresOnce(Fired(WithAdds(w, input)), x.id, Fires(x, start, w.tick))
  {
    hide OnCourse, Follow, Proper, TickAlone, Tick;
    var p, k :| OnCourse(p, x, start, w.tick, k) && Inv(w) && Follow(w, x.id, p) && Proper(p, x.id);
    FollowInput(w, input, x.id, p, w.tick);
    ProperAlone(p, w.tick, true, x.id);
    TickInv(WithAdds(w, input), input.keep);
    var k' := CourseTick(p, x, start, w.tick, k);
    StillInCourse(NextWheel(w, input), x, start, TickAlone(p, w.tick, true), w.tick + 1, k');
  }

  lemma CourseStarts(w: Wheel, x: Timer)
    requires Inv(w) && Follow(w, x.id, Back(x)) && x.InRange()
    ensures InCourse(w, x, w.tick)
  {
    assert OnCourse(Back(x), x, w.tick, w.tick, 0);
  }

  lemma {:induction false} CourseRun(w: Wheel, inputs: seq<Input>, x: Timer)
    requires Awaits(w, inputs, x)
    ensures InCourse(Exec(w, inputs), x, w.tick)
    decreases |inputs|
  {
    if inputs == [] {
      CourseStarts(w, x);
    } else {
      var n := |inputs| - 1;
      CourseRun(w, inputs[..n], x);
      CourseInput(Exec(w, inputs[..n]), inputs[n], x, w.tick);
    }
  }

  /** Every timer, among any others, in the last tick of any run. */
  lemma FiresInItsTicks(w: Wheel, inputs: seq<Input>, x: Timer)
    requires inputs != [] && Awaits(w, inputs, x)
    ensures FiresOnce(LastFired(w, inputs), x.id, Fires(x, w.tick, w.tick + |inputs| - 1))
  {
    var n := |inputs| - 1;
    CourseRun(w, inputs[..n], x);
    CourseInput(Exec(w, inputs[..n]), inputs[n], x, w.tick);
  }

  /** The main result: over any run, among any other timers, a timer that is loaded in time
      fires in a tick exactly when that tick is the time of one of its firings: never
      early, never late, never twice, and `repeats` times in all. */
  lemma FiresExactlyOnSchedule(w: Wheel, inputs: seq<Input>, x: Timer)
    requires inputs != [] && Awaits(w, inputs, x) && w.tick <= x.nexttime && x.Sound()
    ensures FiresOnce(LastFired(w, inputs), x.id, OnSchedule(x, w.tick + |inputs| - 1))
  {
    FiresInItsTicks(w, inputs, x);
  }

  /** A timer of any period that is loaded after its time is lost: the unsigned difference
      wraps, it goes to the overflow list, and no tick of any run fires it. */
  lemma LoadedLateNeverFires(w: Wheel, inputs: seq<Input>, x: Timer)
    requires inputs != [] && Awaits(w, inputs, x) && x.nexttime < w.tick
    ensures FiresOnce(LastFired(w, inputs), x.id, false)
  {
    FiresInItsTicks(w, inputs, x);
  }

  /** A repeating timer of period zero fires at its time, once more a whole round later, and
      in no other tick of any run, however often it should repeat. */
  lemma ZeroPeriodFiresTwice(w: Wheel, inputs: seq<Input>, x: Timer)
    requires inputs != [] && Awaits(w, inputs, x) && w.tick <= x.nexttime && !x.Sound()
    ensures var tick := w.tick + |inputs| - 1;
      FiresOnce(LastFired(w, inputs), x.id, tick == x.nexttime || tick == x.nexttime + NEAR_SLOTS)
  {
    FiresInItsTicks(w, inputs, x);
  }

  /** The last tick of the run fires the timer exactly if that is on its schedule. */
  ghost predicate KeepsSchedule(w: Wheel, inputs: seq<Input>, x: Timer) {
    inputs != [] && Awaits(w, inputs, x) ==>
      FiresOnce(LastFired(w, inputs), x.id, OnSchedule(x, w.tick + |inputs| - 1))
  }

  /** A timer that is loaded in time keeps its schedule in every run exactly if its period
      is at least one tick or it fires only once. */
  lemma OnScheduleIffPeriod(w: Wheel, x: Timer)
    requires Inv(w) && Follow(w, x.id, Back(x)) && x.InRange() && w.tick <= x.nexttime
    requires x.nexttime + NEAR_SLOTS + 1 < HORIZON
    ensures (forall inputs :: KeepsSchedule(w, inputs, x)) <==> 1 <= x.timeout || x.repeats == 0 || x.repeats == 1
  {
    if x.Sound() {
      forall inputs
        ensures KeepsSchedule(w, inputs, x)
      {
        if inputs != [] && Awaits(w, inputs, x) {
          FiresExactlyOnSchedule(w, inputs, x);
        }
      }
    } else {
      var n := x.nexttime + NEAR_SLOTS - w.tick + 1;
      var inputs := seq(n, _ => Input([], _ => true));
      assert Awaits(w, inputs, x);
      ZeroPeriodFiresTwice(w, inputs, x);
      assert forall k: nat :: FiringTime(x, k) == x.nexttime;
      assert !KeepsSchedule(w, inputs, x);
    }
  }

  // ---------------------------------------------------------------------------
  // From a new wheel
  // ---------------------------------------------------------------------------

  lemma {:induction false} EmptySlots(near: seq<seq<Timer>>, id: nat)
    requires forall i :: 0 <= i < |near| ==> near[i] == []
    ensures MineNear(near, id) == multiset{}
    decreases |near|
  {
    if near != [] {
      EmptySlots(near[..|near| - 1], id);
    }
  }

  /** As long as no timer with this id is added, there is none, and none fires. */
  lemma {:induction false} NotYetAdded(inputs: seq<Input>, id: nat)
    requires Spared(inputs, id)
    ensures Inv(Exec(Init(), inputs)) && Follow(Exec(Init(), inputs), id, Nowhere)
    ensures inputs != [] ==> FiresOnce(LastFired(Init(), inputs), id, false)
    decreases |inputs|
  {
    InitInv();
    ExecInv(Init(), inputs);
    if inputs == [] {
      EmptySlots(Init().near, id);
    } else {
      var front, last := inputs[..|inputs| - 1], inputs[|inputs| - 1];
      NotYetAdded(front, id);
      ExecInv(Init(), front);
      FollowInput(Exec(Init(), front), last, id, Nowhere, |front|);
    }
  }

  lemma {:induction false} MineJoins(timers: seq<Timer>, others: seq<Timer>, id: nat)
    ensures Mine(timers + others, id) == Mine(timers, id) + Mine(others, id)
    decreases |others|
  {
    if others == [] {
      assert timers + others == timers;
    } else {
      var n := |others| - 1;
      assert (timers + others)[..|timers + others| - 1] == timers + others[..n];
      MineJoins(timers, others[..n], id);
    }
  }

  lemma {:induction false} MineOnly(timers: seq<Timer>, j: nat)
    requires j < |timers| && forall k :: 0 <= k < |timers| && timers[k].id == timers[j].id ==> k == j
    ensures Mine(timers, timers[j].id) == multiset{timers[j]}
    decreases |timers|
  {
    var n := |timers| - 1;
    if j < n {
      MineOnly(timers[..n], j);
    } else {
      MineNone(timers[..n], timers[j].id);
    }
  }

  lemma {:induction false} MineNone(timers: seq<Timer>, id: nat)
    requires forall k :: 0 <= k < |timers| ==> timers[k].id != id
    ensures Mine(timers, id) == multiset{}
    decreases |timers|
  {
    if timers != [] {
      MineNone(timers[..|timers| - 1], id);
    }
  }

  /** Timer `j` of those added before tick `n` is the only one that ever has its id. */
  ghost predicate AddedOnce(inputs: seq<Input>, n: nat, j: nat) {
    && n < |inputs| && j < |inputs[n].adds|
    && forall i, k :: 0 <= i < |inputs| && 0 <= k < |inputs[i].adds| && inputs[i].adds[k].id == inputs[n].adds[j].id ==>
         i == n && k == j
  }

  /** The run from number `n` on, with what is added before it added beforehand. */
  function Later(inputs: seq<Input>, n: nat, m: nat): seq<Input>
    requires n <= m < |inputs|
  {
    [Input([], inputs[n].keep)] + inputs[n + 1..m + 1]
  }

  lemma {:induction false} LaterIsSame(w: Wheel, inputs: seq<Input>, n: nat, m: nat)
    requires w.Shaped() && n <= m < |inputs|
    ensures Exec(w, inputs[..m + 1])
         == Exec(WithAdds(Exec(w, inputs[..n]), inputs[n]), Later(inputs, n, m))
    ensures LastFired(w, inputs[..m + 1])
         == LastFired(WithAdds(Exec(w, inputs[..n]), inputs[n]), Later(inputs, n, m))
    decreases m
  {
    hide Tick, Fired;
    var start := WithAdds(Exec(w, inputs[..n]), inputs[n]);
    assert inputs[..m + 1][..m] == inputs[..m];
    if m == n {
      assert Later(inputs, n, m)[..0] == [] && WithAdds(start, Input([], inputs[n].keep)) == start;
    } else {
      LaterIsSame(w, inputs, n, m - 1);
      assert Later(inputs, n, m)[..m - n] == Later(inputs, n, m - 1) && Later(inputs, n, m)[m - n] == inputs[m];
    }
  }

  /** Before the tick that loads it, the timer waits among any others. */
  lemma AddedWaits(inputs: seq<Input>, n: nat, j: nat)
    requires AddedOnce(inputs, n, j)
    ensures var x, w := inputs[n].adds[j], WithAdds(Exec(Init(), inputs[..n]), inputs[n]);
      Inv(w) && w.tick == n && Follow(w, x.id, Back(x))
  {
    hide Tick;
    var x, before := inputs[n].adds[j], Exec(Init(), inputs[..n]);
    NotYetAdded(inputs[..n], x.id);
    MineJoins(before.back, inputs[n].adds, x.id);
    MineOnly(inputs[n].adds, j);
  }

  lemma LaterSpares(inputs: seq<Input>, n: nat, j: nat, m: nat)
    requires AddedOnce(inputs, n, j) && n <= m < |inputs|
    requires forall i :: n <= i <= m ==> inputs[i].keep(inputs[n].adds[j].id)
    ensures Spared(Later(inputs, n, m), inputs[n].adds[j].id)
    ensures forall i :: 0 <= i < |Later(inputs, n, m)| ==> Later(inputs, n, m)[i].keep(inputs[n].adds[j].id)
  {
    var later := Later(inputs, n, m);
    forall i | 0 <= i < |later|
      ensures later[i] == if i == 0 then Input([], inputs[n].keep) else inputs[n + i]
    {
    }
  }

  /** In a run from a new wheel, every timer fires in the ticks that it should fire in (see
      `Fires`), from the tick on before which it was added. */
  lemma NewWheelFires(inputs: seq<Input>, n: nat, j: nat, m: nat)
    requires AddedOnce(inputs, n, j) && inputs[n].adds[j].InRange() && m < |inputs| < HORIZON
    requires forall i :: n <= i <= m ==> inputs[i].keep(inputs[n].adds[j].id)
    ensures FiresOnce(LastFired(Init(), inputs[..m + 1]), inputs[n].adds[j].id,
      n <= m && Fires(inputs[n].adds[j], n, m))
  {
    hide FiresOnce, LastFired, Exec, Fires, Inv, Follow;
    var x := inputs[n].adds[j];
    if m < n {
      assert Spared(inputs[..m + 1], x.id);
      NotYetAdded(inputs[..m + 1], x.id);
    } else {
      AddedWaits(inputs, n, j);
      LaterSpares(inputs, n, j, m);
      FiresInItsTicks(WithAdds(Exec(Init(), inputs[..n]), inputs[n]), Later(inputs, n, m), x);
      LaterIsSame(Init(), inputs, n, m);
    }
  }

  /** A timer that is added to a running wheel is loaded in time, and fires on schedule. */
  lemma NewWheelKeepsSchedule(inputs: seq<Input>, n: nat, j: nat, m: nat)
    requires AddedOnce(inputs, n, j) && m < |inputs| < HORIZON
    requires inputs[n].adds[j].InRange() && inputs[n].adds[j].Sound() && n <= inputs[n].adds[j].nexttime
    requires forall i :: n <= i <= m ==> inputs[i].keep(inputs[n].adds[j].id)
    ensures FiresOnce(LastFired(Init(), inputs[..m + 1]), inputs[n].adds[j].id, OnSchedule(inputs[n].adds[j], m))
  {
    var x := inputs[n].adds[j];
    NewWheelFires(inputs, n, j, m);
    if m < n && OnSchedule(x, m) {
      var k: nat :| FiringTime(x, k) == m && HasFiring(x, k);
      ProductIsNatural(k, x.timeout);
      assert false;
    }
  }

  /** When is a timer loaded in time?  `loadedAt` is the tick that loads it, at or after the
      tick count that `add_timer` read: the ticks in between must fit in the timeout of a
      delayed timer, and there must be none for a timer without delay. */
  lemma AddedInTime(w: Wheel, ticktime: nat, id: nat, delay: bool, timeout: nat, repeats: int, loadedAt: nat)
    requires 0 < ticktime && w.tick <= loadedAt
    ensures var back := AddTimer(w, ticktime, id, delay, timeout, repeats).back;
      loadedAt <= back[|back| - 1].nexttime <==>
        if delay then (loadedAt - w.tick) * ticktime <= timeout else loadedAt == w.tick
  {
    var late, ticks := loadedAt - w.tick, timeout / ticktime;
    assert timeout == ticks * ticktime + timeout % ticktime;
    if late <= ticks {
      ProductIsNatural(ticks - late, ticktime);
      assert ticks * ticktime == late * ticktime + (ticks - late) * ticktime;
    } else {
      ProductIsNatural(late - ticks - 1, ticktime);
      assert late * ticktime == ticks * ticktime + (late - ticks - 1) * ticktime + ticktime;
    }
  }
}
