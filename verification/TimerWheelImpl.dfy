/** The timing wheel as it is: an array of linked lists that are walked and relinked in
    place.  Each method is proved to compute what `TimeWheel` defines on values. */
module TimerWheelImpl {
  import opened Arith
  import opened Machine
  import opened TimerList
  import TimeWheel

  const NEAR := TimeWheel.NEAR_SLOTS
  const HANGING: nat := NEAR
  const CHANGE: nat := NEAR + 1
  /** `home` of a node that is in none of the wheel's lists. */
  const NOWHERE: nat := NEAR + 3

  ghost function Timers(nodes: seq<TimerNode>): (r: seq<TimeWheel.Timer>)
    reads nodes`timer
    ensures |r| == |nodes| && forall i :: 0 <= i < |nodes| ==> r[i] == nodes[i].timer
  {
    if nodes == [] then [] else Timers(nodes[..|nodes| - 1]) + [nodes[|nodes| - 1].timer]
  }

  /** The branches of `readd_timer`: the list a timer goes to. */
  function ListFor(nexttime: nat, tickcount: nat): (j: nat)
    ensures j <= HANGING
  {
    var distance := (nexttime - tickcount) % UINT64_WRAP;
    if distance >= NEAR then HANGING
    else if distance > 0 then nexttime % NEAR
    else tickcount % NEAR
  }

  lemma ListForTimer(t: TimeWheel.Timer, tickcount: nat)
    ensures t.IsNear(tickcount) <==> ListFor(t.nexttime, tickcount) != HANGING
    ensures t.IsNear(tickcount) ==> t.Slot(tickcount) == ListFor(t.nexttime, tickcount)
  {
  }

  class Wheel {
    const ticktime: nat
    /** The 4096 near slots, the overflow list and the two change lists, in this order. */
    const lists: seq<TimerList>
    var frontidx: bool
    var tickcount: nat
    var stopped: bool
    ghost const coreLists: set<TimerList>   // all but the change lists
    ghost var repr: set<TimerNode>   // the nodes that were ever added

    constructor (ticktime: nat)
      requires 0 < ticktime
      ensures Idle() && Value() == TimeWheel.Init() && repr == {} && this.ticktime == ticktime && !stopped
      ensures fresh(lists) && fresh(coreLists)
    {
      var all: seq<TimerList> := [];
      ghost var core: set<TimerList> := {};
      while |all| < NEAR + 3
        invariant |all| <= NEAR + 3
        invariant forall i :: 0 <= i < |all| ==>
          fresh(all[i]) && all[i].number == i && all[i].Valid() && all[i].nodes == []
        invariant forall i :: 0 <= i < |all| ==> (all[i] in core <==> i <= HANGING)
        invariant forall l :: l in core ==> fresh(l) && l.number <= HANGING
      {
        var list := new TimerList(|all|);
        if |all| <= HANGING {
          core := core + {list};
        }
        all := all + [list];
      }
      lists := all;
      coreLists := core;
      repr := {};
      this.ticktime := ticktime;
      frontidx, tickcount, stopped := false, 0, false;
      new;
      assert forall i :: 0 <= i < |lists| ==> Content(i) == [];
      CoreIs(TimeWheel.Init());
    }

    function FrontIndex(): nat
      reads this
    {
      if frontidx then CHANGE + 1 else CHANGE
    }

    function BackIndex(): nat
      reads this
    {
      if frontidx then CHANGE else CHANGE + 1
    }

    ghost predicate Owned(i: nat)
      requires i < |lists|
      reads `repr, lists[i]
    {
      forall n :: n in lists[i].nodes ==> n in repr
    }

    ghost predicate ListOk(i: nat)
      requires i < |lists|
      reads lists[i], lists[i].nodes`prev, lists[i].nodes`next, lists[i].nodes`home
    {
      lists[i].Valid() && forall n :: n in lists[i].nodes ==> n.home == i
    }

    ghost predicate Fixed()
      reads `repr, lists, coreLists
    {
      && 0 < ticktime && |lists| == NEAR + 3
      && (forall i :: 0 <= i < |lists| ==> lists[i].number == i && Owned(i))
      && (forall i :: 0 <= i < |lists| ==> (lists[i] in coreLists <==> i <= HANGING))
      && (forall l :: l in coreLists ==> l.number <= HANGING)
    }

    ghost predicate OkBut(skip: nat)
      reads this, lists, coreLists, repr
    {
      Fixed() && forall i :: 0 <= i < |lists| && i != skip ==> Owned(i) && ListOk(i)
    }

    /** Every node in a list knows its list, so every node is in exactly one. */
    ghost predicate Valid()
      reads this, lists, coreLists, repr
    {
      OkBut(NOWHERE)
    }

    ghost function SlotTimers(n: nat): (r: seq<seq<TimeWheel.Timer>>)
      requires Fixed() && n <= |lists|
      reads `repr, lists, coreLists, repr`timer
      ensures |r| == n && forall i :: 0 <= i < n ==> r[i] == Content(i)
    {
      if n == 0 then []
      else
        assert Owned(n - 1);
        SlotTimers(n - 1) + [Content(n - 1)]
    }

    ghost function Content(i: nat): seq<TimeWheel.Timer>
      requires i < |lists|
      reads lists[i], lists[i].nodes`timer
    {
      Timers(lists[i].nodes)
    }

    /** The loaded part of the wheel. */
    ghost function Core(): (r: TimeWheel.Wheel)
      requires Fixed()
      reads `tickcount, `repr, lists, coreLists, repr`timer
      ensures r.Shaped()
    {
      assert Owned(HANGING);
      TimeWheel.Wheel(SlotTimers(NEAR), Content(HANGING), [], tickcount)
    }

    /** The abstract value of the wheel. */
    ghost function Value(): (r: TimeWheel.Wheel)
      requires Fixed()
      reads this, lists, coreLists, repr
      ensures r.Shaped()
    {
      assert Owned(BackIndex());
      Core().(back := Content(BackIndex()))
    }

    /** A list is as good as before if neither it nor its nodes were touched. */
    twostate lemma ListStays(i: nat)
      requires i < |lists| && old(Owned(i)) && old(ListOk(i)) && repr == old(repr) && unchanged(lists[i])
      requires forall n :: n in lists[i].nodes ==>
        n.next == old(n.next) && n.prev == old(n.prev) && n.home == old(n.home)
      ensures Owned(i) && ListOk(i)
    {
      hide Distinct;
      var ns := lists[i].nodes;
      forall k | 0 <= k < |ns|
        ensures ns[k].next == old(ns[k].next) && ns[k].prev == old(ns[k].prev) && ns[k].home == i && ns[k] in repr
      {
        assert ns[k] in ns;
      }
    }

    /** Appends a node that is in no list but perhaps list `skip` to list `j`. */
    method Push(t: TimerNode, l: TimerList, ghost j: nat, ghost skip: nat)
      requires OkBut(skip) && j < |lists| && j != skip && l == lists[j]
      requires t in repr && (t.home >= |lists| || t.home == skip)
      modifies l`head, l`count, l`nodes, t`prev, t`next, t`home, l.nodes`prev, l.nodes`next
      ensures OkBut(skip) && t.home == j
      ensures forall i :: 0 <= i < |lists| && i != j ==> lists[i].nodes == old(lists[i].nodes)
      ensures lists[j].nodes == old(lists[j].nodes) + [t]
    {
      hide Distinct;
      assert ListOk(j);
      l.PushBack(t);
      t.home := j;
      forall i | 0 <= i < |lists| && i != j
        ensures lists[i].nodes == old(lists[i].nodes) && Owned(i)
        ensures i != skip ==> ListOk(i)
      {
        assert old(Owned(i));
        if i != skip {
          assert old(ListOk(i));
          ListStays(i);
        }
      }
      assert Owned(j) && ListOk(j) by {
        assert old(Owned(j));
        forall n | n in l.nodes
          ensures n.home == j && n in repr
        {
          assert n == t || n in old(l.nodes);
        }
      }
    }

    /** `Push`, seen on the timers. */
    method Append(t: TimerNode, l: TimerList, ghost j: nat, ghost skip: nat)
      requires OkBut(skip) && j < |lists| && j != skip && l == lists[j]
      requires t in repr && (t.home >= |lists| || t.home == skip)
      modifies l`head, l`count, l`nodes, t`prev, t`next, t`home, l.nodes`prev, l.nodes`next
      ensures OkBut(skip) && t.home == j
      ensures forall i :: 0 <= i < |lists| && i != j ==> lists[i].nodes == old(lists[i].nodes)
      ensures forall i :: 0 <= i < |lists| && i != j ==> Content(i) == old(Content(i))
      ensures Content(j) == old(Content(j)) + [t.timer]
    {
      Push(t, l, j, skip);
      assert l.nodes[..|l.nodes| - 1] == old(l.nodes);
    }

    /** `readd_timer`.  The links of the nodes in `kept`, which are in none of the lists
        of the wheel proper, stay as they are. */
    method Readd(t: TimerNode, ghost skip: nat, ghost kept: seq<TimerNode>)
      requires OkBut(skip) && HANGING < skip
      requires t in repr && (t.home >= |lists| || t.home == skip)
      requires forall n :: n in kept ==> n.home > HANGING && n != t
      modifies coreLists`head, coreLists`count, coreLists`nodes,
               t`prev, t`next, t`home, repr`prev, repr`next
      ensures OkBut(skip) && t.home <= HANGING
      ensures forall i :: HANGING < i < |lists| ==>
        lists[i].nodes == old(lists[i].nodes) && Content(i) == old(Content(i))
      ensures forall n :: n in kept ==> n.next == old(n.next) && n.prev == old(n.prev) && n.home == old(n.home)
      ensures Core() == TimeWheel.Place(old(Core()), t.timer)
    {
      var j := ListFor(t.timer.nexttime, tickcount);
      assert lists[j] in coreLists && Owned(j) && ListOk(j);
      Append(t, lists[j], j, skip);
      CoreIsPlace(old(Core()), t.timer, j);
    }

    lemma CoreIsPlace(before: TimeWheel.Wheel, timer: TimeWheel.Timer, j: nat)
      requires Fixed() && before.Shaped() && before.back == [] && before.tick == tickcount
      requires j == ListFor(timer.nexttime, tickcount)
      requires forall i :: 0 <= i < NEAR ==> Content(i) == before.near[i] + (if i == j then [timer] else [])
      requires Content(HANGING) == before.hanging + (if j == HANGING then [timer] else [])
      ensures Core() == TimeWheel.Place(before, timer)
    {
      ListForTimer(timer, tickcount);
      var placed := TimeWheel.Place(before, timer);
      assert forall i :: 0 <= i < NEAR ==> Content(i) == placed.near[i];
      assert SlotTimers(NEAR) == placed.near;
    }
  
    /** Empties list `f` when all its nodes have been moved elsewhere. */
    method ClearList(l: TimerList, ghost f: nat)
      requires OkBut(f) && HANGING < f < |lists| && l == lists[f]
      modifies l`head, l`count, l`nodes
      ensures Valid() && l.nodes == []
      ensures forall i :: HANGING < i < |lists| && i != f ==> Content(i) == old(Content(i))
      ensures Core() == old(Core())
    {
      l.Clear();
      forall i | 0 <= i < |lists| && i != f
        ensures lists[i].nodes == old(lists[i].nodes) && Owned(i) && ListOk(i) && Content(i) == old(Content(i))
      {
        assert lists[i] != l;
        assert old(Owned(i)) && old(ListOk(i));
      }
      assert SlotTimers(NEAR) == old(SlotTimers(NEAR));
    }

    /** The part of a change list that the walk has not reached yet. */
    ghost predicate Pending(rest: seq<TimerNode>, f: nat)
      reads `repr, rest`next, rest`home
    {
      && Distinct(rest)
      && (forall k :: 0 <= k < |rest| ==> rest[k] in repr && rest[k].home == f)
      && (forall k :: 0 <= k < |rest| - 1 ==> rest[k].next == rest[k + 1])
    }

    /** One turn of the walk: the successor is read before the node is relinked. */
    method LoadOne(t: TimerNode, ghost f: nat, ghost rest: seq<TimerNode>, ghost all: seq<TimerNode>)
      returns (next: TimerNode?)
      requires OkBut(f) && HANGING < f < |lists| && rest != [] && rest[0] == t && Pending(rest, f)
      modifies coreLists`head, coreLists`count, coreLists`nodes, t`prev, t`next, t`home, repr`prev, repr`next
      ensures Timers(all) == old(Timers(all))
      ensures OkBut(f) && Pending(rest[1..], f) && (1 < |rest| ==> next == rest[1])
      ensures forall i :: HANGING < i < |lists| ==> Content(i) == old(Content(i))
      ensures Core() == TimeWheel.Place(old(Core()), t.timer)
    {
      next := t.next;
      assert forall k :: 0 <= k < |rest| - 1 ==> rest[1..][k] == rest[k + 1] && rest[k + 1] != t;
      Readd(t, f, rest[1..]);
    }

    /** The state of the walk over change list `f` before node `i` of its `chain`. */
    ghost predicate Walked(f: nat, chain: seq<TimerNode>, i: nat, t: TimerNode?,
                           core: TimeWheel.Wheel, loaded: seq<TimeWheel.Timer>)
      reads this, lists, coreLists, repr, chain
    {
      && OkBut(f) && HANGING < f < |lists|
      && i <= |chain| == |loaded| && Timers(chain) == loaded
      && (i < |chain| ==> t == chain[i])
      && Pending(chain[i..], f)
      && core.Shaped() && Core() == TimeWheel.Load(core, loaded[..i])
    }

    method WalkOne(f: nat, t: TimerNode, ghost chain: seq<TimerNode>, ghost i: nat,
                   ghost core: TimeWheel.Wheel, ghost loaded: seq<TimeWheel.Timer>)
      returns (next: TimerNode?)
      requires Walked(f, chain, i, t, core, loaded) && i < |chain|
      modifies coreLists`head, coreLists`count, coreLists`nodes,
        repr`prev, repr`next, repr`home
      ensures Walked(f, chain, i + 1, next, core, loaded)
      ensures forall j :: HANGING < j < |lists| ==> Content(j) == old(Content(j))
    {
      ghost var rest := chain[i..];
      assert t == rest[0] && t in repr;
      assert Timers(chain)[i] == t.timer;
      next := LoadOne(t, f, rest, chain);
      assert rest[1..] == chain[i + 1..];
      TimeWheel.LoadOneMore(core, loaded, i);
    }

    lemma WalkStarts(f: nat)
      requires Valid() && HANGING < f < |lists|
      ensures Walked(f, lists[f].nodes, 0, lists[f].head, Core(), Content(f))
      ensures lists[f].count == |lists[f].nodes|
    {
      assert ListOk(f) && Owned(f);
      var chain := lists[f].nodes;
      assert chain[0..] == chain && Pending(chain, f);
      assert Content(f)[..0] == [];
    }

    /** Moves every node of change list `f` to its list in the wheel. */
    method MoveNodes(f: nat)
      requires Valid() && HANGING < f < |lists|
      modifies coreLists`head, coreLists`count, coreLists`nodes,
        repr`prev, repr`next, repr`home
      ensures OkBut(f)
      ensures forall i :: HANGING < i < |lists| ==> Content(i) == old(Content(i))
      ensures Core() == TimeWheel.Load(old(Core()), old(Content(f)))
    {
      WalkStarts(f);
      ghost var chain, loaded, core := lists[f].nodes, Content(f), Core();
      var i, count := 0, lists[f].count;
      var t := lists[f].head;
      while i < count
        invariant i <= count == |chain| && Walked(f, chain, i, t, core, loaded)
        invariant forall j :: HANGING < j < |lists| ==> Content(j) == old(Content(j))
      {
        t := WalkOne(f, t, chain, i, core, loaded);
        i := i + 1;
      }
      assert loaded[..count] == loaded;
    }

    /** `load_timers`. */
    method LoadTimers()
      requires Valid()
      modifies lists`head, lists`count, lists`nodes, coreLists`head, coreLists`count, coreLists`nodes,
        repr`prev, repr`next, repr`home
      ensures Valid() && lists[FrontIndex()].nodes == []
      ensures Content(BackIndex()) == old(Content(BackIndex()))
      ensures Core() == TimeWheel.Load(old(Core()), old(Content(FrontIndex())))
    {
      MoveNodes(FrontIndex());
      ClearList(lists[FrontIndex()], FrontIndex());
    }
  
    /** Nodes that are in none of the wheel's lists. */
    ghost predicate Detached(nodes: seq<TimerNode>)
      reads `repr, nodes`home
    {
      forall n :: n in nodes ==> n in repr && n.home == NOWHERE
    }

    /** Takes the timers that are due out of their slot, into `active`. */
    method TakeSlot(active: TimerList, l: TimerList, ghost offset: nat)
      requires Valid() && offset < NEAR && l == lists[offset]
      requires active.Valid() && active.nodes == [] && active.number > NOWHERE
      modifies l`head, l`count, l`nodes, active`head, active`count, active`nodes, repr`home
      ensures Valid() && active.Valid() && active.nodes == old(l.nodes) && Detached(active.nodes)
      ensures forall i :: 0 <= i < |lists| && i != offset ==> lists[i].nodes == old(lists[i].nodes)
      ensures l.nodes == []
    {
      assert ListOk(offset) && Owned(offset);
      active.Swap(l);
      ghost var taken := active.nodes;
      forall n | n in taken {
        n.home := NOWHERE;
      }
      forall i | 0 <= i < |lists| && i != offset
        ensures lists[i].nodes == old(lists[i].nodes) && Owned(i) && ListOk(i)
      {
        assert lists[i] != l && lists[i] != active;
        assert old(Owned(i)) && old(ListOk(i));
        assert forall n :: n in lists[i].nodes ==> n !in taken;
      }
    }

    /** Unlinks one of the timers being handled. */
    method PopActive(active: TimerList, t: TimerNode, ghost k: nat)
      requires Valid() && active.Valid() && active.number > NOWHERE
      requires Detached(active.nodes) && k < |active.nodes| && active.nodes[k] == t
      modifies active`head, active`count, active`nodes, active.nodes`prev, active.nodes`next
      ensures Valid() && active.Valid()
      ensures active.nodes == old(active.nodes)[..k] + old(active.nodes)[k + 1..]
      ensures forall i :: 0 <= i < |lists| ==> lists[i].nodes == old(lists[i].nodes)
    {
      active.Pop(t, k);
      forall i | 0 <= i < |lists|
        ensures lists[i].nodes == old(lists[i].nodes) && Owned(i) && ListOk(i)
      {
        assert lists[i] != active;
        assert old(Owned(i)) && old(ListOk(i));
        ListStays(i);
      }
    }
  
    /** The contents of the lists determine the loaded part. */
    lemma CoreIs(w: TimeWheel.Wheel)
      requires Fixed() && w.Shaped() && w.back == [] && w.tick == tickcount
      requires forall i :: 0 <= i < NEAR ==> Content(i) == w.near[i]
      requires Content(HANGING) == w.hanging
      ensures Core() == w
    {
      assert SlotTimers(NEAR) == w.near;
    }

    /** `TakeSlot`, seen on the timers. */
    method TakeDue(active: TimerList)
      requires Valid()
      requires active.Valid() && active.nodes == [] && active.number > NOWHERE
      modifies coreLists`head, coreLists`count, coreLists`nodes, active`head, active`count, active`nodes, repr`home
      ensures Valid() && active.Valid() && Detached(active.nodes)
      ensures Timers(active.nodes) == TimeWheel.DueSlot(old(Core()))
      ensures Core() == old(Core()).(near := old(Core()).near[tickcount % NEAR := []])
    {
      var offset := tickcount % NEAR;
      assert lists[offset] in coreLists && Owned(offset);
      ghost var w := Core().(near := Core().near[offset := []]);
      TakeSlot(active, lists[offset], offset);
      assert Content(offset) == [];
      CoreIs(w);
    }
  
    /** Counts a firing of a timer that is in no list; `again` if it is to fire again. */
    method Renew(t: TimerNode, ghost others: seq<TimerNode>) returns (again: bool)
      requires Valid() && t in repr && t.home == NOWHERE && t !in others
      modifies t`timer
      ensures Valid() && Core() == old(Core())
      ensures again == TimeWheel.Rearm(old(t.timer)).Some?
      ensures again ==> t.timer == TimeWheel.Rearm(old(t.timer)).value
      ensures Timers(others) == old(Timers(others))
    {
      ghost var w := Core();
      if t.timer.repeats > 0 {
        t.timer := t.timer.(repeats := t.timer.repeats - 1);
      }
      again := t.timer.repeats != 0;
      if again {
        t.timer := t.timer.(nexttime := t.timer.nexttime + t.timer.timeout);
      }
      forall i | 0 <= i < |lists|
        ensures Content(i) == old(Content(i))
      {
        assert old(Owned(i)) && old(ListOk(i));
        assert t !in lists[i].nodes;
      }
      CoreIs(w);
    }

    /** `readd_timer` during `handle_timer`: the timers still to be handled stay as they are. */
    method ReaddBeside(active: TimerList, t: TimerNode, ghost others: seq<TimerNode>)
      requires Valid() && active.Valid() && active.number > NOWHERE
      requires t in repr && t.home == NOWHERE && t !in active.nodes && Detached(active.nodes)
      modifies coreLists`head, coreLists`count, coreLists`nodes, t`prev, t`next, t`home, repr`prev, repr`next
      ensures Valid() && active.Valid() && active.nodes == old(active.nodes) && Detached(active.nodes)
      ensures Timers(others) == old(Timers(others))
      ensures Core() == TimeWheel.Place(old(Core()), t.timer)
    {
      ghost var ns := active.nodes;
      assert active !in coreLists;
      Readd(t, NOWHERE, ns);
      assert active.nodes == ns && Ring(ns) && Detached(ns);
    }

    /** `PopActive`, for the node the walk has reached. */
    method Unlink(active: TimerList, t: TimerNode, ghost stay: seq<TimerNode>, ghost rest: seq<TimerNode>)
      requires Valid() && active.Valid() && active.number > NOWHERE
      requires rest != [] && rest[0] == t && active.nodes == stay + rest && Detached(active.nodes)
      modifies active`head, active`count, active`nodes, active.nodes`prev, active.nodes`next
      ensures Valid() && active.Valid() && active.nodes == stay + rest[1..] && Detached(active.nodes)
      ensures t in repr && t.home == NOWHERE && t !in active.nodes && t !in rest[1..]
      ensures Core() == old(Core())
    {
      hide Distinct, ListOk, SlotTimers;
      ghost var all := active.nodes;
      assert all[|stay|] == t;
      assert active !in lists;
      WithoutOne(all, |stay|);
      assert stay + rest[1..] == all[..|stay|] + all[|stay| + 1..];
      PopActive(active, t, |stay|);
      assert forall n :: n in rest[1..] ==> n in active.nodes;
    }

    /** A timer whose handler returned true: unlinked, counted and perhaps put back. */
    method FireKept(active: TimerList, t: TimerNode, ghost stay: seq<TimerNode>, ghost rest: seq<TimerNode>)
      requires Valid() && active.Valid() && active.number > NOWHERE
      requires rest != [] && rest[0] == t && active.nodes == stay + rest && Detached(active.nodes)
      modifies coreLists`head, coreLists`count, coreLists`nodes,
               active`head, active`count, active`nodes, repr`prev, repr`next, repr`home, repr`timer
      ensures Valid() && active.Valid() && active.nodes == stay + rest[1..] && Detached(active.nodes)
      ensures Timers(rest[1..]) == old(Timers(rest[1..]))
      ensures var again := TimeWheel.Rearm(old(t.timer));
        Core() == if again.Some? then TimeWheel.Place(old(Core()), again.value) else old(Core())
    {
      hide ListOk, Core, SlotTimers;
      assert forall n :: n in active.nodes ==> n in repr;
      Unlink(active, t, stay, rest);
      var again := Renew(t, rest[1..]);
      if again {
        ReaddBeside(active, t, rest[1..]);
      }
    }

    /** One turn of `handle_timer`: the successor is read first and the handler is called; a
        timer whose handler returns false is freed without being unlinked. */
    method FireOne(active: TimerList, t: TimerNode, keep: nat -> bool,
                   ghost stay: seq<TimerNode>, ghost rest: seq<TimerNode>)
      returns (next: TimerNode?, called: TimeWheel.Timer, ghost stay': seq<TimerNode>)
      requires Valid() && active.Valid() && active.number > NOWHERE
      requires rest != [] && rest[0] == t && active.nodes == stay + rest && Detached(active.nodes)
      modifies coreLists`head, coreLists`count, coreLists`nodes,
               active`head, active`count, active`nodes, repr`prev, repr`next, repr`home, repr`timer
      ensures Valid() && active.Valid()
      ensures active.nodes == stay' + rest[1..] && Detached(active.nodes)
      ensures 1 < |rest| ==> next == rest[1]
      ensures called == old(t.timer)
      ensures Timers(rest[1..]) == old(Timers(rest[1..]))
      ensures var timer := old(t.timer); var again := TimeWheel.Rearm(timer);
        Core() == if keep(timer.id) && again.Some? then TimeWheel.Place(old(Core()), again.value) else old(Core())
    {
      assert active.nodes[|stay|] == t;
      next := t.next;
      called := t.timer;
      if keep(called.id) {
        stay' := stay;
        FireKept(active, t, stay, rest);
      } else {
        stay' := stay + [t];
        assert active.nodes == stay' + rest[1..];
      }
    }
  
    /** The state of the walk over the timers being handled, before number `i`. */
    ghost predicate Handling(active: TimerList, chain: seq<TimerNode>, stay: seq<TimerNode>, i: nat, t: TimerNode?,
                             cleared: TimeWheel.Wheel, due: seq<TimeWheel.Timer>, keep: nat -> bool)
      reads this, lists, coreLists, repr, active, active.nodes, chain
    {
      && Valid() && active.Valid() && active.number > NOWHERE
      && i <= |chain| == |due| && active.nodes == stay + chain[i..] && Detached(active.nodes)
      && (i < |chain| ==> t == chain[i])
      && Timers(chain[i..]) == due[i..]
      && cleared.Shaped() && Core() == TimeWheel.Load(cleared, TimeWheel.Rearmed(due[..i], keep))
    }

    method HandleOne(active: TimerList, t: TimerNode, keep: nat -> bool, ghost chain: seq<TimerNode>,
                     ghost stay: seq<TimerNode>, ghost i: nat,
                     ghost cleared: TimeWheel.Wheel, ghost due: seq<TimeWheel.Timer>, fired: seq<TimeWheel.Timer>)
      returns (next: TimerNode?, fired': seq<TimeWheel.Timer>, ghost stay': seq<TimerNode>)
      requires Handling(active, chain, stay, i, t, cleared, due, keep) && i < |chain| && fired == due[..i]
      modifies coreLists`head, coreLists`count, coreLists`nodes,
               active`head, active`count, active`nodes, repr`prev, repr`next, repr`home, repr`timer
      ensures Handling(active, chain, stay', i + 1, next, cleared, due, keep)
      ensures i + 1 < |chain| ==> next == chain[i + 1]
      ensures i + 1 <= |due| && fired' == due[..i + 1]
    {
      hide TimeWheel.Load;
      ghost var rest := chain[i..];
      NextOf(chain, i);
      NextOf(due, i);
      assert Timers(rest)[0] == t.timer;
      TimersTail(rest);
      var called;
      next, called, stay' := FireOne(active, t, keep, stay, rest);
      fired' := fired + [called];
      TimeWheel.RearmOneMore(cleared, due, keep, i);
    }

    lemma NextOf<T>(s: seq<T>, i: nat)
      requires i < |s|
      ensures s[i..][0] == s[i] && s[i..][1..] == s[i + 1..] && s[..i] + [s[i]] == s[..i + 1]
      ensures i + 1 < |s| ==> s[i..][1] == s[i + 1]
    {
    }

    lemma TimersTail(nodes: seq<TimerNode>)
      requires nodes != []
      ensures Timers(nodes[1..]) == Timers(nodes)[1..]
    {
    }

    lemma HandlingStarts(active: TimerList, core: TimeWheel.Wheel, due: seq<TimeWheel.Timer>, keep: nat -> bool)
      requires Valid() && active.Valid() && active.number > NOWHERE && Detached(active.nodes)
      requires Timers(active.nodes) == due && Core() == core
      ensures Handling(active, active.nodes, [], 0, active.head, core, due, keep)
      ensures active.count == |active.nodes| == |due|
      ensures active.nodes != [] ==> active.head == active.nodes[0]
    {
      var chain := active.nodes;
      assert [] + chain[0..] == chain && due[0..] == due && due[..0] == [];
    }

    lemma HandlingEnds(active: TimerList, chain: seq<TimerNode>, stay: seq<TimerNode>, t: TimerNode?,
                       cleared: TimeWheel.Wheel, due: seq<TimeWheel.Timer>, keep: nat -> bool)
      requires Handling(active, chain, stay, |chain|, t, cleared, due, keep)
      ensures Valid() && Core() == TimeWheel.Load(cleared, TimeWheel.Rearmed(due, keep))
      ensures |chain| == |due| && due[..|chain|] == due
    {
      assert due[..|chain|] == due;
    }

    /** The loop of `handle_timer`. */
    method WalkDue(active: TimerList, keep: nat -> bool, ghost chain: seq<TimerNode>,
                   ghost cleared: TimeWheel.Wheel, ghost due: seq<TimeWheel.Timer>)
      returns (fired: seq<TimeWheel.Timer>, t: TimerNode?, ghost stay: seq<TimerNode>)
      requires Handling(active, chain, [], 0, active.head, cleared, due, keep)
      requires active.count == |chain| == |due| && (chain != [] ==> active.head == chain[0])
      modifies coreLists`head, coreLists`count, coreLists`nodes,
               active`head, active`count, active`nodes, repr`prev, repr`next, repr`home, repr`timer
      ensures Handling(active, chain, stay, |chain|, t, cleared, due, keep) && fired == due
    {
      hide *;
      var i, count := 0, active.count;
      t, fired, stay := active.head, [], [];
      while i < count
        invariant i <= count == |chain| == |due| && Handling(active, chain, stay, i, t, cleared, due, keep)
        invariant (i < count ==> t == chain[i]) && fired == due[..i]
      {
        t, fired, stay := HandleOne(active, t, keep, chain, stay, i, cleared, due, fired);
        i := i + 1;
      }
    }

    /** The walk of `handle_timer`. */
    method HandleActive(active: TimerList, keep: nat -> bool) returns (fired: seq<TimeWheel.Timer>)
      requires Valid() && active.Valid() && active.number > NOWHERE && Detached(active.nodes)
      modifies coreLists`head, coreLists`count, coreLists`nodes,
               active`head, active`count, active`nodes, repr`prev, repr`next, repr`home, repr`timer
      ensures Valid()
      ensures Core() == TimeWheel.Load(old(Core()), TimeWheel.Rearmed(old(Timers(active.nodes)), keep))
      ensures fired == old(Timers(active.nodes))
    {
      hide TimeWheel.Load, Handling, ListOk, SlotTimers;
      ghost var chain, cleared, due := active.nodes, Core(), Timers(active.nodes);
      HandlingStarts(active, cleared, due, keep);
      var t;
      ghost var stay;
      fired, t, stay := WalkDue(active, keep, chain, cleared, due);
      HandlingEnds(active, chain, stay, t, cleared, due, keep);
    }

    method HandleDue(active: TimerList, keep: nat -> bool) returns (fired: seq<TimeWheel.Timer>)
      requires Valid() && active.Valid() && active.nodes == [] && active.number > NOWHERE
      modifies coreLists`head, coreLists`count, coreLists`nodes,
               active`head, active`count, active`nodes, repr`prev, repr`next, repr`home, repr`timer
      ensures Valid() && Core() == TimeWheel.Handle(old(Core()), keep)
      ensures fired == TimeWheel.DueSlot(old(Core()))
    {
      ghost var core := Core();
      TakeDue(active);
      ghost var cleared, due := Core(), Timers(active.nodes);
      fired := HandleActive(active, keep);
      TimeWheel.HandleIs(core, due, keep);
      assert Core() == TimeWheel.Load(cleared, TimeWheel.Rearmed(due, keep));
    }

    /** `handle_timer`; `keep` holds what the handlers return, `fired` the timers whose
        handlers were called, in order. */
    method HandleTimer(keep: nat -> bool) returns (fired: seq<TimeWheel.Timer>)
      requires Valid()
      modifies coreLists`head, coreLists`count, coreLists`nodes,
               repr`prev, repr`next, repr`home, repr`timer
      ensures Valid() && Core() == TimeWheel.Handle(old(Core()), keep)
      ensures fired == TimeWheel.DueSlot(old(Core()))
    {
      var active := new TimerList(NOWHERE + 1);
      assert Core() == old(Core());
      fired := HandleDue(active, keep);
    }

    /** Unlinks a node of the overflow list. */
    method PopHanging(t: TimerNode, l: TimerList, ghost k: nat)
      requires Valid() && l == lists[HANGING] && k < |l.nodes| && l.nodes[k] == t
      modifies l`head, l`count, l`nodes, t`home, l.nodes`prev, l.nodes`next
      ensures Valid() && t.home == NOWHERE && t in repr
      ensures lists[HANGING].nodes == old(l.nodes)[..k] + old(l.nodes)[k + 1..]
      ensures forall i :: 0 <= i < |lists| && i != HANGING ==> lists[i].nodes == old(lists[i].nodes)
    {
      hide Distinct;
      assert ListOk(HANGING) && Owned(HANGING);
      ghost var all := l.nodes;
      WithoutOne(all, k);
      l.Pop(t, k);
      t.home := NOWHERE;
      forall n | n in l.nodes
        ensures n.home == HANGING && n in repr
      {
        assert n in all && n != t;
      }
      assert l.Valid() && Owned(HANGING) && ListOk(HANGING);
      forall i | 0 <= i < |lists| && i != HANGING
        ensures lists[i].nodes == old(lists[i].nodes) && Owned(i) && ListOk(i)
      {
        assert old(Owned(i)) && old(ListOk(i));
        ListStays(i);
      }
    }

    /** The near slots are those of `r`. */
    ghost predicate NearIs(r: TimeWheel.Wheel)
      requires Fixed() && r.Shaped()
      reads `repr, lists, coreLists, repr
    {
      forall i :: 0 <= i < NEAR ==> assert Owned(i); Content(i) == r.near[i]
    }

    method AppendNear(t: TimerNode, j: nat, ghost r: TimeWheel.Wheel)
      requires Valid() && j < NEAR && r.Shaped() && NearIs(r) && t in repr && t.home == NOWHERE
      modifies coreLists`head, coreLists`count, coreLists`nodes,
        repr`prev, repr`next, repr`home
      ensures Valid() && lists[HANGING].nodes == old(lists[HANGING].nodes)
      ensures NearIs(r.(near := r.near[j := r.near[j] + [t.timer]]))
    {
      assert Owned(j);
      Append(t, lists[j], j, NOWHERE);
    }

    /** Unlinks the node of the overflow list that the walk has reached. */
    method TakeHanging(t: TimerNode, ghost stay: seq<TimerNode>, ghost rest: seq<TimerNode>, ghost r: TimeWheel.Wheel)
      requires Valid() && r.Shaped() && NearIs(r)
      requires rest != [] && rest[0] == t && lists[HANGING].nodes == stay + rest
      modifies coreLists`head, coreLists`count, coreLists`nodes,
        repr`prev, repr`next, repr`home
      ensures Valid() && lists[HANGING].nodes == stay + rest[1..]
      ensures NearIs(r) && t in repr && t.home == NOWHERE
    {
      assert lists[HANGING].nodes[|stay|] == t && Owned(HANGING);
      PopHanging(t, lists[HANGING], |stay|);
    }

    /** Moves a node of the overflow list that has come near into its slot. */
    method MoveNear(t: TimerNode, j: nat, ghost stay: seq<TimerNode>, ghost rest: seq<TimerNode>,
                    ghost others: seq<TimerNode>, ghost r: TimeWheel.Wheel)
      requires Valid() && j < NEAR && r.Shaped() && NearIs(r)
      requires rest != [] && rest[0] == t && lists[HANGING].nodes == stay + rest
      modifies coreLists`head, coreLists`count, coreLists`nodes,
        repr`prev, repr`next, repr`home
      ensures Valid() && lists[HANGING].nodes == stay + rest[1..]
      ensures Timers(others) == old(Timers(others)) && Timers(stay) == old(Timers(stay))
      ensures NearIs(r.(near := r.near[j := r.near[j] + [t.timer]]))
    {
      hide ListOk, Core, SlotTimers, Ring;
      TakeHanging(t, stay, rest, r);
      AppendNear(t, j, r);
    }

    /** The state of the walk over the overflow list, before node `i` of its `chain`. */
    ghost predicate Regrouping(chain: seq<TimerNode>, stay: seq<TimerNode>, i: nat, t: TimerNode?,
                               w: TimeWheel.Wheel, taken: seq<TimeWheel.Timer>)
      reads this, lists, coreLists, repr, chain, stay
    {
      && Valid() && w.Shaped() && w.back == [] && w.tick == tickcount
      && i <= |chain| == |taken| && Timers(chain) == taken
      && lists[HANGING].nodes == stay + chain[i..]
      && (i < |chain| ==> t == chain[i])
      && NearIs(TimeWheel.Regroup(w, taken[..i]))
      && Timers(stay) == TimeWheel.Regroup(w, taken[..i]).hanging
    }

    /** One turn of `regroup_timers`. */
    method RegroupOne(t: TimerNode, ghost chain: seq<TimerNode>, ghost stay: seq<TimerNode>, ghost i: nat,
                      ghost w: TimeWheel.Wheel, ghost taken: seq<TimeWheel.Timer>)
      returns (next: TimerNode?, ghost stay': seq<TimerNode>)
      requires Regrouping(chain, stay, i, t, w, taken) && i < |chain|
      modifies coreLists`head, coreLists`count, coreLists`nodes,
        repr`prev, repr`next, repr`home
      ensures Regrouping(chain, stay', i + 1, next, w, taken)
      ensures i + 1 < |chain| ==> next == chain[i + 1]
    {
      hide TimeWheel.Regroup;
      ghost var rest, r := chain[i..], TimeWheel.Regroup(w, taken[..i]);
      assert lists[HANGING].nodes[|stay|] == t && rest[0] == t && taken[i] == t.timer && ListOk(HANGING);
      assert rest[1..] == chain[i + 1..];
      next := t.next;
      TimeWheel.RegroupOneMore(w, taken, i);
      ListForTimer(t.timer, tickcount);
      var j := ListFor(t.timer.nexttime, tickcount);
      if j != HANGING {
        stay' := stay;
        MoveNear(t, j, stay, rest, chain, r);
      } else {
        stay' := stay + [t];
        assert stay'[..|stay|] == stay;
        assert lists[HANGING].nodes == stay' + rest[1..];
      }
    }

    lemma RegroupingStarts()
      requires Valid()
      ensures Regrouping(lists[HANGING].nodes, [], 0, lists[HANGING].head, Core(), Content(HANGING))
      ensures var nodes := lists[HANGING].nodes;
        lists[HANGING].count == |nodes| && (nodes != [] ==> lists[HANGING].head == nodes[0])
    {
      assert ListOk(HANGING) && Owned(HANGING);
      var chain := lists[HANGING].nodes;
      assert [] + chain[0..] == chain && Content(HANGING)[..0] == [];
    }

    lemma RegroupingEnds(chain: seq<TimerNode>, stay: seq<TimerNode>, t: TimerNode?,
                         w: TimeWheel.Wheel, taken: seq<TimeWheel.Timer>)
      requires Regrouping(chain, stay, |chain|, t, w, taken)
      ensures Valid() && w.Shaped() && Core() == TimeWheel.Regroup(w, taken)
    {
      assert taken[..|chain|] == taken && stay + chain[|chain|..] == stay;
      CoreIs(TimeWheel.Regroup(w, taken));
    }

    /** The loop of `regroup_timers`. */
    method WalkHanging(head: TimerNode?, count: nat, ghost chain: seq<TimerNode>,
                       ghost w: TimeWheel.Wheel, ghost taken: seq<TimeWheel.Timer>)
      returns (t: TimerNode?, ghost stay: seq<TimerNode>)
      requires Regrouping(chain, [], 0, head, w, taken) && count == |chain| && (chain != [] ==> head == chain[0])
      modifies coreLists`head, coreLists`count, coreLists`nodes,
        repr`prev, repr`next, repr`home
      ensures Regrouping(chain, stay, |chain|, t, w, taken)
    {
      hide *;
      var i := 0;
      t, stay := head, [];
      while i < count
        invariant i <= count == |chain| && Regrouping(chain, stay, i, t, w, taken)
        invariant i < count ==> t == chain[i]
      {
        t, stay := RegroupOne(t, chain, stay, i, w, taken);
        i := i + 1;
      }
    }

    /** `regroup_timers`. */
    method RegroupTimers()
      requires Valid()
      modifies coreLists`head, coreLists`count, coreLists`nodes,
        repr`prev, repr`next, repr`home
      ensures Valid()
      ensures Core() == TimeWheel.Regroup(old(Core()), old(Core()).hanging)
    {
      hide TimeWheel.Regroup, Regrouping, ListOk, SlotTimers;
      RegroupingStarts();
      ghost var chain, w, taken := lists[HANGING].nodes, Core(), Content(HANGING);
      var t;
      ghost var stay;
      t, stay := WalkHanging(lists[HANGING].head, lists[HANGING].count, chain, w, taken);
      RegroupingEnds(chain, stay, t, w, taken);
    }

    /** Between two ticks the front change list is empty: it was loaded by the last one. */
    ghost predicate Idle()
      reads this, lists, coreLists, repr
    {
      Valid() && lists[FrontIndex()].nodes == []
    }

    lemma ValueIs(core: TimeWheel.Wheel, back: seq<TimeWheel.Timer>)
      requires Fixed() && Core() == core && Content(BackIndex()) == back
      ensures Value() == core.(back := back)
    {
    }

    /** `switch_changelist`. */
    method SwitchChangelist()
      requires Valid()
      modifies `frontidx
      ensures Valid() && frontidx == !old(frontidx) && Core() == old(Core())
      ensures Content(FrontIndex()) == old(Content(BackIndex())) && Content(BackIndex()) == old(Content(FrontIndex()))
    {
      ghost var core := Core();
      frontidx := !frontidx;
      CoreIs(core);
    }

    /** `++_tickcount`. */
    method CountTick()
      requires Valid()
      modifies `tickcount
      ensures Valid() && tickcount == old(tickcount) + 1
      ensures Core() == old(Core()).(tick := tickcount)
    {
      ghost var core := Core();
      tickcount := tickcount + 1;
      CoreIs(core.(tick := tickcount));
    }

    /** The end of `tick`. */
    method FinishTick()
      requires Valid()
      modifies `tickcount, coreLists`head, coreLists`count, coreLists`nodes,
        repr`prev, repr`next, repr`home
      ensures Valid() && Core() == TimeWheel.Advance(old(Core()))
    {
      ghost var handled := Core();
      CountTick();
      ghost var counted := Core();
      if tickcount % NEAR == 0 {
        RegroupTimers();
      }
      TimeWheel.AdvanceIs(handled, counted);
    }

    method LoadSwitched()
      requires Idle()
      modifies `frontidx, lists`head, lists`count, lists`nodes, coreLists`head, coreLists`count, coreLists`nodes,
        repr`prev, repr`next, repr`home
      ensures Valid() && Core() == TimeWheel.Loaded(old(Value()))
      ensures lists[FrontIndex()].nodes == [] && lists[BackIndex()].nodes == []
    {
      ghost var core, back := Core(), Content(BackIndex());
      ValueIs(core, back);
      SwitchChangelist();
      assert Content(BackIndex()) == [];
      LoadTimers();
      assert |Content(BackIndex())| == |lists[BackIndex()].nodes|;
      assert core.(back := back).(back := []) == core;
    }

    /** `tick` after the change list has been loaded. */
    method HandleAndCount(keep: nat -> bool) returns (fired: seq<TimeWheel.Timer>)
      requires Valid()
      modifies `tickcount, coreLists`head, coreLists`count, coreLists`nodes,
               repr`prev, repr`next, repr`home, repr`timer
      ensures Valid() && Core() == TimeWheel.Advance(TimeWheel.Handle(old(Core()), keep))
      ensures fired == TimeWheel.DueSlot(old(Core()))
    {
      fired := HandleTimer(keep);
      FinishTick();
    }

    /** `tick`: the linked lists do what `TimeWheel.Tick` does on values. */
    method Tick(keep: nat -> bool) returns (fired: seq<TimeWheel.Timer>)
      requires Idle()
      modifies `frontidx, `tickcount, lists`head, lists`count, lists`nodes,
               coreLists`head, coreLists`count, coreLists`nodes,
               repr`prev, repr`next, repr`home, repr`timer
      ensures Idle()
      ensures Value() == TimeWheel.Tick(old(Value()), keep)
      ensures fired == TimeWheel.Fired(old(Value()))
    {
      hide ListOk, SlotTimers;
      LoadSwitched();
      fired := HandleAndCount(keep);
      assert lists[FrontIndex()] !in coreLists && lists[BackIndex()] !in coreLists;
      assert Content(BackIndex()) == [];
      ValueIs(Core(), []);
    }

    /** `t->assign()` and the assignments that follow it, on a node that is in no list. */
    method Prepare(t: TimerNode, timer: TimeWheel.Timer)
      requires Valid() && t in repr && t.home == NOWHERE
      modifies t`timer
      ensures Valid() && t.timer == timer
      ensures Value() == old(Value())
    {
      ghost var core, back := Core(), Content(BackIndex());
      ValueIs(core, back);
      t.timer := timer;
      forall i | 0 <= i < |lists|
        ensures Content(i) == old(Content(i))
      {
        assert old(Owned(i)) && old(ListOk(i));
        assert t !in lists[i].nodes;
      }
      CoreIs(core);
      ValueIs(core, back);
    }

    method AddToChangelist(t: TimerNode)
      requires Valid() && t in repr && t.home == NOWHERE
      modifies lists`head, lists`count, lists`nodes, repr`prev, repr`next, repr`home
      ensures Valid()
      ensures lists[FrontIndex()].nodes == old(lists[FrontIndex()].nodes)
      ensures Value() == old(Value()).(back := old(Value()).back + [t.timer])
    {
      ghost var core, back := Core(), Content(BackIndex());
      assert Owned(BackIndex());
      ValueIs(core, back);
      Append(t, lists[BackIndex()], BackIndex(), NOWHERE);
      CoreIs(core);
      ValueIs(core, back + [t.timer]);
    }

    /** A node of the timer pool that is in no list becomes one of the wheel's. */
    ghost method Adopt(t: TimerNode)
      requires Valid() && (t in repr ==> t.home == NOWHERE)
      modifies `repr, t`home
      ensures Valid() && repr == old(repr) + {t} && t.home == NOWHERE
      ensures Value() == old(Value())
      ensures lists[FrontIndex()].nodes == old(lists[FrontIndex()].nodes)
    {
      var core, back := Core(), Content(BackIndex());
      ValueIs(core, back);
      forall i | 0 <= i < |lists|
        ensures Owned(i) && ListOk(i) && t !in lists[i].nodes
      {
      }
      repr := repr + {t};
      t.home := NOWHERE;
      forall i | 0 <= i < |lists|
        ensures Owned(i) && ListOk(i) && Content(i) == old(Content(i))
      {
        assert old(Owned(i)) && old(ListOk(i));
      }
      CoreIs(core);
      ValueIs(core, back);
    }

    /** Puts a node of the timer pool at the end of the change list. */
    method Enlist(t: TimerNode, timer: TimeWheel.Timer)
      requires Idle() && (t in repr ==> t.home == NOWHERE)
      modifies `repr, lists`head, lists`count, lists`nodes, repr`prev, repr`next, repr`home, repr`timer, t
      ensures Idle() && repr == old(repr) + {t}
      ensures Value() == old(Value()).(back := old(Value()).back + [timer])
    {
      hide ListOk, Core, SlotTimers, Content, Value;
      Adopt(t);
      Prepare(t, timer);
      AddToChangelist(t);
    }

    /** `add_timer`: `t` is what the timer pool returned, if it returned a node.  A pool
        node that is handed out is in no list. */
    method AddTimer(delay: bool, timeout: nat, repeats: int, hasHandler: bool, id: nat, t: TimerNode?)
      returns (timerid: int)
      requires Idle()
      requires t != null && t in repr ==> t.home == NOWHERE
      modifies `repr, lists`head, lists`count, lists`nodes, repr`prev, repr`next, repr`home, repr`timer,
               if t == null then {} else {t}
      ensures Idle()
      ensures timerid == if stopped || !hasHandler || t == null then -1 else id
      ensures timerid == -1 ==> Value() == old(Value()) && repr == old(repr)
      ensures timerid != -1 ==> Value() == TimeWheel.AddTimer(old(Value()), ticktime, id, delay, timeout, repeats)
      ensures timerid != -1 ==> repr == old(repr) + {t}
    {
      if stopped || !hasHandler || t == null {
        return -1;
      }
      hide ListOk, SlotTimers, Content;
      ghost var before := Value();
      var ticks := timeout / ticktime;
      var timer := TimeWheel.Timer(id, ticks, if delay then tickcount + ticks else tickcount, repeats);
      TimeWheel.AddTimerIs(before, ticktime, delay, timeout, timer);
      Enlist(t, timer);
      timerid := id;
    }
  }
}
