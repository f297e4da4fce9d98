/** The intrusive circular list of timers, with its `_prev` and `_next` links. */
module TimerList {
  import opened Arith
  import TimeWheel

  /** `timer` holds the node's `_id`, `_timeout`, `_nexttime` and `_repeats`. */
  class TimerNode {
    var timer: TimeWheel.Timer
    var prev: TimerNode?
    var next: TimerNode?
    ghost var home: nat   // number of the list the node is in, if it is in one

    constructor (timer: TimeWheel.Timer)
      ensures this.timer == timer
    {
      this.timer := timer;
      prev, next := null, null;
    }
  }

  function After(i: nat, n: nat): nat {
    if i + 1 < n then i + 1 else 0
  }

  function Before(i: nat, n: nat): nat
    requires 0 < n
  {
    if i > 0 then i - 1 else n - 1
  }

  /** The links of `nodes` form one ring in that order. */
  ghost predicate Ring(nodes: seq<TimerNode>)
    reads nodes`prev, nodes`next
  {
    && Distinct(nodes)
    && (forall i {:trigger nodes[i].next} :: 0 <= i < |nodes| ==>
         nodes[i].next == nodes[if i + 1 < |nodes| then i + 1 else 0])
    && (forall i {:trigger nodes[i].prev} :: 0 <= i < |nodes| ==>
         nodes[i].prev == nodes[if i > 0 then i - 1 else |nodes| - 1])
  }

  /** Where entry `k` of a sequence without its entry `i` stands in the whole sequence. */
  function Skip(i: nat, k: nat): nat {
    if k < i then k else k + 1
  }

  lemma WithoutAt<T>(all: seq<T>, i: nat, k: nat)
    requires i < |all| && k < |all| - 1
    ensures (all[..i] + all[i + 1..])[k] == all[Skip(i, k)]
  {
  }

  lemma WithoutOne<T>(all: seq<T>, i: nat)
    requires Distinct(all) && i < |all|
    ensures Distinct(all[..i] + all[i + 1..])
    ensures forall x :: x in all[..i] + all[i + 1..] ==> x in all && x != all[i]
  {
    var rest := all[..i] + all[i + 1..];
    forall k | 0 <= k < |rest|
      ensures rest[k] == all[Skip(i, k)]
    {
      WithoutAt(all, i, k);
    }
  }

  /** Relinking the two neighbours of a node leaves a ring of the others. */
  lemma RingWithout(all: seq<TimerNode>, i: nat)
    requires Distinct(all) && i < |all| && 1 < |all|
    requires forall k {:trigger all[k].next} :: 0 <= k < |all| && k != i ==>
      all[k].next == all[After(if k == Before(i, |all|) then i else k, |all|)]
    requires forall k {:trigger all[k].prev} :: 0 <= k < |all| && k != i ==>
      all[k].prev == all[Before(if k == After(i, |all|) then i else k, |all|)]
    ensures Ring(all[..i] + all[i + 1..])
  {
    WithoutOne(all, i);
    hide Distinct;
    var rest := all[..i] + all[i + 1..];
    forall k | 0 <= k < |rest|
      ensures rest[k].next == rest[After(k, |rest|)]
    {
      WithoutAt(all, i, k);
      WithoutAt(all, i, After(k, |rest|));
      assert all[Skip(i, k)].next == all[Skip(i, After(k, |rest|))];
    }
    forall k | 0 <= k < |rest|
      ensures rest[k].prev == rest[Before(k, |rest|)]
    {
      WithoutAt(all, i, k);
      WithoutAt(all, i, Before(k, |rest|));
      assert all[Skip(i, k)].prev == all[Skip(i, Before(k, |rest|))];
    }
  }

  class TimerList {
    var head: TimerNode?
    var count: nat
    ghost var nodes: seq<TimerNode>
    ghost const number: nat   // which list of the wheel this is

    ghost predicate Valid()
      reads this, nodes`prev, nodes`next
    {
      && count == |nodes|
      && head == (if nodes == [] then null else nodes[0])
      && Ring(nodes)
    }

    constructor (ghost number: nat)
      ensures Valid() && nodes == [] && this.number == number
    {
      head, count, nodes := null, 0, [];
      this.number := number;
    }

    method PushBack(t: TimerNode)
      requires Valid() && t !in nodes
      modifies `head, `count, `nodes, t`prev, t`next, nodes`prev, nodes`next
      ensures Valid() && nodes == old(nodes) + [t]
    {
      if head != null {
        var last := head.prev;
        t.prev := last;
        t.next := head;
        last.next := t;
        head.prev := t;
      } else {
        t.prev := t;
        t.next := t;
        head := t;
      }
      count := count + 1;
      nodes := nodes + [t];
    }

    /** Unlinks `t`; `i` is where it stands. */
    method Pop(t: TimerNode, ghost i: nat)
      requires Valid() && i < |nodes| && nodes[i] == t
      modifies `head, `count, `nodes, nodes`prev, nodes`next
      ensures Valid() && nodes == old(nodes)[..i] + old(nodes)[i + 1..]
    {
      if t == head && count == 1 {
        head := null;
        count := 0;
        nodes := [];
      } else {
        ghost var all := nodes;
        ghost var b, a := Before(i, |all|), After(i, |all|);
        assert t.next == all[a] && t.prev == all[b];
        t.next.prev := t.prev;
        t.prev.next := t.next;
        if t == head {
          head := t.next;
        }
        t.prev := null;
        t.next := null;
        count := count - 1;
        nodes := all[..i] + all[i + 1..];
        RingWithout(all, i);
      }
    }

    method Clear()
      modifies `head, `count, `nodes
      ensures Valid() && nodes == []
    {
      head, count, nodes := null, 0, [];
    }

    method Swap(rhs: TimerList)
      requires Valid() && rhs.Valid()
      modifies `head, `count, `nodes, rhs`head, rhs`count, rhs`nodes
      ensures Valid() && rhs.Valid()
      ensures nodes == old(rhs.nodes) && rhs.nodes == old(nodes)
    {
      head, rhs.head := rhs.head, head;
      count, rhs.count := rhs.count, count;
      nodes, rhs.nodes := rhs.nodes, nodes;
    }
  }
}
