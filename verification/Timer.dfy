/**
 The timer manager: a red-black tree of deadlines ordered by signed wrapped remaining time.
 Deadlines and the clock are 64-bit values; `due` and `clock` are the true times behind them.
 */
module Timer {
  import opened RbTree
  import opened WrappedTime

  const OK := 0
  const E_INVAL := -3
  const E_EXISTS := -6
  const E_NO_TIMER := -10

  /** A timer with its embedded tree node; the node's key is `expire_us`. */
  class Timer {
    const node: Node
    var interval: nat
    var attr: nat       // bit 0: repeat, bit 1: reload from now
    ghost var due: int  // the true time behind expire_us

    constructor (interval: nat, attr: nat)
      requires ValidSettings(interval, attr)
      ensures this.interval == interval && this.attr == attr && fresh(node) && node.IsEmpty()
    {
      this.interval, this.attr := interval, attr;
      node := new Node(0);
      due := 0;
    }

    predicate Repeats()
      reads this`attr
    {
      attr % 2 == 1
    }

    predicate FromNow()
      reads this`attr
    {
      attr / 2 % 2 == 1
    }
  }

  /** The checks of `ns_timer_validate_user_input` and `ns_timer_init` on the caller's settings. */
  predicate ValidSettings(interval: nat, attr: nat) { 0 < interval <= INT64_MAX && attr < 4 }

  function OrderAt(now: int): (int, int) -> int {
    (a, b) => Compare(a, b, now)
  }

  lemma OrderIsPreorder(now: int, keys: set<int>)
    ensures Tree.PreorderOn(OrderAt(now), keys)
  {
  }

  // ---- sequences of timers ----

  ghost predicate SortedByDue(q: seq<Timer>)
    reads q`due
  {
    forall i, j :: 0 <= i < j < |q| ==> q[i].due <= q[j].due
  }

  /** q lists the timers of ts, in the order o of their nodes. */
  ghost predicate Lists(q: seq<Timer>, o: seq<Node>, ts: set<Timer>) {
    && |q| == |o|
    && (forall i {:trigger q[i]} :: 0 <= i < |q| ==> q[i] in ts && q[i].node == o[i])
    && (forall t :: t in ts ==> t in q)
  }

  /** The place behind everything that is not due later. */
  ghost predicate PlaceOf(q: seq<Timer>, due: int, pos: int)
    reads q`due
  {
    && 0 <= pos <= |q|
    && (forall i :: 0 <= i < pos ==> q[i].due <= due)
    && (forall i :: pos <= i < |q| ==> q[i].due > due)
  }

  lemma InsertLists(q: seq<Timer>, o: seq<Node>, ts: set<Timer>, timer: Timer, pos: nat)
    requires Lists(q, o, ts) && pos <= |q|
    ensures Lists(q[..pos] + [timer] + q[pos..], o[..pos] + [timer.node] + o[pos..], ts + {timer})
  {
  }

  lemma RemoveLists(q: seq<Timer>, o: seq<Node>, ts: set<Timer>, pos: nat)
    requires Lists(q, o, ts) && pos < |q| && forall i, j :: 0 <= i < j < |q| ==> o[i] != o[j]
    ensures Lists(q[..pos] + q[pos + 1..], o[..pos] + o[pos + 1..], ts - {q[pos]})
  {
  }

  lemma InsertSortedByDue(q: seq<Timer>, timer: Timer, pos: nat)
    requires SortedByDue(q) && PlaceOf(q, timer.due, pos)
    ensures SortedByDue(q[..pos] + [timer] + q[pos..])
  {
  }

  lemma RemoveSortedByDue(q: seq<Timer>, pos: nat)
    requires SortedByDue(q) && pos < |q|
    ensures SortedByDue(q[..pos] + q[pos + 1..])
  {
  }

  /** The place in the tree's order is the place among the true deadlines. */
  lemma PlaceByDue(q: seq<Timer>, o: seq<Node>, sample: int, due: int, pos: int)
    requires |q| == |o| && -HALF <= due - sample < HALF
    requires forall i {:trigger q[i]} :: 0 <= i < |q| ==>
               o[i].key == Wrapped(q[i].due) && -HALF <= q[i].due - sample < HALF
    requires Tree.StablePlace(OrderAt(Wrapped(sample)), o, Wrapped(due), pos)
    ensures PlaceOf(q, due, pos)
  {
    forall i | 0 <= i < |q|
      ensures if i < pos then q[i].due <= due else q[i].due > due
    {
      CompareIsTrueOrder(due, q[i].due, sample);
    }
  }

  lemma Joins(q: seq<Timer>, o: seq<Node>, ts: set<Timer>, sample: int, timer: Timer, pos: int)
    requires Lists(q, o, ts) && |q| == |o| && SortedByDue(q) && -HALF <= timer.due - sample < HALF
    requires forall i {:trigger q[i]} :: 0 <= i < |q| ==>
               o[i].key == Wrapped(q[i].due) && -HALF <= q[i].due - sample < HALF
    requires Tree.StablePlace(OrderAt(Wrapped(sample)), o, Wrapped(timer.due), pos) && 0 <= pos <= |q|
    ensures PlaceOf(q, timer.due, pos)
    ensures Lists(q[..pos] + [timer] + q[pos..], o[..pos] + [timer.node] + o[pos..], ts + {timer})
    ensures SortedByDue(q[..pos] + [timer] + q[pos..])
  {
    hide Lists, SortedByDue, PlaceOf, Wrapped, Tree.StablePlace;
    PlaceByDue(q, o, sample, timer.due, pos);
    InsertLists(q, o, ts, timer, pos);
    InsertSortedByDue(q, timer, pos);
  }

  // ---- what one firing pass does to the queue ----

  /** A timer and its deadline. */
  type Entry = (Timer, int)

  ghost function Entries(q: seq<Timer>): (e: seq<Entry>)
    reads q`due
    ensures |e| == |q| && forall i :: 0 <= i < |q| ==> e[i] == (q[i], q[i].due)
  {
    if q == [] then [] else Entries(q[..|q| - 1]) + [(q[|q| - 1], q[|q| - 1].due)]
  }

  /** How many entries lead the queue with a deadline no later than `due`. */
  ghost function CountUpTo(q: seq<Entry>, due: int): (n: nat)
    ensures n <= |q| && (n < |q| ==> q[n].1 > due)
    ensures forall i :: 0 <= i < n ==> q[i].1 <= due
  {
    if q == [] || q[0].1 > due then 0 else 1 + CountUpTo(q[1..], due)
  }

  lemma {:induction false} CountIsPlace(q: seq<Entry>, due: int, pos: nat)
    requires pos <= |q| && (forall i :: 0 <= i < pos ==> q[i].1 <= due) && (pos < |q| ==> q[pos].1 > due)
    ensures CountUpTo(q, due) == pos
  {
  }

  /** The entry joins behind everything that is not due later. */
  ghost function JoinBehind(q: seq<Entry>, e: Entry): (r: seq<Entry>)
    ensures |r| == |q| + 1
  {
    var n := CountUpTo(q, e.1);
    q[..n] + [e] + q[n..]
  }

  /** The next deadline of a repeating timer that is fired at the sample. */
  ghost function Next(e: Entry, sample: int): Entry
    reads e.0`attr, e.0`interval
  {
    (e.0, NextDue(e.1, e.0.interval, e.0.FromNow(), sample))
  }

  /** One round: the first timer fires and, if it repeats, joins the others again. */
  ghost function Fire(head: Entry, tail: seq<Entry>, sample: int): seq<Entry>
    reads head.0`attr, head.0`interval
  {
    if head.0.Repeats() then JoinBehind(tail, Next(head, sample)) else tail
  }

  /** The queue after firing all of `fired`, in order, in front of `rest`: repeating timers have joined, others left. */
  ghost function Refill(rest: seq<Entry>, fired: seq<Entry>, sample: int): seq<Entry>
    reads (set e | e in fired :: e.0)`attr, (set e | e in fired :: e.0)`interval
  {
    if fired == [] then rest
    else
      var q, e := Refill(rest, fired[..|fired| - 1], sample), fired[|fired| - 1];
      if e.0.Repeats() then JoinBehind(q, Next(e, sample)) else q
  }

  lemma JoinInRear(a: seq<Entry>, r: seq<Entry>, e: Entry)
    requires forall i :: 0 <= i < |a| ==> a[i].1 <= e.1
    ensures JoinBehind(a + r, e) == a + JoinBehind(r, e)
  {
    CountIsPlace(a + r, e.1, |a| + CountUpTo(r, e.1));
  }

  ghost predicate AllAfter(q: seq<Entry>, sample: int) { forall i :: 0 <= i < |q| ==> q[i].1 > sample }

  /** What is in the refilled queue: the rest as it was, and the repeating ones of the fired at their next deadlines. */
  lemma {:induction false} RefillHolds(rest: seq<Entry>, fired: seq<Entry>, sample: int)
    ensures forall x :: x in Refill(rest, fired, sample) <==>
              x in rest || exists e :: e in fired && e.0.Repeats() && x == Next(e, sample)
    decreases |fired|
  {
    hide Next, CountUpTo;
    if fired != [] {
      var front, last := fired[..|fired| - 1], fired[|fired| - 1];
      RefillHolds(rest, front, sample);
      assert forall e :: e in fired <==> e in front || e == last;
      if last.0.Repeats() { JoinHolds(Refill(rest, front, sample), Next(last, sample)); }
    }
  }

  /** The sequence with x put in at place pos. */
  function Inserted<T>(s: seq<T>, x: T, pos: nat): (r: seq<T>)
    requires pos <= |s|
    ensures |r| == |s| + 1
    ensures forall i {:trigger r[i]} :: 0 <= i < |r| ==>
              r[i] == if i < pos then s[i] else if i == pos then x else s[i - 1]
  {
    s[..pos] + [x] + s[pos..]
  }

  lemma InsertedIs<T>(s: seq<T>, x: T, pos: nat)
    requires pos <= |s|
    ensures Inserted(s, x, pos) == s[..pos] + [x] + s[pos..]
  {
  }

  lemma JoinHolds(q: seq<Entry>, e: Entry)
    ensures forall x :: x in JoinBehind(q, e) <==> x in q || x == e
  {
    var n := CountUpTo(q, e.1);
    assert q == q[..n] + q[n..];
  }

  /** The deadline after a firing pass of a timer that was due at `due`, in the words of the reload policy. */
  ghost predicate Reloaded(timer: Timer, due: int, sample: int)
    reads timer`due, timer`attr, timer`interval
  {
    if due > sample then timer.due == due
    else if timer.FromNow() then timer.due == sample + timer.interval
    else if due + timer.interval > sample then timer.due == due + timer.interval
    else timer.due == sample + timer.interval
  }

  /** Who is left after a firing pass over the entries q, and when each is due. */
  lemma DuesAfterPass(queue: seq<Timer>, q: seq<Entry>, n: nat, sample: int, i: nat)
    requires n <= |q| && i < |q| && forall j, k :: 0 <= j < k < |q| ==> q[j].0 != q[k].0
    requires forall j :: 0 <= j < |q| ==> (q[j].1 <= sample <==> j < n)
    requires Entries(queue) == Refill(q[n..], q[..n], sample)
    ensures q[i].0 in queue <==> q[i].1 > sample || q[i].0.Repeats()
    ensures q[i].0 in queue ==> Reloaded(q[i].0, q[i].1, sample)
  {
    hide Refill, Entries;
    var timer, after := q[i].0, Refill(q[n..], q[..n], sample);
    RefillHolds(q[n..], q[..n], sample);
    if i >= n { assert q[i] == q[n..][i - n]; } else { assert q[i] == q[..n][i]; }
    if timer in queue {
      var k :| 0 <= k < |queue| && queue[k] == timer;
      assert Entries(queue)[k] == (timer, timer.due) && after[k] in after;
    }
    if i >= n || timer.Repeats() {
      var x := if i >= n then q[i] else Next(q[i], sample);
      assert x in after;
      var k :| 0 <= k < |after| && after[k] == x;
      assert queue[k] == timer;
    }
  }

  lemma NobodyJoins(queue: seq<Timer>, q: seq<Entry>, n: nat, sample: int)
    requires n <= |q| && Entries(queue) == Refill(q[n..], q[..n], sample)
    ensures forall t :: t in queue ==> exists i :: 0 <= i < |q| && q[i].0 == t
  {
    hide Refill, Entries;
    var after := Refill(q[n..], q[..n], sample);
    RefillHolds(q[n..], q[..n], sample);
    forall t | t in queue
      ensures exists i :: 0 <= i < |q| && q[i].0 == t
    {
      var k :| 0 <= k < |queue| && queue[k] == t;
      assert Entries(queue)[k] == (t, t.due) && after[k] in after;
      if after[k] !in q[n..] {
        var e :| e in q[..n] && e.0.Repeats() && after[k] == Next(e, sample);
        assert e in q;
      }
    }
  }

  /** The queue when the first j of the n due timers were fired: the other due ones, then the refilled rest. */
  ghost function Passed(q: seq<Entry>, n: nat, j: nat, sample: int): seq<Entry>
    requires j <= n <= |q|
    reads (set e | e in q :: e.0)`attr, (set e | e in q :: e.0)`interval
  {
    q[j..n] + Refill(q[n..], q[..j], sample)
  }

  /** Firing the first of the due timers moves it from the due part to the refilled part. */
  lemma Round(q: seq<Entry>, n: nat, j: nat, sample: int)
    requires j < n <= |q| && (forall i :: 0 <= i < n ==> q[i].1 <= sample) && q[j].0.interval > 0
    requires AllAfter(Refill(q[n..], q[..j], sample), sample)
    ensures Fire(q[j], q[j + 1..n] + Refill(q[n..], q[..j], sample), sample) == Passed(q, n, j + 1, sample)
    ensures AllAfter(Refill(q[n..], q[..j + 1], sample), sample)
  {
    var r := Refill(q[n..], q[..j], sample);
    assert q[..j + 1][..j] == q[..j];
    if q[j].0.Repeats() { JoinInRear(q[j + 1..n], r, Next(q[j], sample)); }
  }

  class Manager {
    const tree: Tree
    var now: nat            // the latest clock sample
    var timers: set<Timer>  // the containers of the linked nodes
    ghost var clock: int    // the true time of that sample
    ghost var queue: seq<Timer>

    constructor ()
      ensures Valid() && queue == [] && timers == {} && clock == 0 && fresh(tree)
    {
      tree := new Tree();
      now, timers := 0, {};
      clock, queue := 0, [];
    }

    ghost predicate TreeOk()
      reads tree, tree.nodes
    {
      tree.Struct() && tree.Colored() && tree.LeftmostOk()
    }

    /** The queue is the tree's sequence of nodes, seen as timers. */
    ghost predicate Indexed()
      reads this`timers, this`queue, tree`order, tree`nodes
    {
      && Lists(queue, tree.order, timers)
      && (forall t {:trigger t.node} :: t in timers ==> t.node in tree.nodes)
      && (forall t, u {:trigger t.node, u.node} :: t in timers && u in timers && t.node == u.node ==> t == u)
    }

    ghost predicate Armed()
      reads this`timers, timers`interval, timers`attr, timers`due, tree`nodes, tree.nodes`key
    {
      forall t {:trigger t.due} :: t in timers ==>
        t.node in tree.nodes && t.node.key == Wrapped(t.due) && ValidSettings(t.interval, t.attr)
    }

    ghost predicate Valid()
      reads this, tree, tree.nodes, timers, queue
    {
      TreeOk() && Indexed() && Armed() && SortedByDue(queue) && now == Wrapped(clock)
    }

    /** Every armed deadline is close enough to the sample for 64-bit differences. */
    ghost predicate InTime(sample: int)
      reads this`timers, timers`due
    {
      forall t {:trigger t.due} :: t in timers ==> -HALF <= t.due - sample < HALF
    }

    /** A timer the caller may pass: armed here, or with its node linked nowhere. */
    ghost predicate Known(t: Timer)
      reads this`timers, tree`nodes, t.node
    {
      t in timers || (t.node.IsEmpty() && t.node !in tree.nodes)
    }

    // ---- queueing ----

    /** The tree is sorted at every sample that all deadlines are in reach of. */
    lemma SortedAt(sample: int)
      requires Valid() && InTime(sample)
      ensures tree.Sorted(OrderAt(Wrapped(sample)))
    {
      var cmp := OrderAt(Wrapped(sample));
      forall i, j | 0 <= i < j < |tree.order|
        ensures cmp(tree.order[i].key, tree.order[j].key) <= 0
      {
        assert queue[i].node == tree.order[i] && queue[j].node == tree.order[j];
        CompareIsTrueOrder(queue[i].due, queue[j].due, sample);
      }
    }

    ghost function Keys(extra: int): (keys: set<int>)
      reads tree`nodes, tree.nodes`key
      ensures tree.KeysIn(keys) && extra in keys
    {
      (set n | n in tree.nodes :: n.key) + {extra}
    }

    /** `ns_rbtree_add` with `ns_timer_cmp` at the current sample. */
    method AddNode(node: Node) returns (first: bool, ghost pos: int)
      requires TreeOk() && node !in tree.nodes && tree.Sorted(OrderAt(now))
      modifies tree, tree.nodes`parent, tree.nodes`left, tree.nodes`right, tree.nodes`color, tree.nodes`idx,
        tree.nodes`lo, tree.nodes`hi, tree.nodes`bh, node`parent, node`left, node`right, node`color,
        node`idx, node`lo, node`hi, node`bh
      ensures TreeOk() && tree.nodes == old(tree.nodes) + {node}
      ensures Tree.StablePlace(OrderAt(now), old(tree.order), node.key, pos)
      ensures 0 <= pos <= |old(tree.order)| && tree.order == old(tree.order)[..pos] + [node] + old(tree.order)[pos..]
      ensures first <==> pos == 0
    {
      hide Tree.Struct, Tree.Colored, Tree.SortedSeq, Tree.PreorderOn, Tree.KeysIn, Compare;
      ghost var keys := Keys(node.key);
      OrderIsPreorder(now, keys);
      var added;
      added, pos := tree.Add(node, OrderAt(now), keys);
      first := added != null;
    }

    /** What a timer that is not armed cannot touch. */
    lemma QueueFacts(timer: Timer)
      requires Valid() && InTime(clock) && timer !in timers && Known(timer)
      ensures tree.Sorted(OrderAt(now)) && Lists(queue, tree.order, timers)
      ensures timer.node !in tree.nodes && timer.node !in tree.order && timer !in queue
      ensures |queue| == |tree.order|
      ensures forall i {:trigger queue[i]} :: 0 <= i < |queue| ==>
                tree.order[i].key == Wrapped(queue[i].due) && -HALF <= queue[i].due - clock < HALF
    {
      SortedAt(clock);
    }

    /** The deadline is stored and the node linked; says whether it became the leftmost. */
    method Enqueue(timer: Timer, expire: nat, ghost due: int) returns (first: bool, ghost pos: int)
      requires Valid() && InTime(clock) && timer !in timers && Known(timer) && ValidSettings(timer.interval, timer.attr)
      requires expire == Wrapped(due) && -HALF <= due - clock < HALF
      modifies this`timers, this`queue, timer`due, tree, tree.nodes, timer.node
      ensures Valid() && InTime(clock) && timers == old(timers) + {timer} && timer.due == due
      ensures PlaceOf(old(queue), due, pos) && queue == old(queue)[..pos] + [timer] + old(queue)[pos..]
      ensures first <==> pos == 0
      ensures 0 <= pos <= |old(queue)| && tree.nodes == old(tree.nodes) + {timer.node}
    {
      hide TreeOk, Indexed, Armed, Tree.SortedSeq, Tree.StablePlace, Lists, SortedByDue, PlaceOf, Wrapped,
        ValidSettings;
      QueueFacts(timer);
      timer.node.key := expire;
      timer.due := due;
      first, pos := AddNode(timer.node);
      Joins(queue, old(tree.order), timers, clock, timer, pos);
      queue := queue[..pos] + [timer] + queue[pos..];
      timers := timers + {timer};
      Enqueued(timer);
    }

    twostate lemma Enqueued(timer: Timer)
      requires old(Indexed() && Armed() && InTime(clock)) && timer !in old(timers) && timer.node !in old(tree.nodes)
      requires tree.nodes == old(tree.nodes) + {timer.node} && timers == old(timers) + {timer} && clock == old(clock)
      requires Lists(queue, tree.order, timers)
      requires forall n {:trigger n.key} :: n in old(tree.nodes) ==> n.key == old(n.key)
      requires forall t {:trigger t.due} :: t in old(timers) ==>
                 t.due == old(t.due) && t.interval == old(t.interval) && t.attr == old(t.attr)
      requires timer.node.key == Wrapped(timer.due) && -HALF <= timer.due - clock < HALF
      requires ValidSettings(timer.interval, timer.attr)
      ensures Indexed() && Armed() && InTime(clock)
    {
      hide Lists, Wrapped, ValidSettings;
      forall t | t in timers
        ensures t.node in tree.nodes && t.node.key == Wrapped(t.due) && ValidSettings(t.interval, t.attr)
      {
        if t != timer {
          assert old(t.node in tree.nodes && t.node.key == Wrapped(t.due));
          assert t.due == old(t.due);
        }
      }
    }

    /** The node is unlinked; says whether another node became the leftmost. */
    method Dequeue(timer: Timer) returns (newFirst: bool, ghost pos: nat)
      requires Valid() && timer in timers
      modifies this`timers, this`queue, tree, tree.nodes
      ensures Valid() && timers == old(timers) - {timer} && Known(timer)
      ensures pos < |old(queue)| && old(queue)[pos] == timer && queue == old(queue)[..pos] + old(queue)[pos + 1..]
      ensures newFirst <==> pos == 0 && queue != []
      ensures tree.nodes == old(tree.nodes) - {timer.node} && (old(queue)[0] == timer <==> pos == 0)
    {
      hide TreeOk, Indexed, Armed, Lists, SortedByDue;
      pos := DequeueFacts(timer);
      RemoveLists(queue, tree.order, timers, pos);
      RemoveSortedByDue(queue, pos);
      newFirst := DelNode(timer.node);
      queue := queue[..pos] + queue[pos + 1..];
      timers := timers - {timer};
      Dequeued(timer);
    }

    lemma DequeueFacts(timer: Timer) returns (pos: nat)
      requires Valid() && timer in timers
      ensures Lists(queue, tree.order, timers) && |queue| == |tree.order|
      ensures pos < |queue| && queue[pos] == timer && timer.node in tree.nodes
      ensures pos == timer.node.idx && timer.node.idx < |tree.order| && (queue[0] == timer <==> pos == 0)
      ensures forall i, j :: 0 <= i < j < |tree.order| ==> tree.order[i] != tree.order[j]
    {
      assert timer in queue;
      pos :| pos < |queue| && queue[pos] == timer;
      tree.OrderDistinct();
      tree.WhereIs(timer.node);
    }

    /** `ns_rbtree_del`. */
    method DelNode(node: Node) returns (newFirst: bool)
      requires TreeOk() && node in tree.nodes
      modifies tree, tree.nodes`parent, tree.nodes`left, tree.nodes`right, tree.nodes`color, tree.nodes`idx,
        tree.nodes`lo, tree.nodes`hi, tree.nodes`bh
      ensures TreeOk() && tree.nodes == old(tree.nodes) - {node} && node.IsEmpty()
      ensures 0 <= old(node.idx) < |old(tree.order)|
      ensures tree.order == old(tree.order)[..old(node.idx)] + old(tree.order)[old(node.idx) + 1..]
      ensures newFirst <==> old(node.idx) == 0 && tree.order != []
    {
      hide Tree.Struct, Tree.Colored;
      var first := tree.Del(node);
      newFirst := first != null;
    }

    twostate lemma Dequeued(timer: Timer)
      requires old(Indexed() && Armed()) && timer in old(timers)
      requires tree.nodes == old(tree.nodes) - {timer.node} && timers == old(timers) - {timer}
      requires Lists(queue, tree.order, timers)
      requires forall n {:trigger n.key} :: n in old(tree.nodes) ==> n.key == old(n.key)
      requires forall t {:trigger t.due} :: t in old(timers) ==>
                 t.due == old(t.due) && t.interval == old(t.interval) && t.attr == old(t.attr)
      ensures Indexed() && Armed()
    {
      hide Lists, Wrapped, ValidSettings;
      forall t | t in timers
        ensures t.node in tree.nodes && t.node.key == Wrapped(t.due) && ValidSettings(t.interval, t.attr)
      {
        assert old(t.node in tree.nodes && t.node.key == Wrapped(t.due) && timer.node in tree.nodes);
        assert t.due == old(t.due);
      }
    }

    /** `ns_timer_is_running`: an embedded node that is linked is linked here. */
    lemma RunningIsArmed(timer: Timer)
      requires Valid() && Known(timer)
      ensures !timer.node.IsEmpty() <==> timer in timers
    {
      if timer in timers { tree.LinkedIsNotEmpty(timer.node); }
    }

    /** `ns_timer_mgr_refresh_now`. A failing clock leaves the old sample. */
    method RefreshNow(clockRc: int, now64: nat, ghost sample: int)
      requires Valid() && now64 == Wrapped(sample)
      modifies this`now, this`clock
      ensures Valid()
      ensures if clockRc == OK then now == now64 && clock == sample else now == old(now) && clock == old(clock)
    {
      hide TreeOk, Indexed, Armed, SortedByDue, Wrapped;
      if clockRc == OK {
        now := now64;
        clock := sample;
      }
    }

    // ---- the public operations ----

    /**
     `ns_timer_start`. On success the deadline is one interval after the clock sample, the timer stands behind
     every timer that is not due later, and the broker is notified exactly if it stands first.
     */
    method Start(timer: Timer, clockRc: int, now64: nat, ghost sample: int)
      returns (rc: int, notify: bool, ghost pos: int)
      requires Valid() && Known(timer) && now64 == Wrapped(sample) && InTime(sample)
      modifies this, timer`due, tree, tree.nodes, timer.node
      ensures Valid()
      ensures rc == if !ValidSettings(timer.interval, timer.attr) then E_INVAL
                    else if timer in old(timers) then E_EXISTS
                    else clockRc
      ensures rc != OK ==> !notify && queue == old(queue) && timer.due == old(timer.due) && clock == old(clock)
      ensures rc == OK ==>
                && clock == sample && InTime(clock) && timer.due == sample + timer.interval
                && PlaceOf(old(queue), timer.due, pos) && 0 <= pos <= |old(queue)|
                && queue == old(queue)[..pos] + [timer] + old(queue)[pos..]
                && (notify <==> queue[0] == timer)
    {
      hide TreeOk, Indexed, Armed, SortedByDue, Wrapped, PlaceOf, Lists;
      notify, pos := false, 0;
      if !ValidSettings(timer.interval, timer.attr) { return E_INVAL, false, 0; }
      RunningIsArmed(timer);
      if !timer.node.IsEmpty() { return E_EXISTS, false, 0; }
      RefreshNow(clockRc, now64, sample);
      if clockRc != OK { return clockRc, false, 0; }
      AddInterval(sample, timer.interval);
      notify, pos := Enqueue(timer, (now + timer.interval) % WRAP, sample + timer.interval);
      FirstIs(old(queue), timer, pos);
      rc := OK;
    }

    /** `ns_timer_cancel`: always succeeds; notifies exactly if another timer moved to the front. */
    method Cancel(timer: Timer) returns (notify: bool, ghost pos: nat)
      requires Valid() && Known(timer)
      modifies this`timers, this`queue, tree, tree.nodes
      ensures Valid() && Known(timer) && timer !in timers && timers == old(timers) - {timer}
      ensures if timer !in old(timers) then !notify && queue == old(queue)
              else pos < |old(queue)| && old(queue)[pos] == timer && queue == old(queue)[..pos] + old(queue)[pos + 1..]
                   && (notify <==> pos == 0 && queue != [])
    {
      hide TreeOk, Indexed, Armed, SortedByDue, Lists;
      RunningIsArmed(timer);
      notify, pos := false, 0;
      if timer.node.IsEmpty() { return; }
      notify, pos := Dequeue(timer);
    }

    /**
     `ns_timer_restart`: a running timer is taken out first, so it stands behind timers due at the same time. When
     the clock fails after that, the timer stays stopped. `rest` is the queue in between, `was` the old place.
     */
    method Restart(timer: Timer, clockRc: int, now64: nat, ghost sample: int)
      returns (rc: int, notify: bool, ghost rest: seq<Timer>, ghost was: nat, ghost pos: int)
      requires Valid() && Known(timer) && now64 == Wrapped(sample) && InTime(sample)
      modifies this, timer`due, tree, tree.nodes, timer.node
      ensures Valid()
      ensures rc == if !ValidSettings(timer.interval, timer.attr) then E_INVAL else clockRc
      ensures if timer in old(timers) && ValidSettings(timer.interval, timer.attr)
              then was < |old(queue)| && old(queue)[was] == timer && rest == old(queue)[..was] + old(queue)[was + 1..]
              else rest == old(queue)
      ensures rc != OK ==> !notify && queue == rest
      ensures rc == OK ==>
                && clock == sample && InTime(clock) && timer.due == sample + timer.interval
                && PlaceOf(rest, timer.due, pos) && 0 <= pos <= |rest| && queue == rest[..pos] + [timer] + rest[pos..]
                && (notify <==> queue[0] == timer)
                && (timer.due >= old(timer.due) <==> timer.interval >= old(timer.due) - sample)
    {
      hide TreeOk, Indexed, Armed, SortedByDue, Wrapped, PlaceOf, Lists;
      notify, rest, was, pos := false, queue, 0, 0;
      if !ValidSettings(timer.interval, timer.attr) { rc := E_INVAL; return; }
      RunningIsArmed(timer);
      if !timer.node.IsEmpty() {
        var newFirst;
        newFirst, was := Dequeue(timer);
        rest := queue;
      }
      RefreshNow(clockRc, now64, sample);
      if clockRc != OK { rc := clockRc; return; }
      AddInterval(sample, timer.interval);
      notify, pos := Enqueue(timer, (now + timer.interval) % WRAP, sample + timer.interval);
      FirstIs(rest, timer, pos);
      rc := OK;
    }

    lemma FirstIs(q: seq<Timer>, timer: Timer, pos: int)
      requires Valid() && 0 <= pos <= |q| && queue == q[..pos] + [timer] + q[pos..]
      ensures queue[0] == timer <==> pos == 0
    {
      if pos > 0 {
        assert queue[0] == q[0] && queue[pos] == timer;
        tree.OrderDistinct();
        assert tree.order[0] != tree.order[pos];
      }
    }

    /** `ns_timer_mgr_next_timeout`: the time to the earliest deadline, zero if that has passed. */
    method NextTimeout(clockRc: int, now64: nat, ghost sample: int) returns (rc: int, timeout: nat)
      requires Valid() && now64 == Wrapped(sample) && InTime(sample)
      modifies this`now, this`clock
      ensures Valid() && queue == old(queue)
      ensures rc == if clockRc != OK then clockRc else if queue == [] then E_NO_TIMER else OK
      ensures rc == OK ==> timeout == if queue[0].due <= sample then 0 else queue[0].due - sample
    {
      hide TreeOk, Indexed, Armed, SortedByDue, Wrapped;
      timeout := 0;
      RefreshNow(clockRc, now64, sample);
      if clockRc != OK { return clockRc, 0; }
      LeftmostIsFirst();
      if tree.leftmost == null { return E_NO_TIMER, 0; }
      RemainingIsTrue(queue[0].due, sample);
      var remaining := Remaining(tree.leftmost.key, now);
      timeout := if remaining <= 0 then 0 else remaining;
      rc := OK;
    }

    lemma LeftmostIsFirst()
      requires Valid()
      ensures if queue == [] then tree.leftmost == null
              else tree.leftmost != null && queue[0].node == tree.leftmost && queue[0] in timers
                   && tree.leftmost.key == Wrapped(queue[0].due)
    {
      hide Tree.Struct, Tree.Colored;
    }

    // ---- firing ----

    /** The container of the leftmost node. */
    method FirstTimer() returns (timer: Timer)
      requires Valid() && InTime(clock) && queue != []
      ensures timer == queue[0] && timer in timers && timer.node == tree.leftmost && timer.node in tree.nodes
      ensures timer.node.key == Wrapped(timer.due) && ValidSettings(timer.interval, timer.attr)
      ensures -HALF <= timer.due - clock < HALF
    {
      hide TreeOk, Lists, SortedByDue, Wrapped, ValidSettings;
      LeftmostIsFirst();
      timer :| timer in timers && timer.node == tree.leftmost;
      assert queue[0].node == timer.node;
    }

    /** Arms the timer again; seen as entries, it joins behind everything not due later. */
    method Rearm(timer: Timer, expire: nat, ghost due: int)
      requires Valid() && InTime(clock) && timer !in timers && Known(timer) && ValidSettings(timer.interval, timer.attr)
      requires expire == Wrapped(due) && -HALF <= due - clock < HALF
      modifies this`timers, this`queue, timer`due, tree, tree.nodes, timer.node
      ensures Valid() && InTime(clock)
      ensures timers == old(timers) + {timer} && tree.nodes == old(tree.nodes) + {timer.node}
      ensures Entries(queue) == JoinBehind(old(Entries(queue)), (timer, due))
    {
      hide Valid, InTime, Known, PlaceOf, Entries, Wrapped, ValidSettings;
      NotQueued(timer);
      var first;
      ghost var pos;
      first, pos := Enqueue(timer, expire, due);
      InsertEntries(old(queue), timer, pos);
    }

    static lemma InsertEntries(q: seq<Timer>, timer: Timer, pos: int)
      requires PlaceOf(q, timer.due, pos) && 0 <= pos <= |q|
      ensures Entries(q[..pos] + [timer] + q[pos..]) == JoinBehind(Entries(q), (timer, timer.due))
    {
      hide Entries, CountUpTo;
      EntriesOfInsert(q, timer, pos);
      CountIsPlace(Entries(q), timer.due, pos);
    }

    static lemma EntriesOfInsert(q: seq<Timer>, timer: Timer, pos: nat)
      requires pos <= |q|
      ensures Entries(q[..pos] + [timer] + q[pos..]) == Entries(q)[..pos] + [(timer, timer.due)] + Entries(q)[pos..]
    {
      hide Entries, Inserted;
      EntriesOfInserted(q, timer, pos);
      InsertedIs(q, timer, pos);
      InsertedIs(Entries(q), (timer, timer.due), pos);
    }

    static lemma EntriesOfInserted(q: seq<Timer>, timer: Timer, pos: nat)
      requires pos <= |q|
      ensures Entries(Inserted(q, timer, pos)) == Inserted(Entries(q), (timer, timer.due), pos)
    {
      hide Entries, Inserted;
      var q', e := Inserted(q, timer, pos), Entries(q);
      var x, y := Entries(q'), Inserted(e, (timer, timer.due), pos);
      forall i | 0 <= i < |x|
        ensures x[i] == y[i]
      {
        assert x[i] == (q'[i], q'[i].due);
        if i < pos { assert q'[i] == q[i] && y[i] == e[i]; }
        else if i > pos { assert q'[i] == q[i - 1] && y[i] == e[i - 1]; }
      }
    }

    lemma NotQueued(timer: Timer)
      requires Valid() && timer !in timers
      ensures timer !in queue
    {
    }

    /** The first timer leaves the queue. */
    method TakeFirst(timer: Timer)
      requires Valid() && InTime(clock) && timer in timers && queue[0] == timer
      modifies this`timers, this`queue, tree, tree.nodes
      ensures Valid() && InTime(clock) && timers == old(timers) - {timer} && Known(timer)
      ensures tree.nodes == old(tree.nodes) - {timer.node}
      ensures queue == old(queue)[1..] && Entries(queue) == old(Entries(queue[1..]))
    {
      hide Valid, Known, Entries;
      var newFirst;
      ghost var pos;
      newFirst, pos := Dequeue(timer);
      assert queue == old(queue)[1..];
    }

    /** The timer around the leftmost node fires; a repeating one is armed again by its reload policy. */
    method FireFirst() returns (timer: Timer)
      requires Valid() && InTime(clock) && queue != [] && queue[0].due <= clock
      modifies this`timers, this`queue, timers`due, tree, tree.nodes
      ensures Valid() && InTime(clock) && timers <= old(timers) && tree.nodes <= old(tree.nodes)
      ensures timer == old(queue)[0] && (timer in timers <==> timer.Repeats())
      ensures Entries(queue) == Fire((timer, old(timer.due)), old(Entries(queue[1..])), clock)
    {
      hide Known, JoinBehind, Entries, InTime, NextDue, NextExpire, TreeOk, Indexed, Armed, SortedByDue;
      timer := FirstTimer();
      NextExpireIsNextDue(timer.due, timer.interval, timer.FromNow(), clock);
      var previous := timer.node.key;
      TakeFirst(timer);
      if timer.Repeats() {
        Rearm(timer, NextExpire(previous, timer.interval, timer.FromNow(), now),
              NextDue(timer.due, timer.interval, timer.FromNow(), clock));
      }
    }

    /** The timers of the queue are different. */
    lemma QueueDistinct()
      requires Valid()
      ensures forall j, k :: 0 <= j < k < |queue| ==> queue[j] != queue[k]
    {
      hide Armed, SortedByDue, Tree.Struct, Tree.Colored;
      tree.OrderDistinct();
    }

    /** Those due at the sample come first. */
    lemma DueSplit(sample: int)
      requires Valid()
      ensures var q := Entries(queue);
              forall j :: 0 <= j < |q| ==> (q[j].1 <= sample <==> j < CountUpTo(q, sample))
    {
      hide TreeOk, Indexed, Armed, Entries, CountUpTo;
    }

    /** The leading entries are the due ones, and everything behind them is due later. */
    lemma PassStarts(q: seq<Entry>, n: nat)
      requires Valid() && q == Entries(queue) && n == CountUpTo(q, clock)
      ensures Passed(q, n, 0, clock) == q && AllAfter(Refill(q[n..], q[..0], clock), clock)
    {
      hide Valid, Entries, CountUpTo, Refill;
      DueSplit(clock);
      RefillNothing(q[n..], q[..0], clock);
      assert q == q[0..n] + q[n..];
    }

    /** An empty queue has no due part left; without a due part the queue is the refilled rest. */
    lemma PassEnds(q: seq<Entry>, n: nat, j: nat)
      requires j <= n <= |q| && Entries(queue) == Passed(q, n, j, clock)
      ensures queue == [] ==> j == n
      ensures j == n ==> Entries(queue) == Refill(q[n..], q[..n], clock)
    {
      hide Refill;
    }

    lemma RefillNothing(rest: seq<Entry>, none: seq<Entry>, sample: int)
      requires none == []
      ensures Refill(rest, none, sample) == rest
    {
    }

    /** The head of the queue is due exactly as long as the due part is not used up. */
    lemma FirstIsDue(q: seq<Entry>, n: nat, j: nat)
      requires Valid() && InTime(clock) && queue != [] && j <= n <= |q| && Entries(queue) == Passed(q, n, j, clock)
      requires AllAfter(Refill(q[n..], q[..j], clock), clock) && forall i :: 0 <= i < n ==> q[i].1 <= clock
      ensures tree.leftmost != null && (Remaining(tree.leftmost.key, now) <= 0 <==> j < n)
      ensures queue[0].due <= clock <==> j < n
      ensures j < n ==>
                && q[j] == (queue[0], queue[0].due)
                && Fire((queue[0], queue[0].due), Entries(queue[1..]), clock) == Passed(q, n, j + 1, clock)
                && AllAfter(Refill(q[n..], q[..j + 1], clock), clock)
    {
      hide TreeOk, Lists, SortedByDue, Entries, Refill, Fire;
      var later := Refill(q[n..], q[..j], clock);
      LeftmostIsFirst();
      RemainingIsTrue(queue[0].due, clock);
      assert Entries(queue)[0] == (queue[0], queue[0].due);
      if j < n {
        assert Entries(queue)[0] == q[j];
        assert (q[j..n] + later)[1..] == q[j + 1..n] + later;
        EntriesTail(queue);
        Round(q, n, j, clock);
      } else {
        assert Entries(queue)[0] == later[0];
      }
    }

    static lemma EntriesTail(q: seq<Timer>)
      requires q != []
      ensures Entries(q[1..]) == Entries(q)[1..]
    {
    }

    /**
     `ns_timer_mgr_fire_expired`: fires exactly the timers due at the clock sample, each once, in queue order; the
     queue it leaves is the rest, with every repeating one among the fired joined again, and nothing in it is due.
     The result is the first emit error; `emit` gives the result of the i-th emit of this call.
     */
    method FireExpired(clockRc: int, now64: nat, emit: nat -> int, ghost sample: int)
      returns (rc: int, ghost fired: seq<Timer>)
      requires Valid() && now64 == Wrapped(sample) && InTime(sample)
      modifies this, timers`due, tree, tree.nodes
      ensures Valid()
      ensures clockRc != OK ==> rc == clockRc && fired == [] && queue == old(queue) && clock == old(clock)
      ensures clockRc == OK ==>
                && clock == sample && InTime(clock)
                && var before, n := old(Entries(queue)), CountUpTo(old(Entries(queue)), sample);
                   && fired == old(queue)[..n]
                   && Entries(queue) == Refill(before[n..], before[..n], sample)
                   && AllAfter(Entries(queue), sample)
                   && rc == FirstError(emit, n)
      ensures clockRc == OK ==> forall t {:trigger t in queue} ::
                && (t in queue <==> t in old(queue) && (old(t.due) > sample || t.Repeats()))
                && (t in queue ==> Reloaded(t, old(t.due), sample))
    {
      hide Valid, InTime, Entries, CountUpTo, Fire, Refill, AllAfter, FirstError, Reloaded;
      fired := [];
      RefreshNow(clockRc, now64, sample);
      if clockRc != OK { rc := clockRc; return; }
      ghost var was, before := queue, Entries(queue);
      ghost var n := CountUpTo(before, sample);
      DueSplit(sample);
      QueueDistinct();
      rc, fired := FirePass(emit);
      forall i | 0 <= i < |was|
        ensures was[i] in queue <==> before[i].1 > sample || was[i].Repeats()
        ensures was[i] in queue ==> Reloaded(was[i], before[i].1, sample)
      {
        DuesAfterPass(queue, before, n, sample, i);
      }
      NobodyJoins(queue, before, n, sample);
    }

    /** The loop of `ns_timer_mgr_fire_expired`; its measure is the number of due timers left. */
    method FirePass(emit: nat -> int) returns (firstError: int, ghost fired: seq<Timer>)
      requires Valid() && InTime(clock)
      modifies this`timers, this`queue, timers`due, tree, tree.nodes
      ensures Valid() && InTime(clock)
      ensures var before, n := old(Entries(queue)), CountUpTo(old(Entries(queue)), clock);
              && fired == old(queue)[..n]
              && Entries(queue) == Refill(before[n..], before[..n], clock)
              && AllAfter(Entries(queue), clock)
              && firstError == FirstError(emit, n)
    {
      hide Valid, InTime, Entries, CountUpTo, Fire, Refill, AllAfter, Next, JoinBehind, Remaining, Passed;
      fired, firstError := [], OK;
      ghost var before := Entries(queue);
      ghost var n := CountUpTo(before, clock);
      PassStarts(before, n);
      var emitted := 0;
      while true
        invariant Valid() && InTime(clock)
        invariant timers <= old(timers) && tree.nodes <= old(tree.nodes)
        invariant emitted <= n && fired == old(queue)[..emitted]
        invariant Entries(queue) == Passed(before, n, emitted, clock)
        invariant AllAfter(Refill(before[n..], before[..emitted], clock), clock)
        invariant firstError == FirstError(emit, emitted)
        decreases n - emitted
      {
        LeftmostIsFirst();
        PassEnds(before, n, emitted);
        if tree.leftmost == null { break; }
        FirstIsDue(before, n, emitted);
        if Remaining(tree.leftmost.key, now) > 0 { break; }
        var timer := FireFirst();
        fired := fired + [timer];
        if emit(emitted) != OK && firstError == OK { firstError := emit(emitted); }
        emitted := emitted + 1;
      }
    }
  }

  /** The first result that is not success among the first n. */
  function FirstError(emit: nat -> int, n: nat): (rc: int)
    ensures if rc == OK then forall i: nat :: i < n ==> emit(i) == OK
            else exists i: nat :: i < n && emit(i) == rc && forall j: nat :: j < i ==> emit(j) == OK
  {
    if n == 0 then OK
    else if FirstError(emit, n - 1) != OK then FirstError(emit, n - 1)
    else emit(n - 1)
  }

  /** The reload policy in wrapped arithmetic. */
  function NextExpire(previous: nat, interval: nat, fromNow: bool, now: nat): nat {
    if fromNow then (now + interval) % WRAP
    else
      var next := (previous + interval) % WRAP;
      if Remaining(next, now) <= 0 then (now + interval) % WRAP else next
  }

  /** It computes the true next deadline as long as the fired deadline is in reach of the sample. */
  lemma NextExpireIsNextDue(due: int, interval: nat, fromNow: bool, sample: int)
    requires 0 < interval <= INT64_MAX && -HALF <= due - sample <= 0
    ensures NextExpire(Wrapped(due), interval, fromNow, Wrapped(sample))
            == Wrapped(NextDue(due, interval, fromNow, sample))
    ensures sample < NextDue(due, interval, fromNow, sample) < sample + HALF
  {
    AddInterval(sample, interval);
    AddInterval(due, interval);
    RemainingIsTrue(due + interval, sample);
  }
}
