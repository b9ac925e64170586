/**
 Signals, connections and emission. The class is one emit as its caller sees it; the state machine interleaves
 emitters of any number of signals, each push being one step under the signal's mutex.
 */
module SignalEmit {
  const OK := 0
  const E_INVAL := -3

  type byte = x: nat | x < 256

  // ---- one emit ----

  /** A slot call as it is queued on a loop. */
  datatype Call = Call(connection: Connection, slot: nat, userData: nat, payload: seq<byte>)

  class Loop {
    var queue: seq<Call>
    var wakeup: bool

    constructor ()
      ensures queue == [] && !wakeup
    {
      queue, wakeup := [], false;
    }
  }

  class Connection {
    const slot: nat
    const userData: nat
    const target: Loop

    constructor (slot: nat, target: Loop, userData: nat)
      ensures this.slot == slot && this.target == target && this.userData == userData
    {
      this.slot, this.target, this.userData := slot, target, userData;
    }

    function CallWith(payload: seq<byte>): Call { Call(this, slot, userData, payload) }
  }

  /** The calls that these connections receive on one loop, in connection order. */
  ghost function CallsOn(slots: seq<Connection>, loop: Loop, payload: seq<byte>): seq<Call> {
    if slots == [] then []
    else
      var n := |slots| - 1;
      CallsOn(slots[..n], loop, payload) + if slots[n].target == loop then [slots[n].CallWith(payload)] else []
  }

  lemma CallsOnNext(slots: seq<Connection>, i: nat, payload: seq<byte>)
    requires i < |slots|
    ensures forall l: Loop :: CallsOn(slots[..i + 1], l, payload) ==
              CallsOn(slots[..i], l, payload) + if slots[i].target == l then [slots[i].CallWith(payload)] else []
  {
    assert slots[..i + 1][..i] == slots[..i];
  }

  lemma NoCalls(payload: seq<byte>)
    ensures forall l: Loop :: CallsOn([], l, payload) == []
  {
  }

  /** The call asks the connection's slot function to run on its user data and the payload. */
  predicate IsCallOf(call: Call, c: Connection, payload: seq<byte>) {
    call.connection == c && call.slot == c.slot && call.userData == c.userData && call.payload == payload
  }

  /** Each of these connections on the loop has its call among these, and each call is that of such a connection. */
  ghost predicate AreCallsOf(calls: seq<Call>, slots: seq<Connection>, loop: Loop, payload: seq<byte>) {
    && (forall c :: c in slots && c.target == loop ==> exists call :: call in calls && IsCallOf(call, c, payload))
    && (forall call :: call in calls ==>
          call.connection in slots && call.connection.target == loop && IsCallOf(call, call.connection, payload))
  }

  lemma {:induction false} CallsOnHolds(slots: seq<Connection>, loop: Loop, payload: seq<byte>)
    ensures AreCallsOf(CallsOn(slots, loop, payload), slots, loop, payload)
  {
    if slots != [] {
      var n := |slots| - 1;
      var front, all := CallsOn(slots[..n], loop, payload), CallsOn(slots, loop, payload);
      CallsOnHolds(slots[..n], loop, payload);
      assert forall c :: c in slots <==> c in slots[..n] || c == slots[n];
      forall c | c in slots && c.target == loop
        ensures exists call :: call in all && IsCallOf(call, c, payload)
      {
        if c in slots[..n] {
          var call :| call in front && IsCallOf(call, c, payload);
          assert call in all;
        } else {
          assert slots[n].CallWith(payload) in all && IsCallOf(slots[n].CallWith(payload), c, payload);
        }
      }
    }
  }

  lemma {:induction false} CallsOnCount(slots: seq<Connection>, loop: Loop, payload: seq<byte>, c: Connection)
    requires forall i, j :: 0 <= i < j < |slots| ==> slots[i] != slots[j]
    ensures multiset(CallsOn(slots, loop, payload))[c.CallWith(payload)]
            == if c in slots && c.target == loop then 1 else 0
  {
    if slots != [] {
      var n := |slots| - 1;
      assert slots == slots[..n] + [slots[n]];
      CallsOnCount(slots[..n], loop, payload, c);
    }
  }

  class Signal {
    const payloadSize: nat
    var slots: seq<Connection>

    constructor (payloadSize: nat)
      ensures this.payloadSize == payloadSize && slots == []
    {
      this.payloadSize := payloadSize;
      slots := [];
    }

    ghost function Loops(): set<Loop>
      reads this
    {
      set c | c in slots :: c.target
    }

    /**
     `ns_signal_connect`: on its own loop the new connection's call follows all those that an emit queued before; the
     other loops get what they got.
     */
    method Connect(c: Connection)
      modifies this
      ensures slots == old(slots) + [c]
      ensures forall l: Loop, payload :: CallsOn(slots, l, payload) ==
                CallsOn(old(slots), l, payload) + if l == c.target then [c.CallWith(payload)] else []
    {
      slots := slots + [c];
      assert slots[..|old(slots)|] == old(slots);
    }

    /** `ns_signal_disconnect`: takes out this connection; a connection that is not in the list changes nothing. */
    method Disconnect(c: Connection)
      requires forall i, j :: 0 <= i < j < |slots| ==> slots[i] != slots[j]
      modifies this
      ensures c !in slots && forall d :: d != c ==> (d in slots <==> d in old(slots))
      ensures c !in old(slots) ==> slots == old(slots)
      ensures forall k :: 0 <= k < |old(slots)| && old(slots)[k] == c ==> slots == old(slots)[..k] + old(slots)[k + 1..]
    {
      if k :| 0 <= k < |slots| && slots[k] == c {
        slots := slots[..k] + slots[k + 1..];
      }
    }

    /**
     `ns_signal_emit_raw` under the signal's mutex. `push` is the result of the i-th push, `wake` that of the i-th
     wakeup signal, which is discarded. The calls of exactly the first `pushed` connections are queued, one each, and
     their loops are woken where the signal did not fail; success means that all calls are queued. A queued call holds
     its connection's slot function and user data and the emitted bytes.
     */
    method Emit(payload: seq<byte>, push: nat -> int, wake: nat -> int) returns (rc: int, ghost pushed: nat)
      modifies Loops()
      ensures pushed <= |slots|
      ensures |payload| != payloadSize ==> rc == E_INVAL && pushed == 0
      ensures |payload| == payloadSize ==>
                && (forall i: nat :: i < pushed ==> push(i) == OK)
                && if pushed == |slots| then rc == OK else rc == push(pushed) != OK
      ensures forall l: Loop {:trigger l in Loops()} :: l in Loops() ==>
                && l.queue == old(l.queue) + CallsOn(slots[..pushed], l, payload)
                && (l.wakeup <==> old(l.wakeup) || exists i :: 0 <= i < pushed && slots[i].target == l && wake(i) == OK)
      ensures forall l: Loop {:trigger l in Loops()} :: l in Loops() ==>
                AreCallsOf(l.queue[|old(l.queue)|..], slots[..pushed], l, payload)
    {
      hide CallsOn, AreCallsOf;
      if |payload| != payloadSize {
        rc, pushed := E_INVAL, 0;
        NoCalls(payload);
        assert slots[..0] == [];
      } else {
        rc, pushed := QueueCalls(payload, push, wake);
      }
      forall l: Loop | l in Loops()
        ensures AreCallsOf(l.queue[|old(l.queue)|..], slots[..pushed], l, payload)
      {
        CallsOnHolds(slots[..pushed], l, payload);
        assert l.queue[|old(l.queue)|..] == CallsOn(slots[..pushed], l, payload);
      }
    }

    /** The loop over the connections. */
    method QueueCalls(payload: seq<byte>, push: nat -> int, wake: nat -> int) returns (rc: int, ghost pushed: nat)
      modifies Loops()
      ensures pushed <= |slots| && forall i: nat :: i < pushed ==> push(i) == OK
      ensures if pushed == |slots| then rc == OK else rc == push(pushed) != OK
      ensures forall l: Loop {:trigger l in Loops()} :: l in Loops() ==>
                && l.queue == old(l.queue) + CallsOn(slots[..pushed], l, payload)
                && (l.wakeup <==> old(l.wakeup) || exists i :: 0 <= i < pushed && slots[i].target == l && wake(i) == OK)
    {
      hide CallsOn;
      NoCalls(payload);
      assert slots[..0] == [];
      pushed := 0;
      var i := 0;
      while i < |slots|
        invariant 0 <= i <= |slots| && pushed == i
        invariant forall k: nat :: k < i ==> push(k) == OK
        invariant forall l: Loop {:trigger l in Loops()} :: l in Loops() ==>
                    && l.queue == old(l.queue) + CallsOn(slots[..i], l, payload)
                    && (l.wakeup <==> old(l.wakeup) || exists k :: 0 <= k < i && slots[k].target == l && wake(k) == OK)
      {
        rc := push(i);
        if rc != OK { return; }
        var target := slots[i].target;
        assert target in Loops();
        CallsOnNext(slots, i, payload);
        target.queue := target.queue + [slots[i].CallWith(payload)];
        if wake(i) == OK { target.wakeup := true; }
        i := i + 1;
        pushed := i;
      }
      rc := OK;
    }
  }
}
