/**
 Emitters of any number of signals, interleaved push by push. A signal's mutex is held from the snapshot of its
 connections to the last push. `log` is the order in which the pushes won their place.
 */
module SignalOrder {
  import RecordWords
  import RecordRing
  import RecordFormat
  import RecordRingTheorems

  datatype Conn = Conn(id: nat, loop: nat)

  datatype Outcome = Running | Done | Failed

  /** One emit that got the mutex: the connections it found and how many pushes it has made. */
  datatype Emission = Emission(signal: nat, conns: seq<Conn>, pushed: nat, outcome: Outcome)

  datatype Push = Push(emission: nat, conn: Conn)

  /** Emissions are numbered in the order in which they took their mutexes; `holder` names the running one. */
  datatype Signal = Signal(slots: seq<Conn>, holder: Option)

  datatype Option = Nobody | Emitter(emission: nat)

  datatype State = State(signals: map<nat, Signal>, emissions: seq<Emission>, log: seq<Push>)

  datatype Action =
    | Connect(signal: nat, conn: Conn)
    | Disconnect(signal: nat, id: nat)
    | Lock(signal: nat)
    | TryPush(signal: nat, accepted: bool)

  function Init(signals: set<nat>): State {
    State(map x | x in signals :: Signal([], Nobody), [], [])
  }

  function WithoutId(slots: seq<Conn>, id: nat): seq<Conn> {
    if slots == [] then []
    else if slots[0].id == id then slots[1..]
    else [slots[0]] + WithoutId(slots[1..], id)
  }

  /** `ns_list_remove_init` on the connection's own node: only this connection leaves, the others keep their order. */
  lemma {:induction false} DisconnectTakesOne(slots: seq<Conn>, k: nat)
    requires k < |slots| && forall i :: 0 <= i < k ==> slots[i].id != slots[k].id
    ensures WithoutId(slots, slots[k].id) == slots[..k] + slots[k + 1..]
  {
    if k > 0 {
      DisconnectTakesOne(slots[1..], k - 1);
    }
  }

  function Finish(s: State, x: nat, e: Emission, outcome: Outcome): State
    requires x in s.signals && s.signals[x].holder.Emitter? && s.signals[x].holder.emission < |s.emissions|
  {
    s.(emissions := s.emissions[s.signals[x].holder.emission := e.(outcome := outcome)],
       signals := s.signals[x := s.signals[x].(holder := Nobody)])
  }

  /** One push of the emission that holds the signal; the first refused push, or the end of the list, ends it. */
  function PushStep(s: State, x: nat, accepted: bool): State
    requires x in s.signals && s.signals[x].holder.Emitter? && s.signals[x].holder.emission < |s.emissions|
  {
    var n := s.signals[x].holder.emission;
    var e := s.emissions[n];
    if e.pushed >= |e.conns| then Finish(s, x, e, Done)
    else if !accepted then Finish(s, x, e, Failed)
    else s.(emissions := s.emissions[n := e.(pushed := e.pushed + 1)], log := s.log + [Push(n, e.conns[e.pushed])])
  }

  function Step(s: State, a: Action): State {
    match a
    case Connect(x, conn) =>
      if x in s.signals && s.signals[x].holder.Nobody?
      then s.(signals := s.signals[x := Signal(s.signals[x].slots + [conn], Nobody)]) else s
    case Disconnect(x, id) =>
      if x in s.signals && s.signals[x].holder.Nobody?
      then s.(signals := s.signals[x := Signal(WithoutId(s.signals[x].slots, id), Nobody)]) else s
    case Lock(x) =>
      if x in s.signals && s.signals[x].holder.Nobody?
      then s.(signals := s.signals[x := s.signals[x].(holder := Emitter(|s.emissions|))],
              emissions := s.emissions + [Emission(x, s.signals[x].slots, 0, Running)])
      else s
    case TryPush(x, accepted) =>
      if x in s.signals && s.signals[x].holder.Emitter? && s.signals[x].holder.emission < |s.emissions|
      then PushStep(s, x, accepted) else s
  }

  function Run(s: State, actions: seq<Action>): State
    decreases |actions|
  {
    if actions == [] then s else Step(Run(s, actions[..|actions| - 1]), actions[|actions| - 1])
  }

  /** The connections whose calls one emission queued, in order. */
  function CallsOf(log: seq<Push>, n: nat): seq<Conn> {
    if log == [] then []
    else
      var k := |log| - 1;
      CallsOf(log[..k], n) + if log[k].emission == n then [log[k].conn] else []
  }

  /** The signal whose emission this is. */
  function SignalOf(s: State, n: nat): nat { if n < |s.emissions| then s.emissions[n].signal else 0 }

  // ---- invariant ----

  ghost predicate Held(s: State) {
    && (forall x {:trigger s.signals[x]} :: x in s.signals && s.signals[x].holder.Emitter? ==>
          var n := s.signals[x].holder.emission;
          n < |s.emissions| && s.emissions[n].signal == x && s.emissions[n].outcome.Running?
          && s.emissions[n].conns == s.signals[x].slots)
    && (forall n {:trigger s.emissions[n]} :: 0 <= n < |s.emissions| && s.emissions[n].outcome.Running? ==>
          s.emissions[n].signal in s.signals && s.signals[s.emissions[n].signal].holder == Emitter(n))
  }

  ghost predicate Counted(s: State) {
    forall n {:trigger s.emissions[n]} :: 0 <= n < |s.emissions| ==>
      var e := s.emissions[n];
      && e.pushed <= |e.conns| && CallsOf(s.log, n) == e.conns[..e.pushed]
      && (e.outcome.Done? ==> e.pushed == |e.conns|) && (e.outcome.Failed? ==> e.pushed < |e.conns|)
  }

  /** Pushes of one signal stand in the order of its emissions. */
  ghost predicate InEmitOrder(s: State, pushes: seq<Push>) {
    forall i, j :: 0 <= i < j < |pushes| && SignalOf(s, pushes[i].emission) == SignalOf(s, pushes[j].emission) ==>
      pushes[i].emission <= pushes[j].emission
  }

  /** Later emissions of a signal push later, and only while earlier ones are over. */
  ghost predicate InOrder(s: State) {
    && (forall i {:trigger s.log[i]} :: 0 <= i < |s.log| ==> s.log[i].emission < |s.emissions|)
    && InEmitOrder(s, s.log)
    && (forall m, n :: 0 <= m < n < |s.emissions| && s.emissions[m].signal == s.emissions[n].signal ==>
          !s.emissions[m].outcome.Running?)
  }

  ghost predicate Inv(s: State) { Held(s) && Counted(s) && InOrder(s) }

  lemma CallsGrow(log: seq<Push>, p: Push, n: nat)
    ensures CallsOf(log + [p], n) == CallsOf(log, n) + if p.emission == n then [p.conn] else []
  {
  }

  lemma {:induction false} NoCallsYet(log: seq<Push>, n: nat)
    requires forall i :: 0 <= i < |log| ==> log[i].emission < n
    ensures CallsOf(log, n) == []
  {
    if log != [] { NoCallsYet(log[..|log| - 1], n); }
  }

  lemma LockKeeps(s: State, x: nat)
    requires Inv(s) && x in s.signals && s.signals[x].holder.Nobody?
    ensures Inv(Step(s, Lock(x)))
  {
    hide CallsOf;
    var s' := Step(s, Lock(x));
    NoCallsYet(s.log, |s.emissions|);
    forall i, j | 0 <= i < j < |s'.log| && SignalOf(s', s'.log[i].emission) == SignalOf(s', s'.log[j].emission)
      ensures s'.log[i].emission <= s'.log[j].emission
    {
      assert SignalOf(s, s.log[i].emission) == SignalOf(s, s.log[j].emission);
    }
  }

  lemma EndKeeps(s: State, x: nat, outcome: Outcome)
    requires Inv(s) && x in s.signals && s.signals[x].holder.Emitter? && s.signals[x].holder.emission < |s.emissions|
    requires var e := s.emissions[s.signals[x].holder.emission];
             (outcome.Done? && e.pushed == |e.conns|) || (outcome.Failed? && e.pushed < |e.conns|)
    ensures Inv(Finish(s, x, s.emissions[s.signals[x].holder.emission], outcome))
  {
  }

  lemma PushKeeps(s: State, x: nat)
    requires Inv(s) && x in s.signals && s.signals[x].holder.Emitter? && s.signals[x].holder.emission < |s.emissions|
    requires var e := s.emissions[s.signals[x].holder.emission]; e.pushed < |e.conns|
    ensures Inv(PushStep(s, x, true))
  {
    hide CallsOf;
    var n := s.signals[x].holder.emission;
    var e := s.emissions[n];
    var s' := PushStep(s, x, true);
    var p := Push(n, e.conns[e.pushed]);
    assert s.emissions[n].outcome.Running?;
    forall m | 0 <= m < |s'.emissions|
      ensures CallsOf(s'.log, m) == s'.emissions[m].conns[..s'.emissions[m].pushed]
    {
      CallsGrow(s.log, p, m);
      assert e.conns[..e.pushed + 1] == e.conns[..e.pushed] + [e.conns[e.pushed]];
    }
    forall i, j | 0 <= i < j < |s'.log| && SignalOf(s', s'.log[i].emission) == SignalOf(s', s'.log[j].emission)
      ensures s'.log[i].emission <= s'.log[j].emission
    {
      assert SignalOf(s, s.log[i].emission) == SignalOf(s, s'.log[j].emission);
    }
  }

  lemma StepKeeps(s: State, a: Action)
    requires Inv(s)
    ensures Inv(Step(s, a))
  {
    hide CallsOf, Inv;
    match a {
      case Lock(x) => if x in s.signals && s.signals[x].holder.Nobody? { LockKeeps(s, x); }
      case TryPush(x, accepted) =>
        if x in s.signals && s.signals[x].holder.Emitter? && s.signals[x].holder.emission < |s.emissions| {
          HeldRuns(s, x);
          var e := s.emissions[s.signals[x].holder.emission];
          if e.pushed >= |e.conns| { EndKeeps(s, x, Done); }
          else if !accepted { EndKeeps(s, x, Failed); }
          else { PushKeeps(s, x); }
        }
      case _ => SlotsKeep(s, a);
    }
  }

  lemma HeldRuns(s: State, x: nat)
    requires Inv(s) && x in s.signals && s.signals[x].holder.Emitter? && s.signals[x].holder.emission < |s.emissions|
    ensures s.emissions[s.signals[x].holder.emission].pushed <= |s.emissions[s.signals[x].holder.emission].conns|
  {
  }

  /** Connections change only while nobody holds the signal, so no running emission notices. */
  lemma SlotsKeep(s: State, a: Action)
    requires Inv(s) && (a.Connect? || a.Disconnect?)
    ensures Inv(Step(s, a))
  {
    hide CallsOf, WithoutId;
    var s' := Step(s, a);
    forall i, j | 0 <= i < j < |s'.log| && SignalOf(s', s'.log[i].emission) == SignalOf(s', s'.log[j].emission)
      ensures s'.log[i].emission <= s'.log[j].emission
    {
      assert SignalOf(s, s.log[i].emission) == SignalOf(s, s.log[j].emission);
    }
  }

  lemma {:induction false} RunKeeps(signals: set<nat>, actions: seq<Action>)
    ensures Inv(Run(Init(signals), actions))
    decreases |actions|
  {
    if actions != [] {
      RunKeeps(signals, actions[..|actions| - 1]);
      StepKeeps(Run(Init(signals), actions[..|actions| - 1]), actions[|actions| - 1]);
    }
  }

  /**
   Over every run: an emit that succeeded queued exactly one call for each connection it found under the lock, in
   their order; one that failed, or is still under way, queued calls for a prefix, a proper one if it failed.
   */
  lemma EmitsArePrefixes(signals: set<nat>, actions: seq<Action>, n: nat)
    requires n < |Run(Init(signals), actions).emissions|
    ensures var s := Run(Init(signals), actions); var e := s.emissions[n];
            && CallsOf(s.log, n) <= e.conns
            && (e.outcome.Done? ==> CallsOf(s.log, n) == e.conns)
            && (e.outcome.Failed? ==> |CallsOf(s.log, n)| < |e.conns|)
  {
    RunKeeps(signals, actions);
  }

  /**
   Over every run, whatever loops the connections live on: all calls of an earlier emit of a signal are queued before
   all calls of a later one, so any two connections of the signal see its emits in the same relative order.
   */
  lemma EmitsKeepOrder(signals: set<nat>, actions: seq<Action>, i: nat, j: nat)
    requires var s := Run(Init(signals), actions);
             && i < |s.log| && j < |s.log|
             && SignalOf(s, s.log[i].emission) == SignalOf(s, s.log[j].emission)
             && s.log[i].emission < s.log[j].emission
    ensures i < j
  {
    RunKeeps(signals, actions);
  }

  /** The next emit finds a new connection behind all others, and does not find one that has left. */
  lemma EmitFindsConnected(s: State, x: nat, conn: Conn, k: nat)
    requires x in s.signals && s.signals[x].holder.Nobody?
    ensures var slots := s.signals[x].slots;
            && Run(s, [Connect(x, conn), Lock(x)]).emissions == s.emissions + [Emission(x, slots + [conn], 0, Running)]
            && (k < |slots| && (forall i :: 0 <= i < k ==> slots[i].id != slots[k].id) ==>
                  Run(s, [Disconnect(x, slots[k].id), Lock(x)]).emissions
                  == s.emissions + [Emission(x, slots[..k] + slots[k + 1..], 0, Running)])
  {
    hide Step, WithoutId;
    var slots := s.signals[x].slots;
    RunTwo(s, Connect(x, conn), Lock(x));
    LocksWith(s, x, Connect(x, conn), slots + [conn]);
    if k < |slots| && forall i :: 0 <= i < k ==> slots[i].id != slots[k].id {
      DisconnectTakesOne(slots, k);
      RunTwo(s, Disconnect(x, slots[k].id), Lock(x));
      LocksWith(s, x, Disconnect(x, slots[k].id), slots[..k] + slots[k + 1..]);
    }
  }

  lemma LocksWith(s: State, x: nat, a: Action, slots: seq<Conn>)
    requires x in s.signals && s.signals[x].holder.Nobody?
    requires (a.Connect? && a.signal == x && slots == s.signals[x].slots + [a.conn])
             || (a.Disconnect? && a.signal == x && slots == WithoutId(s.signals[x].slots, a.id))
    ensures Step(Step(s, a), Lock(x)).emissions == s.emissions + [Emission(x, slots, 0, Running)]
  {
    hide WithoutId;
  }

  lemma RunTwo(s: State, a: Action, b: Action)
    ensures Run(s, [a, b]) == Step(Step(s, a), b)
  {
    hide Step;
    assert [a, b][..1] == [a] && [a][..0] == [];
    assert Run(s, [a]) == Step(Run(s, []), a);
  }

  // ---- what the loops run ----

  /** The pushes that went to one loop, in the order in which they won their place in its ring. */
  function OnLoop(log: seq<Push>, loop: nat): seq<Push> {
    if log == [] then []
    else
      var k := |log| - 1;
      OnLoop(log[..k], loop) + if log[k].conn.loop == loop then [log[k]] else []
  }

  lemma {:induction false} OnLoopInOrder(s: State, log: seq<Push>, loop: nat)
    requires InEmitOrder(s, log)
    ensures InEmitOrder(s, OnLoop(log, loop)) && forall p :: p in OnLoop(log, loop) ==> p in log && p.conn.loop == loop
    decreases |log|
  {
    hide SignalOf;
    if log != [] {
      var front := log[..|log| - 1];
      assert forall p :: p in front ==> p in log;
      OnLoopInOrder(s, front, loop);
      var before, all := OnLoop(front, loop), OnLoop(log, loop);
      forall i, j | 0 <= i < j < |all| && SignalOf(s, all[i].emission) == SignalOf(s, all[j].emission)
        ensures all[i].emission <= all[j].emission
      {
        if j == |before| {
          assert all[i] in front;
          var k :| 0 <= k < |front| && front[k] == all[i];
          assert log[k] == all[i] && log[|log| - 1] == all[j];
        }
      }
    }
  }

  function Encoded(pushes: seq<Push>, encode: Push -> seq<RecordWords.byte>): seq<seq<RecordWords.byte>> {
    seq(|pushes|, i requires 0 <= i < |pushes| => encode(pushes[i]))
  }

  /**
   Over every run of the emitters and of a loop's ring that holds their pushes to this loop: the loop has run a prefix
   of these calls, each with the bytes that were pushed, and every connection on it sees the emits of a signal in the
   order in which they took its mutex.
   */
  lemma LoopsRunInOrder(signals: set<nat>, actions: seq<Action>, loop: nat,
      c: RecordRing.Config, pids: set<nat>, moves: seq<RecordRing.Action>, encode: Push -> seq<RecordWords.byte>)
    requires RecordFormat.ValidCapacity(c.layout, c.cap)
    requires RecordRingTheorems.Pushed(RecordRing.Run(c, RecordRing.Init(c, pids), moves))
             == Encoded(OnLoop(Run(Init(signals), actions).log, loop), encode)
    ensures var s := Run(Init(signals), actions);
            var ran := RecordRing.Run(c, RecordRing.Init(c, pids), moves).delivered;
            var calls := OnLoop(s.log, loop);
            && |ran| <= |calls| && ran == Encoded(calls[..|ran|], encode) && InEmitOrder(s, calls[..|ran|])
  {
    hide OnLoop, Encoded;
    var s := Run(Init(signals), actions);
    RunKeeps(signals, actions);
    OnLoopInOrder(s, s.log, loop);
    RecordRingTheorems.DeliveredIsPrefix(c, pids, moves);
    EncodedPrefix(OnLoop(s.log, loop), RecordRing.Run(c, RecordRing.Init(c, pids), moves).delivered, encode);
  }

  lemma EncodedPrefix(pushes: seq<Push>, ran: seq<seq<RecordWords.byte>>, encode: Push -> seq<RecordWords.byte>)
    requires ran <= Encoded(pushes, encode)
    ensures |ran| <= |pushes| && ran == Encoded(pushes[..|ran|], encode)
  {
  }
}
