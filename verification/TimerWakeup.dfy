/**
 The whole broker: the request protocol of `BrokerOps` and the threads that arm timers, around one event. The sleep
 is computed from the earliest deadline under the timer mutex, and a thread that starts or restarts a timer notifies,
 after unlocking, only if its timer became the leftmost. Mutex sections are single steps; the clock only moves
 forward.
 */
module TimerWakeup {
  import Timer
  import BrokerOps

  const OK := BrokerOps.OK

  datatype Sleep = Forever | Until(deadline: int)

  /** `due` are the armed timers, `notifying` the threads between unlock and notify, `base` the sleep computed last. */
  datatype State = State(ops: BrokerOps.State, clock: int, due: map<nat, int>, notifying: set<nat>, base: Sleep)

  datatype Action =
    | Tick(elapsed: nat)
    | StartTimer(u: nat, t: nat, interval: nat)
    | RestartTimer(u: nat, t: nat, interval: nat)
    | RestartFails(t: nat)   // the old deadline is gone, the clock could not be read
    | CancelTimer(u: nat, t: nat, wasFirst: bool)
    | Notify(u: nat, rc: int)
    | Compute(base: Sleep)
    | ComputeFails           // the clock or the timer mutex failed and the timeout kept its initial value
    | Fire(left: map<nat, int>)
    | Ops(op: BrokerOps.Action)

  function Init(users: set<nat>, clock: int): State { State(BrokerOps.Init(users), clock, map[], {}, Forever) }

  /** The timer would stand first: every other armed timer is due later. */
  predicate BecomesFirst(due: map<nat, int>, t: nat, deadline: int) {
    forall v :: v in due && v != t ==> due[v] > deadline
  }

  /** Arming under the mutex: the deadline is one interval from now, and only a new leftmost asks for a notification. */
  function Arm(s: State, u: nat, t: nat, interval: nat): State {
    var deadline := s.clock + interval;
    s.(due := s.due[t := deadline],
       notifying := if BecomesFirst(s.due, t, deadline) then s.notifying + {u} else s.notifying)
  }

  /** Cancelling the leftmost asks for a notification if another timer is left. */
  function Disarm(s: State, u: nat, t: nat, wasFirst: bool): State {
    var rest := s.due - {t};
    s.(due := rest, notifying := if wasFirst && rest != map[] then s.notifying + {u} else s.notifying)
  }

  /** Which timers may stand leftmost: nothing is due earlier, and alone if nothing else is due then. */
  predicate MayBeFirst(due: map<nat, int>, t: nat, first: bool)
    requires t in due
  {
    && (first ==> forall v :: v in due ==> due[t] <= due[v])
    && (BecomesFirst(due, t, due[t]) ==> first)
  }

  /** The deadline that `ns_timer_mgr_next_timeout` reports, or none. */
  predicate Earliest(due: map<nat, int>, base: Sleep) {
    match base
    case Forever => due == map[]
    case Until(d) => (exists t :: t in due && due[t] == d) && forall t :: t in due ==> d <= due[t]
  }

  /** What a firing pass may leave behind: timers due later untouched, the others gone or armed for the future. */
  predicate Fired(s: State, left: map<nat, int>) {
    && (forall t :: t in s.due && s.due[t] > s.clock ==> t in left && left[t] == s.due[t])
    && (forall t :: t in left ==> t in s.due && left[t] > s.clock)
  }

  /** Steps of the request protocol; the broker leaves its computing phase by `Compute` or `ComputeFails` only. */
  predicate OwnStep(s: State, op: BrokerOps.Action) {
    op.Submit? || op.Return? || (op.Broker? && !s.ops.pc.Computing?)
  }

  function Sleeping(s: State, base: Sleep): State
    requires s.ops.pc.Computing?
  {
    s.(ops := s.ops.(pc := BrokerOps.Asleep), base := base)
  }

  function Step(s: State, a: Action): State {
    match a
    case Tick(elapsed) => s.(clock := s.clock + elapsed)
    case StartTimer(u, t, interval) => if u !in s.notifying && t !in s.due then Arm(s, u, t, interval) else s
    case RestartTimer(u, t, interval) => if u !in s.notifying then Arm(s, u, t, interval) else s
    case RestartFails(t) => s.(due := s.due - {t})
    case CancelTimer(u, t, wasFirst) =>
      if u !in s.notifying && t in s.due && MayBeFirst(s.due, t, wasFirst) then Disarm(s, u, t, wasFirst) else s
    case Notify(u, rc) =>
      if u in s.notifying
      then s.(ops := BrokerOps.Step(s.ops, BrokerOps.Notify(rc)), notifying := s.notifying - {u})
      else s
    case Compute(base) => if s.ops.pc.Computing? && Earliest(s.due, base) then Sleeping(s, base) else s
    case ComputeFails => if s.ops.pc.Computing? then Sleeping(s, Forever) else s
    case Fire(left) => if s.ops.pc.Firing? && Fired(s, left) then s.(due := left) else s
    case Ops(op) => if OwnStep(s, op) then s.(ops := BrokerOps.Step(s.ops, op)) else s
  }

  function Run(s: State, actions: seq<Action>): State
    decreases |actions|
  {
    if actions == [] then s else Step(Run(s, actions[..|actions| - 1]), actions[|actions| - 1])
  }

  // ---- the request protocol inside ----

  /** What a step means to the request protocol: one of its steps, or nothing. */
  function Seen(s: State, a: Action, env: BrokerOps.Env): seq<BrokerOps.Action> {
    match a
    case Notify(u, rc) => if u in s.notifying then [BrokerOps.Notify(rc)] else []
    case Compute(base) => if s.ops.pc.Computing? && Earliest(s.due, base) then [BrokerOps.Broker(env)] else []
    case ComputeFails => if s.ops.pc.Computing? then [BrokerOps.Broker(env)] else []
    case Ops(op) => if OwnStep(s, op) then [op] else []
    case _ => []
  }

  function SeenIn(s: State, actions: seq<Action>, env: BrokerOps.Env): seq<BrokerOps.Action>
    decreases |actions|
  {
    if actions == [] then []
    else
      var n := |actions| - 1;
      SeenIn(s, actions[..n], env) + Seen(Run(s, actions[..n]), actions[n], env)
  }

  /** Every run of the whole broker is a run of its request protocol, so all that holds of those holds here. */
  lemma {:induction false} RunsTheProtocol(s: State, actions: seq<Action>, env: BrokerOps.Env)
    ensures Run(s, actions).ops == BrokerOps.Run(s.ops, SeenIn(s, actions, env))
    decreases |actions|
  {
    hide OwnStep, Earliest, Fired, MayBeFirst, BecomesFirst;
    if actions != [] {
      var n := |actions| - 1;
      RunsTheProtocol(s, actions[..n], env);
      var seen, next := SeenIn(s, actions[..n], env), Seen(Run(s, actions[..n]), actions[n], env);
      StepIsSeen(Run(s, actions[..n]), actions[n], env);
      assert seen + [] == seen;
      if next != [] { assert (seen + next)[..|seen|] == seen; }
    }
  }

  lemma StepIsSeen(s: State, a: Action, env: BrokerOps.Env)
    ensures var seen := Seen(s, a, env);
            && |seen| <= 1
            && Step(s, a).ops == if seen == [] then s.ops else BrokerOps.Step(s.ops, seen[0])
  {
    hide Earliest, Fired, MayBeFirst, BecomesFirst;
  }

  // ---- no lost wakeup ----

  /** The sleep was computed from a deadline no later than this one. */
  predicate Covers(base: Sleep, deadline: int) { base.Until? && base.deadline <= deadline }

  predicate AllCovered(s: State) { forall t :: t in s.due ==> Covers(s.base, s.due[t]) }

  /** A sleeping broker has reckoned with every timer, or its event is set, or a thread is about to set it. */
  ghost predicate Attended(s: State) {
    s.ops.pc.Asleep? ==> s.ops.event || s.notifying != {} || AllCovered(s)
  }

  /**
   The steps that lose a wakeup, by the guards of their branches: computing the timeout fails while a timer is armed
   and nobody sets the event; the event signal of the last notifying thread fails while the broker sleeps too long;
   and the request protocol's failing lock.
   */
  ghost predicate Harmless(s: State, a: Action) {
    match a
    case ComputeFails => s.ops.pc.Computing? ==> s.due == map[] || s.ops.event || s.notifying != {}
    case Notify(u, rc) =>
      rc != OK && s.notifying == {u} && s.ops.pc.Asleep? ==> s.ops.event || AllCovered(s)
    case Ops(op) => BrokerOps.Harmless(s.ops, op)
    case _ => true
  }

  /** The failures behind those: a computing that fails with a timer armed, a failing notify signal, a failing lock. */
  predicate Fails(s: State, a: Action) {
    || (a.ComputeFails? && s.due != map[])
    || (a.Notify? && a.rc != OK)
    || (a.Ops? && a.op.Broker? && !a.op.env.locked)
  }

  ghost predicate NothingLost(s: State) { BrokerOps.Awakened(s.ops) && Attended(s) }

  lemma TimerStepAttended(s: State, a: Action)
    requires Attended(s) && !a.Ops? && !a.Notify? && !a.ComputeFails?
    ensures Attended(Step(s, a)) && Step(s, a).ops.queue == s.ops.queue
    ensures BrokerOps.Awakened(s.ops) ==> BrokerOps.Awakened(Step(s, a).ops)
  {
  }

  lemma OpsStepAttended(s: State, op: BrokerOps.Action)
    requires Attended(s) && OwnStep(s, op)
    ensures Attended(Step(s, Ops(op)))
  {
    hide BrokerOps.Execute, BrokerOps.Collected, BrokerOps.MayCollect;
    if op.Broker? && s.ops.pc.Executing? && s.ops.pc.id < |s.ops.accepted| {
      BrokerOps.ExecuteLeavesEvent(s.ops, s.ops.pc.comps, s.ops.pc.id, op.env);
    }
  }

  /** Exactly the harmful steps lose a wakeup. */
  lemma StepLoses(s: State, a: Action)
    requires NothingLost(s)
    ensures NothingLost(Step(s, a)) <==> Harmless(s, a)
  {
    hide BecomesFirst, MayBeFirst, Earliest, Fired;
    match a {
      case Ops(op) =>
        hide BrokerOps.Step, BrokerOps.Awakened, Attended;
        if OwnStep(s, op) {
          BrokerOps.StepAwakened(s.ops, op);
          OpsStepAttended(s, op);
        }
      case Notify(u, rc) =>
      case ComputeFails => NoneCovered(s.due);
      case _ => TimerStepAttended(s, a);
    }
  }

  lemma NoneCovered(due: map<nat, int>)
    ensures (forall t :: t in due ==> Covers(Forever, due[t])) <==> due == map[]
  {
    if due != map[] {
      var t :| t in due;
      assert !Covers(Forever, due[t]);
    }
  }

  /** No state of the run has lost a wakeup. */
  ghost predicate NeverLost(s: State, actions: seq<Action>)
    decreases |actions|
  {
    NothingLost(Run(s, actions)) && (actions != [] ==> NeverLost(s, actions[..|actions| - 1]))
  }

  ghost predicate AllHarmless(s: State, actions: seq<Action>)
    decreases |actions|
  {
    actions != [] ==>
      var n := |actions| - 1;
      AllHarmless(s, actions[..n]) && Harmless(Run(s, actions[..n]), actions[n])
  }

  predicate NoneFails(s: State, actions: seq<Action>)
    decreases |actions|
  {
    actions != [] ==>
      var n := |actions| - 1;
      NoneFails(s, actions[..n]) && !Fails(Run(s, actions[..n]), actions[n])
  }

  /**
   Over every run: no wakeup is ever lost exactly if every step was harmless. While nothing is lost, a sleeping broker
   has its event set if a request waits, and the deadline its sleep was computed from is no later than every armed one,
   or its event is set, or some thread stands between unlocking and notifying. Notifying only when a timer became the
   leftmost is enough, although a restarted timer may itself have been the one slept for.
   */
  lemma {:induction false} NoLostWakeup(users: set<nat>, clock: int, actions: seq<Action>)
    ensures NeverLost(Init(users, clock), actions) <==> AllHarmless(Init(users, clock), actions)
    decreases |actions|
  {
    if actions == [] {
      StartsAttended(users, clock);
    } else {
      hide NothingLost, Harmless, Step;
      var n, s := |actions| - 1, Init(users, clock);
      NoLostWakeup(users, clock, actions[..n]);
      if NothingLost(Run(s, actions[..n])) { StepLoses(Run(s, actions[..n]), actions[n]); }
    }
  }

  lemma StartsAttended(users: set<nat>, clock: int)
    ensures NothingLost(Init(users, clock))
  {
  }

  /** In particular nothing is lost in a run without those failures. */
  lemma {:induction false} NoFailureNoLoss(users: set<nat>, clock: int, actions: seq<Action>)
    requires NoneFails(Init(users, clock), actions)
    ensures NothingLost(Run(Init(users, clock), actions))
  {
    HarmlessUnlessFailing(Init(users, clock), actions);
    NoLostWakeup(users, clock, actions);
  }

  lemma {:induction false} HarmlessUnlessFailing(s: State, actions: seq<Action>)
    requires NoneFails(s, actions)
    ensures AllHarmless(s, actions)
    decreases |actions|
  {
    if actions != [] { HarmlessUnlessFailing(s, actions[..|actions| - 1]); }
  }

  /** The rule by which the timer queue reports a new leftmost is the one used here: everything else is due later. */
  lemma FirstPlaceIsBecomesFirst(queue: seq<Timer.Timer>, due: int, pos: int)
    requires Timer.PlaceOf(queue, due, pos)
    ensures pos == 0 <==> forall i :: 0 <= i < |queue| ==> queue[i].due > due
  {
    if pos > 0 { assert queue[0].due <= due; }
  }

  /** A thread comes to notify exactly by arming a timer before all others, or by cancelling the first of several. */
  lemma NotifiesExactly(s: State, a: Action, u: nat)
    requires u !in s.notifying
    ensures u in Step(s, a).notifying <==>
              match a
              case StartTimer(v, t, interval) =>
                v == u && t !in s.due && forall x :: x in s.due ==> s.clock + interval < s.due[x]
              case RestartTimer(v, t, interval) =>
                v == u && forall x :: x in s.due && x != t ==> s.clock + interval < s.due[x]
              case CancelTimer(v, t, wasFirst) =>
                v == u && wasFirst && t in s.due && MayBeFirst(s.due, t, true) && exists x :: x in s.due && x != t
              case _ => false
  {
    if a.CancelTimer? {
      var rest := s.due - {a.t};
      assert forall x :: x in rest <==> x in s.due && x != a.t;
      if rest != map[] {
        var x :| x in rest;
        assert x in s.due && x != a.t;
      }
    }
  }

  /** What a step does to the armed timers: nobody's deadline moves but that of a restarted one. */
  lemma ArmsExactly(s: State, a: Action, v: nat)
    requires !a.Fire?
    ensures v in Step(s, a).due <==>
              match a
              case StartTimer(u, t, _) => v in s.due || (v == t && u !in s.notifying)
              case RestartTimer(u, t, _) => v in s.due || (v == t && u !in s.notifying)
              case RestartFails(t) => v in s.due && v != t
              case CancelTimer(u, t, wasFirst) =>
                v in s.due && (v != t || u in s.notifying || !MayBeFirst(s.due, v, wasFirst))
              case _ => v in s.due
    ensures v in Step(s, a).due && v in s.due && !(a.RestartTimer? && a.t == v) ==> Step(s, a).due[v] == s.due[v]
  {
  }

  // ---- runs that do lose a wakeup ----

  lemma {:induction false} Then(s: State, actions: seq<Action>, a: Action)
    ensures Run(s, actions + [a]) == Step(Run(s, actions), a)
    ensures AllHarmless(s, actions + [a]) <==> AllHarmless(s, actions) && Harmless(Run(s, actions), a)
  {
    assert (actions + [a])[..|actions|] == actions;
  }

  /** A broker step in which nothing fails and the wait returns the event alone. */
  const BROKER_STEP := Ops(BrokerOps.Broker(BrokerOps.Env([], true, true, true, true, OK, true)))

  function AtPhase(s: State, i: nat): State {
    var ops := s.ops.(event := i < 2);
    s.(ops := if i == 0 then ops.(pc := BrokerOps.Asleep)
              else if i == 1 then ops.(pc := BrokerOps.Woken([], true))
              else if i == 2 then ops.(pc := BrokerOps.Draining([]))
              else if i == 3 then ops.(pc := BrokerOps.Dispatching([], 0))
              else if i == 4 then ops.(pc := BrokerOps.Firing)
              else ops.(pc := BrokerOps.Computing))
  }

  lemma PhaseStep(s: State, i: nat)
    requires s.ops.queue == [] && i < 5
    ensures Step(AtPhase(s, i), BROKER_STEP) == AtPhase(s, i + 1) && Harmless(AtPhase(s, i), BROKER_STEP)
  {
    if i == 0 { assert BrokerOps.Collected(AtPhase(s, i).ops, BROKER_STEP.op.env) == []; }
  }

  /** The broker's round from computing the timeout to computing it again, with its event set and nothing due. */
  lemma OneRound(s0: State, before: seq<Action>, deadline: int) returns (actions: seq<Action>)
    requires AllHarmless(s0, before)
    requires var s := Run(s0, before);
             && s.ops.pc.Computing? && s.ops.event && s.ops.queue == [] && Earliest(s.due, Until(deadline))
    ensures AllHarmless(s0, actions)
    ensures Run(s0, actions) == var s := Run(s0, before); s.(ops := s.ops.(event := false), base := Until(deadline))
  {
    hide Run, AllHarmless, Earliest, BrokerOps.BrokerStep;
    actions := before + [Compute(Until(deadline))];
    Then(s0, before, Compute(Until(deadline)));
    var i := 0;
    while i < 5
      invariant 0 <= i <= 5 && AllHarmless(s0, actions)
      invariant Run(s0, actions) == AtPhase(Run(s0, before).(base := Until(deadline)), i)
    {
      PhaseStep(Run(s0, before).(base := Until(deadline)), i);
      Then(s0, actions, BROKER_STEP);
      actions := actions + [BROKER_STEP];
      i := i + 1;
    }
  }

  /** One thread arms a timer for 100 and notifies; the broker computes its sleep, wakes and goes through a round. */
  lemma ArmedRun() returns (actions: seq<Action>)
    ensures AllHarmless(Init({}, 0), actions)
    ensures Run(Init({}, 0), actions) == Init({}, 0).(due := map[7 := 100], base := Until(100))
  {
    hide Run, AllHarmless;
    var s0 := Init({}, 0);
    RunsNothing(s0);
    Then(s0, [], StartTimer(1, 7, 100));
    Then(s0, [] + [StartTimer(1, 7, 100)], Notify(1, OK));
    actions := [] + [StartTimer(1, 7, 100)] + [Notify(1, OK)];
    var s := Run(s0, actions);
    assert s.due[7] == 100;
    actions := OneRound(s0, actions, 100);
  }

  lemma RunsNothing(s: State)
    ensures Run(s, []) == s && AllHarmless(s, [])
  {
  }

  /**
   A reachable broker that sleeps for ever with a timer armed, its event clear and nobody about to notify: its one
   failing step is the computing of the timeout.
   */
  lemma FailedComputeSleepsForever()
    ensures exists actions :: AllHarmless(Init({}, 0), actions)
              && var s := Run(Init({}, 0), actions + [ComputeFails]);
                 s.ops.pc.Asleep? && s.base == Forever && !s.ops.event && s.notifying == {} && s.due == map[7 := 100]
  {
    hide Run, AllHarmless;
    var actions := ArmedRun();
    Then(Init({}, 0), actions, ComputeFails);
  }

  /** Dropping one became-leftmost notification loses a wakeup: the broker sleeps until 100 with a timer due at 50. */
  lemma NotifyIsNeeded()
    ensures exists actions, rc :: AllHarmless(Init({}, 0), actions)
              && var s := Run(Init({}, 0), actions + [Notify(1, rc)]);
                 && s.ops.pc.Asleep? && s.base == Until(100) && !s.ops.event && s.notifying == {}
                 && s.due == map[7 := 100, 8 := 50]
  {
    hide Run, AllHarmless, BrokerOps.BrokerStep, BrokerOps.SubmitStep, Fired, MayBeFirst;
    var s0, rc := Init({}, 0), -1;
    var armed := ArmedRun();
    var s := Run(s0, armed);
    assert s.due[7] == 100;
    Then(s0, armed, Compute(Until(100)));
    var asleep := armed + [Compute(Until(100))];
    Then(s0, asleep, StartTimer(1, 8, 50));
    var actions := asleep + [StartTimer(1, 8, 50)];
    Then(s0, actions, Notify(1, rc));
  }

  /** A restarted timer moves to an earlier deadline exactly if its new interval is shorter than its remaining time. */
  lemma RestartMayComeEarlier(s: State, u: nat, t: nat, interval: nat)
    requires u !in s.notifying && t in s.due
    ensures var s' := Step(s, RestartTimer(u, t, interval));
            t in s'.due && (s'.due[t] < s.due[t] <==> interval < s.due[t] - s.clock)
    ensures exists actions :: AllHarmless(Init({}, 0), actions)
              && Run(Init({}, 0), actions).due == map[7 := 100]
              && Run(Init({}, 0), actions + [RestartTimer(1, 7, 50)]).due == map[7 := 50]
  {
    hide Run, AllHarmless;
    var actions := ArmedRun();
    Then(Init({}, 0), actions, RestartTimer(1, 7, 50));
  }
}
