/**
 The broker thread and the threads that ask it to add or remove watchers: a queue of requests that live on their
 callers' stacks, a sticky event, and the array of completions collected in the current round. Mutex sections are
 single steps. Every platform call of the protocol may fail.
 */
module BrokerOps {
  const OK := 0
  const E_INVAL := -3
  const E_EXISTS := -6
  const COMPLETION_CAPACITY := 16

  datatype Op = Add | Remove

  datatype Request = Request(op: Op, w: nat, user: nat)

  datatype User = Free(last: int) | Blocked(id: nat)

  /** One entry of the completion array; `since` is the length of the log when it was collected. */
  datatype Completion = Nulled | Ready(w: nat, since: nat)

  datatype Pc =
    | Computing
    | Asleep
    | Woken(comps: seq<Completion>, eventIn: bool)
    | Draining(comps: seq<Completion>)
    | Executing(comps: seq<Completion>, id: nat)
    | Signalling(comps: seq<Completion>, id: nat)
    | Dispatching(comps: seq<Completion>, next: nat)
    | Firing

  datatype Note = Added(w: nat) | Removed(w: nat) | Called(w: nat, since: nat)

  /**
   `queue` and ids name requests by their place in `accepted`. `results` are the rc fields written so far, `woken`
   the requests whose wakeup was signalled, `muted` those whose signal failed, `live` those whose stack frame still
   exists. `log` only observes.
   */
  datatype State = State(
    accepted: seq<Request>,
    queue: seq<nat>,
    results: seq<int>,
    woken: set<nat>,
    muted: set<nat>,
    live: set<nat>,
    users: map<nat, User>,
    event: bool,
    registered: set<nat>,
    context: set<nat>,      // watchers whose user_data is set
    pc: Pc,
    log: seq<Note>)

  /** What the platform and the caller's watcher contribute to a broker step. */
  datatype Env = Env(
    collect: seq<nat>, eventIn: bool, // what the wait returns
    drained: bool,                    // draining the event succeeds
    locked: bool,                     // locking the queue succeeds
    initialised: bool, platformRc: int,
    signalled: bool)                  // signalling the caller succeeds

  datatype Action =
    | Submit(u: nat, op: Op, w: nat, rc: int)
    | Return(u: nat)
    | Notify(rc: int)   // a timer asks for attention through the same event
    | Broker(env: Env)

  function Init(users: set<nat>): State {
    State([], [], [], {}, {}, {}, map u | u in users :: Free(OK), false, {}, {}, Computing, [])
  }

  /** `ns_broker_queue_op`: under the lock, push and signal; a failing lock or signal leaves no request behind. */
  function SubmitStep(s: State, u: nat, op: Op, w: nat, rc: int): State {
    if u in s.users && s.users[u].Free? then
      if rc != OK then s.(users := s.users[u := Free(rc)])
      else
        var id := |s.accepted|;
        s.(accepted := s.accepted + [Request(op, w, u)], queue := s.queue + [id], live := s.live + {id},
           event := true, users := s.users[u := Blocked(id)])
    else s
  }

  /** The caller's wait ends with the signal; it reads rc and its frame is gone. */
  function ReturnStep(s: State, u: nat): State {
    if u in s.users && s.users[u].Blocked? && s.users[u].id in s.woken && s.users[u].id < |s.results|
    then s.(users := s.users[u := Free(s.results[s.users[u].id])], live := s.live - {s.users[u].id})
    else s
  }

  /** `ns_broker_do_add`; the platform refuses a registered watcher. A failure clears user_data. */
  function AddRc(s: State, w: nat, env: Env): int {
    if !env.initialised then E_INVAL else if w in s.registered then E_EXISTS else env.platformRc
  }

  /** `ns_broker_do_remove`; the platform refuses a watcher that is not registered. */
  function RemoveRc(s: State, w: nat, env: Env): int {
    if !env.initialised || w !in s.registered then E_INVAL else env.platformRc
  }

  function NullOut(comps: seq<Completion>, w: nat): (r: seq<Completion>)
    ensures |r| == |comps|
    ensures forall i :: 0 <= i < |comps| ==> r[i] == if comps[i].Ready? && comps[i].w == w then Nulled else comps[i]
  {
    seq(|comps|, i requires 0 <= i < |comps| => if comps[i].Ready? && comps[i].w == w then Nulled else comps[i])
  }

  function Execute(s: State, comps: seq<Completion>, id: nat, env: Env): State
    requires id < |s.accepted|
  {
    var w := s.accepted[id].w;
    match s.accepted[id].op
    case Add =>
      var rc := AddRc(s, w, env);
      if rc == OK then
        s.(registered := s.registered + {w}, context := s.context + {w}, log := s.log + [Added(w)],
           results := s.results + [rc], pc := Signalling(comps, id))
      else
        s.(context := if env.initialised then s.context - {w} else s.context,
           results := s.results + [rc], pc := Signalling(comps, id))
    case Remove =>
      var rc := RemoveRc(s, w, env);
      if rc == OK then
        s.(registered := s.registered - {w}, context := s.context - {w}, log := s.log + [Removed(w)],
           results := s.results + [rc], pc := Signalling(NullOut(comps, w), id))
      else
        s.(results := s.results + [rc], pc := Signalling(comps, id))
  }

  /** What a wait may return: registered watchers, and the broker's own event if it is set. */
  predicate MayCollect(s: State, env: Env) {
    && |env.collect| + (if env.eventIn then 1 else 0) <= COMPLETION_CAPACITY
    && (forall i :: 0 <= i < |env.collect| ==> env.collect[i] in s.registered)
    && (env.eventIn ==> s.event)
  }

  function Collected(s: State, env: Env): seq<Completion> {
    seq(|env.collect|, i requires 0 <= i < |env.collect| => Ready(env.collect[i], |s.log|))
  }

  function BrokerStep(s: State, env: Env): State {
    match s.pc
    case Computing => s.(pc := Asleep)
    case Asleep => if MayCollect(s, env) then s.(pc := Woken(Collected(s, env), env.eventIn)) else s
    case Woken(comps, eventIn) => s.(event := s.event && !(eventIn && env.drained), pc := Draining(comps))
    case Draining(comps) =>
      if !env.locked || s.queue == [] then s.(pc := Dispatching(comps, 0))
      else s.(queue := s.queue[1..], pc := Executing(comps, s.queue[0]))
    case Executing(comps, id) => if id < |s.accepted| then Execute(s, comps, id, env) else s
    case Signalling(comps, id) =>
      if env.signalled then s.(woken := s.woken + {id}, pc := Draining(comps))
      else s.(muted := s.muted + {id}, pc := Draining(comps))
    case Firing => s.(pc := Computing)
    case Dispatching(comps, next) =>
      if next >= |comps| then s.(pc := Firing)
      else if comps[next].Ready? && comps[next].w in s.context then
        s.(log := s.log + [Called(comps[next].w, comps[next].since)], pc := Dispatching(comps, next + 1))
      else s.(pc := Dispatching(comps, next + 1))
  }

  function Step(s: State, a: Action): State {
    match a
    case Submit(u, op, w, rc) => SubmitStep(s, u, op, w, rc)
    case Return(u) => ReturnStep(s, u)
    case Notify(rc) => s.(event := s.event || rc == OK)
    case Broker(env) => BrokerStep(s, env)
  }

  function Run(s: State, actions: seq<Action>): State
    decreases |actions|
  {
    if actions == [] then s else Step(Run(s, actions[..|actions| - 1]), actions[|actions| - 1])
  }

  // ---- the log ----

  /** Whether the log says the watcher is registered: its last change was an addition. */
  predicate RegisteredIn(log: seq<Note>, w: nat) {
    log != [] &&
    match log[|log| - 1]
    case Added(v) => v == w || RegisteredIn(log[..|log| - 1], w)
    case Removed(v) => v != w && RegisteredIn(log[..|log| - 1], w)
    case Called(_, _) => RegisteredIn(log[..|log| - 1], w)
  }

  /** Every handler call was for a watcher that is registered and has been since the event was collected. */
  ghost predicate CallsAreCurrent(log: seq<Note>) {
    forall j {:trigger log[j]} :: 0 <= j < |log| && log[j].Called? ==>
      && RegisteredIn(log[..j], log[j].w)
      && log[j].since <= j && RegisteredIn(log[..log[j].since], log[j].w)
      && (forall i :: log[j].since <= i < j ==> log[i] != Removed(log[j].w))
  }

  /** The registrations and removals in the log, in order. */
  function Changes(log: seq<Note>): seq<Note> {
    if log == [] then []
    else Changes(log[..|log| - 1]) + if log[|log| - 1].Called? then [] else [log[|log| - 1]]
  }

  /** What the first |results| accepted requests did, each once and in the order of the queue. */
  function Effects(accepted: seq<Request>, results: seq<int>): seq<Note>
    requires |results| <= |accepted|
  {
    if results == [] then []
    else
      var k := |results| - 1;
      Effects(accepted, results[..k])
      + if results[k] != OK then []
        else [if accepted[k].op.Add? then Added(accepted[k].w) else Removed(accepted[k].w)]
  }

  // ---- invariant ----

  /** The request the broker holds between taking it off the queue and signalling its caller. */
  function InHand(pc: Pc): set<nat> {
    match pc
    case Executing(_, id) => {id}
    case Signalling(_, id) => {id}
    case _ => {}
  }

  /** Requests are executed in the order of their acceptance: results first, then the one in hand, then the queue. */
  ghost predicate Ordered(s: State) {
    var taken := |s.accepted| - |s.queue|;
    && 0 <= taken
    && (forall i :: 0 <= i < |s.queue| ==> s.queue[i] == taken + i)
    && (match s.pc
        case Executing(_, id) => id == taken - 1 == |s.results|
        case Signalling(_, id) => id == taken - 1 == |s.results| - 1
        case _ => taken == |s.results|)
    && (forall id: nat :: id in s.woken || id in s.muted <==> id < |s.results| && id !in InHand(s.pc))
    && (forall id :: id in s.woken ==> id !in s.muted)
  }

  /** A request that was not returned yet is live and its caller is blocked on it. */
  ghost predicate Framed(s: State) {
    && (forall id :: 0 <= id < |s.accepted| && id !in s.woken ==>
          id in s.live && s.accepted[id].user in s.users && s.users[s.accepted[id].user] == Blocked(id))
    && (forall u :: u in s.users && s.users[u].Blocked? ==>
          s.users[u].id < |s.accepted| && s.accepted[s.users[u].id].user == u && s.users[u].id in s.live)
  }

  /** The broker is between the end of its wait and the end of its drain. */
  predicate InDrain(pc: Pc) { pc.Woken? || pc.Draining? || pc.Executing? || pc.Signalling? }

  /** Outside the drain phase a waiting request keeps the event set. */
  ghost predicate Awakened(s: State) { s.queue != [] ==> s.event || InDrain(s.pc) }

  /** The one way to lose a request's wakeup: the drain gives up on a failing lock after the event was cleared. */
  ghost predicate Harmless(s: State, a: Action) {
    a.Broker? && s.pc.Draining? && !a.env.locked ==> s.queue == [] || s.event
  }

  function CompsOf(pc: Pc): seq<Completion> {
    match pc
    case Computing => []
    case Asleep => []
    case Firing => []
    case Woken(comps, _) => comps
    case Draining(comps) => comps
    case Executing(comps, _) => comps
    case Signalling(comps, _) => comps
    case Dispatching(comps, _) => comps
  }

  /** The completion belongs to a registration that has stood since it was collected. */
  ghost predicate Standing(log: seq<Note>, c: Completion) {
    c.Ready? ==>
      && RegisteredIn(log, c.w) && c.since <= |log| && RegisteredIn(log[..c.since], c.w)
      && forall i :: c.since <= i < |log| ==> log[i] != Removed(c.w)
  }

  ghost predicate AllStanding(log: seq<Note>, comps: seq<Completion>) {
    forall k {:trigger comps[k]} :: 0 <= k < |comps| ==> Standing(log, comps[k])
  }

  ghost predicate Current(s: State) {
    && (forall w :: w in s.registered <==> RegisteredIn(s.log, w))
    && AllStanding(s.log, CompsOf(s.pc))
    && CallsAreCurrent(s.log)
  }

  ghost predicate Inv(s: State) {
    && Ordered(s) && Framed(s) && Current(s)
    && |s.results| <= |s.accepted| && Changes(s.log) == Effects(s.accepted, s.results)
  }

  // ---- every step keeps it ----

  lemma LogGrows(log: seq<Note>, note: Note)
    ensures var l := log + [note];
            && l[..|log|] == log && (forall j :: 0 <= j <= |log| ==> l[..j] == log[..j])
            && (forall v :: RegisteredIn(l, v) <==>
                  (match note
                   case Added(w) => v == w || RegisteredIn(log, v)
                   case Removed(w) => v != w && RegisteredIn(log, v)
                   case Called(_, _) => RegisteredIn(log, v)))
            && Changes(l) == Changes(log) + if note.Called? then [] else [note]
  {
  }

  /** A note that is not a call, or a call of a watcher whose registration stands, keeps the calls current. */
  lemma CallsStayCurrent(log: seq<Note>, note: Note)
    requires CallsAreCurrent(log)
    requires note.Called? ==> Standing(log, Ready(note.w, note.since))
    ensures CallsAreCurrent(log + [note])
  {
    hide RegisteredIn;
    var l := log + [note];
    LogGrows(log, note);
    forall j | 0 <= j < |l| && l[j].Called?
      ensures RegisteredIn(l[..j], l[j].w) && l[j].since <= j && RegisteredIn(l[..l[j].since], l[j].w)
      ensures forall i :: l[j].since <= i < j ==> l[i] != Removed(l[j].w)
    {
      if j < |log| { assert l[j] == log[j]; }
    }
  }

  lemma StandingGrows(log: seq<Note>, note: Note, comps: seq<Completion>)
    requires AllStanding(log, comps)
    requires forall k {:trigger comps[k]} :: 0 <= k < |comps| && comps[k].Ready? ==> note != Removed(comps[k].w)
    ensures AllStanding(log + [note], comps)
  {
    hide RegisteredIn;
    LogGrows(log, note);
    forall k | 0 <= k < |comps|
      ensures Standing(log + [note], comps[k])
    {
      assert Standing(log, comps[k]);
    }
  }

  lemma EffectsGrow(accepted: seq<Request>, more: seq<Request>, results: seq<int>)
    requires |results| <= |accepted|
    ensures Effects(accepted + more, results) == Effects(accepted, results)
    decreases |results|
  {
  }

  lemma SubmitKeeps(s: State, u: nat, op: Op, w: nat, rc: int)
    requires Inv(s)
    ensures Inv(SubmitStep(s, u, op, w, rc))
  {
    hide RegisteredIn, CallsAreCurrent, Changes, Effects;
    EffectsGrow(s.accepted, [Request(op, w, u)], s.results);
  }

  lemma ReturnKeeps(s: State, u: nat)
    requires Inv(s)
    ensures Inv(ReturnStep(s, u))
  {
    hide RegisteredIn, CallsAreCurrent, Changes, Effects;
  }

  lemma NotifyKeeps(s: State, rc: int)
    requires Inv(s)
    ensures Inv(Step(s, Notify(rc)))
  {
    hide RegisteredIn, CallsAreCurrent, Changes, Effects, AllStanding;
  }

  lemma ExecuteKeepsQueue(s: State, env: Env)
    requires Inv(s) && s.pc.Executing?
    ensures var s' := BrokerStep(s, env); Ordered(s') && Framed(s') && |s'.results| == |s.results| + 1
  {
    hide RegisteredIn, CallsAreCurrent, Changes, Effects, Current;
  }

  lemma ExecuteKeepsLog(s: State, env: Env)
    requires Inv(s) && s.pc.Executing? && s.pc.id < |s.accepted|
    ensures var s' := BrokerStep(s, env);
            Current(s') && |s'.results| <= |s'.accepted| && Changes(s'.log) == Effects(s'.accepted, s'.results)
  {
    hide Current, Changes, Effects, BrokerStep, Framed;
    ExecuteKeepsEffects(s, env);
    ExecuteKeepsCurrent(s, env);
  }

  lemma EffectsOfOne(accepted: seq<Request>, results: seq<int>, rc: int)
    requires |results| < |accepted|
    ensures var k := |results|;
            Effects(accepted, results + [rc])
            == Effects(accepted, results)
               + if rc != OK then []
                 else [if accepted[k].op.Add? then Added(accepted[k].w) else Removed(accepted[k].w)]
  {
    assert (results + [rc])[..|results|] == results;
  }

  lemma ExecuteKeepsEffects(s: State, env: Env)
    requires Inv(s) && s.pc.Executing? && s.pc.id < |s.accepted|
    ensures var s' := BrokerStep(s, env);
            |s'.results| <= |s'.accepted| && Changes(s'.log) == Effects(s'.accepted, s'.results)
  {
    hide RegisteredIn, Current, Framed, Changes, Effects, NullOut;
    var s' := BrokerStep(s, env);
    EffectsOfOne(s.accepted, s.results, s'.results[|s.results|]);
    if s'.log != s.log {
      var note := s'.log[|s.log|];
      assert s'.log == s.log + [note];
      LogGrows(s.log, note);
    }
  }

  lemma ExecuteKeepsCurrent(s: State, env: Env)
    requires Inv(s) && s.pc.Executing? && s.pc.id < |s.accepted|
    ensures Current(BrokerStep(s, env))
  {
    hide RegisteredIn, CallsAreCurrent, Changes, Effects, AllStanding, Ordered, Framed;
    var s' := BrokerStep(s, env);
    if s'.log != s.log {
      var note, comps := s'.log[|s.log|], CompsOf(s'.pc);
      assert s'.log == s.log + [note];
      LogGrows(s.log, note);
      CallsStayCurrent(s.log, note);
      if note.Removed? { NulledStanding(s.log, s.pc.comps, note.w); }
      StandingGrows(s.log, note, comps);
    }
  }

  lemma NulledStanding(log: seq<Note>, comps: seq<Completion>, w: nat)
    requires AllStanding(log, comps)
    ensures AllStanding(log, NullOut(comps, w))
    ensures forall k :: 0 <= k < |comps| && NullOut(comps, w)[k].Ready? ==> NullOut(comps, w)[k].w != w
  {
  }

  lemma CollectKeeps(s: State, env: Env)
    requires Inv(s) && s.pc.Asleep? && MayCollect(s, env)
    ensures AllStanding(s.log, Collected(s, env))
  {
    hide RegisteredIn, CallsAreCurrent, Changes, Effects;
    assert s.log[..|s.log|] == s.log;
  }

  lemma DispatchKeeps(s: State, env: Env)
    requires Inv(s) && s.pc.Dispatching?
    ensures Current(BrokerStep(s, env)) && Changes(BrokerStep(s, env).log) == Changes(s.log)
  {
    hide RegisteredIn, CallsAreCurrent, Changes, Effects, Ordered, Framed;
    var Dispatching(comps, next) := s.pc;
    if next < |comps| && comps[next].Ready? && comps[next].w in s.context {
      assert Standing(s.log, comps[next]);
      var note := Called(comps[next].w, comps[next].since);
      LogGrows(s.log, note);
      CallsStayCurrent(s.log, note);
      StandingGrows(s.log, note, comps);
    }
  }

  lemma PhaseKeepsQueue(s: State, env: Env)
    requires Inv(s) && !s.pc.Executing?
    ensures var s' := BrokerStep(s, env);
            Ordered(s') && Framed(s') && s'.results == s.results && s'.accepted == s.accepted
  {
    hide RegisteredIn, Changes, Effects, Current, Ordered, Framed;
    PhaseKeepsOrder(s, env);
    PhaseKeepsFrames(s, env);
  }

  lemma PhaseKeepsOrder(s: State, env: Env)
    requires Ordered(s) && !s.pc.Executing?
    ensures Ordered(BrokerStep(s, env))
  {
  }

  lemma PhaseKeepsFrames(s: State, env: Env)
    requires Framed(s) && !s.pc.Executing?
    ensures Framed(BrokerStep(s, env))
  {
    var s' := BrokerStep(s, env);
    assert s'.accepted == s.accepted && s'.live == s.live && s'.users == s.users && s.woken <= s'.woken;
  }

  lemma BrokerKeeps(s: State, env: Env)
    requires Inv(s)
    ensures Inv(BrokerStep(s, env))
  {
    hide RegisteredIn, CallsAreCurrent, Changes, Effects, AllStanding, Ordered, Framed;
    if s.pc.Executing? {
      InHandAccepted(s);
      ExecuteKeepsQueue(s, env);
      ExecuteKeepsLog(s, env);
    } else {
      PhaseKeepsQueue(s, env);
      match s.pc {
        case Dispatching(comps, next) => DispatchKeeps(s, env);
        case Asleep => if MayCollect(s, env) { CollectKeeps(s, env); }
        case Computing => NothingStanding(s.log);
        case Firing => NothingStanding(s.log);
        case _ =>
      }
    }
  }

  lemma InHandAccepted(s: State)
    requires Ordered(s) && s.pc.Executing?
    ensures s.pc.id < |s.accepted|
  {
  }

  lemma NothingStanding(log: seq<Note>)
    ensures AllStanding(log, [])
  {
  }

  lemma {:induction false} RunKeeps(users: set<nat>, actions: seq<Action>)
    ensures Inv(Run(Init(users), actions))
    decreases |actions|
  {
    if actions == [] {
    } else {
      RunKeeps(users, actions[..|actions| - 1]);
      var s, a := Run(Init(users), actions[..|actions| - 1]), actions[|actions| - 1];
      StepKeeps(s, a);
    }
  }

  lemma StepKeeps(s: State, a: Action)
    requires Inv(s)
    ensures Inv(Step(s, a))
  {
    hide Inv, SubmitStep, ReturnStep, BrokerStep;
    match a {
      case Submit(u, op, w, rc) => SubmitKeeps(s, u, op, w, rc);
      case Return(u) => ReturnKeeps(s, u);
      case Notify(rc) => NotifyKeeps(s, rc);
      case Broker(env) => BrokerKeeps(s, env);
    }
  }

  // ---- what the protocol promises ----

  /** The frame the broker's next step reads or writes. */
  predicate Touches(s: State, id: nat) { id in InHand(s.pc) }

  /**
   Over every run: what was done to the set of watchers is what the accepted requests asked for, each once and in
   queue order, with the recorded results; no accepted request was dropped: it has its result, or is in hand, or
   waits; and the request in hand still lives on its caller's stack and the caller waits for it.
   */
  lemma RequestsAreServed(users: set<nat>, actions: seq<Action>)
    ensures var s := Run(Init(users), actions);
            && |s.accepted| == |s.results| + |s.queue| + (if s.pc.Executing? then 1 else 0)
            && Changes(s.log) == Effects(s.accepted, s.results)
            && (forall id: nat :: Touches(s, id) ==>
                  && id < |s.accepted| && id in s.live && id !in s.woken
                  && s.accepted[id].user in s.users && s.users[s.accepted[id].user] == Blocked(id))
  {
    RunKeeps(users, actions);
  }

  /** A waiting request has its wakeup until the drain gives up on it, and with every step but that one. */
  lemma StepAwakened(s: State, a: Action)
    requires Awakened(s)
    ensures Awakened(Step(s, a)) <==> Harmless(s, a)
  {
  }

  /** The event is set by a submit or a notification that got through, and until a wait returns it and it is drained. */
  lemma EventExactly(s: State, a: Action)
    ensures Step(s, a).event <==>
              match a
              case Submit(u, _, _, rc) => s.event || (u in s.users && s.users[u].Free? && rc == OK)
              case Notify(rc) => s.event || rc == OK
              case Return(_) => s.event
              case Broker(env) => s.event && !(s.pc.Woken? && s.pc.eventIn && env.drained)
  {
    hide Execute, Collected, MayCollect;
    if a.Broker? && s.pc.Executing? && s.pc.id < |s.accepted| { ExecuteLeavesEvent(s, s.pc.comps, s.pc.id, a.env); }
  }

  lemma ExecuteLeavesEvent(s: State, comps: seq<Completion>, id: nat, env: Env)
    requires id < |s.accepted|
    ensures Execute(s, comps, id, env).pc.Signalling? && Execute(s, comps, id, env).event == s.event
  {
  }

  /** The broker's round after a first request, with a lock of the queue that fails. */
  function LockFails(i: nat): State {
    var s := SubmitStep(Init({1}), 1, Add, 0, OK).(event := i < 3);
    s.(pc := if i == 0 || i == 6 then Computing else if i == 1 then Asleep else if i == 2 then Woken([], true)
             else if i == 3 then Draining([]) else if i == 4 then Dispatching([], 0) else if i == 5 then Firing
             else Asleep)
  }

  const UNLOCKED := Env([], true, true, false, true, OK, true)

  lemma LockFailsOn(i: nat)
    requires i < 7
    ensures BrokerStep(LockFails(i), UNLOCKED) == LockFails(i + 1)
  {
    if i == 1 { assert Collected(LockFails(1), UNLOCKED) == []; }
  }

  /** A reachable broker that sleeps with its event clear while a request waits: its lock failed once in the drain. */
  lemma FailedLockLosesRequest()
    ensures exists actions :: var s := Run(Init({1}), actions); s.pc.Asleep? && !s.event && s.queue == [0]
  {
    hide Run, BrokerStep;
    var s0, actions := Init({1}), [Submit(1, Add, 0, OK)];
    RunNothing(s0);
    RunMore(s0, [], Submit(1, Add, 0, OK));
    assert [] + actions == actions;
    var i := 0;
    while i < 7
      invariant 0 <= i <= 7 && Run(s0, actions) == LockFails(i)
    {
      LockFailsOn(i);
      RunMore(s0, actions, Broker(UNLOCKED));
      actions := actions + [Broker(UNLOCKED)];
      i := i + 1;
    }
  }

  lemma RunNothing(s: State)
    ensures Run(s, []) == s
  {
  }

  lemma {:induction false} RunMore(s: State, actions: seq<Action>, a: Action)
    ensures Run(s, actions + [a]) == Step(Run(s, actions), a)
  {
    assert (actions + [a])[..|actions|] == actions;
  }

  /** Steps from here until no request waits or is in hand: one to sleep, one to wake, three for each request. */
  function Work(s: State): nat {
    3 * |s.queue| +
    match s.pc
    case Draining(_) => 0
    case Signalling(_, _) => 1
    case Woken(_, _) => 1
    case Executing(_, _) => 2
    case Asleep => 2
    case Computing => 3
    case Firing => 4
    case Dispatching(comps, next) => 5 + if next < |comps| then |comps| - next else 0
  }

  predicate AllServed(s: State) { s.queue == [] && InHand(s.pc) == {} }

  /** What the broker relies on: a wait with the event set returns, and its lock and its signals do not fail. */
  predicate Fair(s: State, env: Env) {
    && (s.pc.Asleep? && s.event ==> MayCollect(s, env))
    && (s.pc.Draining? ==> env.locked)
    && (s.pc.Signalling? ==> env.signalled)
  }

  predicate FairRun(s: State, envs: seq<Env>)
    decreases |envs|
  {
    envs == [] || (Fair(s, envs[0]) && FairRun(BrokerStep(s, envs[0]), envs[1..]))
  }

  lemma WorkShrinks(s: State, env: Env)
    requires Ordered(s) && Awakened(s) && Fair(s, env)
    ensures var s' := BrokerStep(s, env);
            && s'.accepted == s.accepted && s'.muted == s.muted
            && (if AllServed(s) then AllServed(s') else Work(s') == Work(s) - 1)
  {
    hide MayCollect, Collected;
    if s.pc.Executing? { InHandAccepted(s); }
  }

  lemma ServesOn(s: State, env: Env)
    requires Inv(s) && Awakened(s) && Fair(s, env)
    ensures var s' := BrokerStep(s, env);
            && Inv(s') && Awakened(s') && s'.accepted == s.accepted && s'.muted == s.muted
            && (if AllServed(s) then AllServed(s') else Work(s') == Work(s) - 1)
  {
    hide BrokerStep, Ordered, Framed, Current, Work, AllServed, Awakened, Changes, Effects;
    BrokerKeeps(s, env);
    WorkShrinks(s, env);
    StaysAwakened(s, env);
  }

  lemma StaysAwakened(s: State, env: Env)
    requires Awakened(s) && Fair(s, env)
    ensures Awakened(BrokerStep(s, env))
  {
    StepAwakened(s, Broker(env));
  }

  lemma {:induction false} ServesAll(s: State, envs: seq<Env>)
    requires Inv(s) && Awakened(s) && FairRun(s, envs) && (AllServed(s) || |envs| >= Work(s))
    ensures var s' := BrokerRun(s, envs);
            Inv(s') && AllServed(s') && s'.accepted == s.accepted && s'.muted == s.muted
    decreases |envs|
  {
    hide Inv, BrokerStep, Fair, Awakened;
    if envs == [] {
      NoWorkLeft(s);
    } else {
      ServesOn(s, envs[0]);
      ServesAll(BrokerStep(s, envs[0]), envs[1..]);
    }
  }

  lemma NoWorkLeft(s: State)
    requires AllServed(s) || Work(s) == 0
    ensures AllServed(s)
  {
  }

  /**
   Every accepted request is served: wherever a run has got to without a lost wakeup, the broker's own steps alone
   execute all requests accepted so far and signal their callers, within three steps a request and one round more.
   */
  lemma BrokerServesAll(users: set<nat>, actions: seq<Action>, envs: seq<Env>)
    requires var s := Run(Init(users), actions); Awakened(s) && FairRun(s, envs) && |envs| >= Work(s)
    ensures var s := Run(Init(users), actions);
            var s' := BrokerRun(s, envs);
            && s'.queue == [] && s'.accepted == s.accepted && |s'.results| == |s.accepted|
            && Changes(s'.log) == Effects(s.accepted, s'.results)
            && (forall id: nat :: id < |s.accepted| && id !in s.muted ==> id in s'.woken)
  {
    hide Changes, Effects, Work, FairRun, BrokerRun, Framed, Current, Awakened;
    RunKeeps(users, actions);
    ServesAll(Run(Init(users), actions), envs);
  }

  /** The caller returns only after its own request was executed, with the result of that very request. */
  lemma OwnResult(users: set<nat>, actions: seq<Action>, u: nat)
    requires u in Run(Init(users), actions).users
    requires var s := Run(Init(users), actions); Step(s, Return(u)) != s
    ensures var s := Run(Init(users), actions);
            && s.users[u].Blocked? && s.users[u].id < |s.results| <= |s.accepted| && s.accepted[s.users[u].id].user == u
            && Step(s, Return(u)).users[u] == Free(s.results[s.users[u].id])
            && !Touches(s, s.users[u].id) && s.users[u].id !in s.queue
  {
    RunKeeps(users, actions);
  }

  /**
   What executing a request answers and does, by the log of every run: an addition succeeds if and only if the watcher
   is initialised, not registered and accepted by the platform, a removal if and only if it is initialised, registered
   and accepted; each failure has its code. Success leaves the watcher registered or not registered, as asked; failure
   leaves it as it was, and no other watcher is concerned.
   */
  lemma ExecuteAnswers(users: set<nat>, actions: seq<Action>, env: Env)
    requires Run(Init(users), actions).pc.Executing?
    ensures var s := Run(Init(users), actions);
            var s' := Step(s, Broker(env));
            && s.pc.id == |s.results| < |s.accepted| && |s'.results| == |s.results| + 1
            && var request, rc := s.accepted[s.pc.id], s'.results[|s.results|];
               var was := RegisteredIn(s.log, request.w);
               && (rc == if !env.initialised then E_INVAL
                         else if request.op.Add? && was then E_EXISTS
                         else if request.op.Remove? && !was then E_INVAL
                         else env.platformRc)
               && (RegisteredIn(s'.log, request.w) <==> if rc == OK then request.op.Add? else was)
               && forall v :: v != request.w ==> (RegisteredIn(s'.log, v) <==> RegisteredIn(s.log, v))
  {
    hide RegisteredIn, CallsAreCurrent, Changes, Effects, AllStanding, Framed;
    var s := Run(Init(users), actions);
    RunKeeps(users, actions);
    var s' := Step(s, Broker(env));
    if s'.log != s.log {
      var note := s'.log[|s.log|];
      assert s'.log == s.log + [note];
      LogGrows(s.log, note);
    }
  }

  /** An accepted request stays what it is. */
  lemma {:induction false} RequestStays(s: State, actions: seq<Action>, id: nat)
    requires id < |s.accepted|
    ensures id < |Run(s, actions).accepted| && Run(s, actions).accepted[id] == s.accepted[id]
    decreases |actions|
  {
    if actions != [] {
      RequestStays(s, actions[..|actions| - 1], id);
      AcceptedGrows(Run(s, actions[..|actions| - 1]), actions[|actions| - 1]);
    }
  }

  lemma AcceptedGrows(s: State, a: Action)
    ensures s.accepted <= Step(s, a).accepted
  {
  }

  /**
   A submit that could lock and signal asks for its very operation on its very watcher, and its caller waits for just
   that request, now and in every later state until it returns; one that could not returns its own code and leaves no
   trace.
   */
  lemma SubmitAsks(s: State, u: nat, op: Op, w: nat, rc: int, later: seq<Action>)
    requires u in s.users && s.users[u].Free?
    ensures var s', id := Step(s, Submit(u, op, w, rc)), |s.accepted|;
            if rc == OK then
              && s'.users[u] == Blocked(id) && s'.queue == s.queue + [id]
              && id < |Run(s', later).accepted| && Run(s', later).accepted[id] == Request(op, w, u)
            else s' == s.(users := s.users[u := Free(rc)])
  {
    if rc == OK { RequestStays(Step(s, Submit(u, op, w, rc)), later, |s.accepted|); }
  }

  /** A caller whose request was executed and let go can return if and only if the signal to it succeeded. */
  lemma ReturnsExactly(users: set<nat>, actions: seq<Action>, u: nat)
    requires u in Run(Init(users), actions).users
    requires var s := Run(Init(users), actions);
             s.users[u].Blocked? && s.users[u].id < |s.results| && !Touches(s, s.users[u].id)
    ensures var s := Run(Init(users), actions); Step(s, Return(u)) != s <==> s.users[u].id !in s.muted
  {
    hide RegisteredIn, CallsAreCurrent, Changes, Effects, AllStanding;
    RunKeeps(users, actions);
  }

  /** The caller waits for a request whose signal failed. */
  predicate Deaf(s: State, u: nat, id: nat) { u in s.users && s.users[u] == Blocked(id) && id in s.muted }

  lemma StaysDeaf(s: State, a: Action, u: nat, id: nat)
    requires Inv(s) && Deaf(s, u, id)
    ensures Deaf(Step(s, a), u, id)
  {
    hide RegisteredIn, CallsAreCurrent, Changes, Effects, AllStanding;
  }

  /** A caller whose signal failed waits for ever, whatever happens after. */
  lemma {:induction false} DeafForEver(users: set<nat>, actions: seq<Action>, more: seq<Action>, u: nat, id: nat)
    requires Deaf(Run(Init(users), actions), u, id)
    ensures Deaf(Run(Init(users), actions + more), u, id)
    decreases |more|
  {
    hide Inv, Step;
    if more == [] {
      assert actions + more == actions;
    } else {
      var front := more[..|more| - 1];
      assert (actions + more)[..|actions + more| - 1] == actions + front;
      DeafForEver(users, actions, front, u, id);
      RunKeeps(users, actions + front);
      StaysDeaf(Run(Init(users), actions + front), more[|more| - 1], u, id);
    }
  }

  /** The broker's first round with one request, whose completion signal fails. */
  function SignalFails(i: nat): State {
    var s := SubmitStep(Init({1}), 1, Add, 0, OK).(event := i < 3);
    if i == 0 then s
    else if i == 1 then s.(pc := Asleep)
    else if i == 2 then s.(pc := Woken([], true))
    else if i == 3 then s.(pc := Draining([]))
    else if i == 4 then s.(queue := [], pc := Executing([], 0))
    else
      var done := s.(queue := [], registered := {0}, context := {0}, log := [Added(0)], results := [OK]);
      if i == 5 then done.(pc := Signalling([], 0)) else done.(muted := {0}, pc := Draining([]))
  }

  const UNSIGNALLED := Env([], true, true, true, true, OK, false)

  lemma SignalFailsOn(i: nat)
    requires i < 6
    ensures BrokerStep(SignalFails(i), UNSIGNALLED) == SignalFails(i + 1)
  {
    hide Execute;
    if i == 1 { assert Collected(SignalFails(1), UNSIGNALLED) == []; }
    if i == 4 { AddExecutes(SignalFails(4), UNSIGNALLED); }
  }

  lemma AddExecutes(s: State, env: Env)
    requires s.pc == Executing([], 0) && |s.accepted| > 0 && s.accepted[0] == Request(Add, 0, 1)
    requires s.registered == s.context == {} && s.results == [] && s.log == []
    requires env.initialised && env.platformRc == OK
    ensures Execute(s, [], 0, env)
            == s.(registered := {0}, context := {0}, log := [Added(0)], results := [OK], pc := Signalling([], 0))
  {
  }

  /** A reachable caller whose request succeeded and that waits for ever. */
  lemma FailedSignalBlocksCaller()
    ensures exists actions :: Deaf(Run(Init({1}), actions), 1, 0) && Run(Init({1}), actions).results == [OK]
  {
    hide Run, BrokerStep;
    var s0, actions := Init({1}), [Submit(1, Add, 0, OK)];
    RunNothing(s0);
    RunMore(s0, [], Submit(1, Add, 0, OK));
    assert [] + actions == actions;
    var i := 0;
    while i < 6
      invariant 0 <= i <= 6 && Run(s0, actions) == SignalFails(i)
    {
      SignalFailsOn(i);
      RunMore(s0, actions, Broker(UNSIGNALLED));
      actions := actions + [Broker(UNSIGNALLED)];
      i := i + 1;
    }
  }

  /**
   Over every run: a handler is called only for a watcher that is registered, whose event was collected while it was
   registered, and that was not removed in between; so after a successful removal there is no call before the next
   successful addition, and no event from before a removal is delivered after a re-addition.
   */
  lemma NoCallAfterRemove(users: set<nat>, actions: seq<Action>)
    ensures CallsAreCurrent(Run(Init(users), actions).log)
  {
    RunKeeps(users, actions);
  }

  /** In particular: between a removal and a call of the same watcher there is an addition. */
  lemma {:induction false} AddedBetween(log: seq<Note>, i: nat, j: nat)
    requires CallsAreCurrent(log) && i < j < |log| && log[j].Called? && log[i] == Removed(log[j].w)
    ensures exists k :: i < k < j && log[k] == Added(log[j].w)
  {
    LastChange(log[..j], log[j].w, i);
  }

  lemma {:induction false} LastChange(log: seq<Note>, w: nat, i: nat)
    requires RegisteredIn(log, w) && i < |log| && log[i] == Removed(w)
    ensures exists k :: i < k < |log| && log[k] == Added(w)
  {
    var n := |log| - 1;
    if log[n] == Added(w) {
    } else {
      LastChange(log[..n], w, i);
    }
  }

  /** The calls that a dispatch pass makes from entry `next` on. */
  function Deliveries(comps: seq<Completion>, next: nat, context: set<nat>): seq<Note>
    decreases |comps| - next
  {
    if next >= |comps| then []
    else (if comps[next].Ready? && comps[next].w in context then [Called(comps[next].w, comps[next].since)] else [])
         + Deliveries(comps, next + 1, context)
  }

  lemma DispatchOne(s: State, env: Env)
    requires s.pc.Dispatching? && s.pc.next < |s.pc.comps|
    ensures var Dispatching(comps, next) := s.pc;
            var call := if comps[next].Ready? && comps[next].w in s.context
                        then [Called(comps[next].w, comps[next].since)] else [];
            BrokerStep(s, env) == s.(pc := Dispatching(comps, next + 1), log := s.log + call)
  {
    assert s.log + [] == s.log;
  }

  /** A dispatch pass calls every collected watcher that was not nulled or stripped, each once, in order. */
  lemma {:induction false} DispatchDelivers(s: State, envs: seq<Env>)
    requires s.pc.Dispatching? && s.pc.next <= |s.pc.comps| && |envs| == |s.pc.comps| - s.pc.next
    ensures BrokerRun(s, envs) == s.(pc := Dispatching(s.pc.comps, |s.pc.comps|),
                                     log := s.log + Deliveries(s.pc.comps, s.pc.next, s.context))
    decreases |envs|
  {
    hide BrokerStep;
    if envs != [] {
      var s' := BrokerStep(s, envs[0]);
      DispatchOne(s, envs[0]);
      DispatchDelivers(s', envs[1..]);
      assert s'.log + Deliveries(s.pc.comps, s.pc.next + 1, s.context)
             == s.log + Deliveries(s.pc.comps, s.pc.next, s.context);
    } else {
      assert s.log + [] == s.log;
    }
  }

  // ---- duplicate additions ----

  /** Exactly the registered watchers have their user data set. */
  ghost predicate Addressed(s: State) { s.registered == s.context }

  /** The one step that takes the user data from a registered watcher: it is added again. */
  predicate AddsAgain(s: State, a: Action) {
    && a.Broker? && s.pc.Executing? && s.pc.id < |s.accepted|
    && s.accepted[s.pc.id].op.Add? && a.env.initialised && s.accepted[s.pc.id].w in s.registered
  }

  lemma StepAddressed(s: State, a: Action)
    requires Addressed(s)
    ensures Addressed(Step(s, a)) <==> !AddsAgain(s, a)
  {
  }

  /** One caller adds a watcher, returns, and adds it again while the broker is still draining. */
  function AddedAgain(i: nat): State {
    var s := SubmitStep(Init({1}), 1, Add, 0, OK).(event := i < 3);
    if i == 0 then s
    else if i == 1 then s.(pc := Asleep)
    else if i == 2 then s.(pc := Woken([], true))
    else if i == 3 then s.(pc := Draining([]))
    else if i == 4 then s.(queue := [], pc := Executing([], 0))
    else
      var done := s.(queue := [], registered := {0}, context := {0}, log := [Added(0)], results := [OK]);
      if i == 5 then done.(pc := Signalling([], 0))
      else if i == 6 then done.(woken := {0}, pc := Draining([]))
      else
        var back := done.(woken := {0}, live := {}, users := map[1 := Free(OK)], pc := Draining([]));
        if i == 7 then back
        else
          var again := SubmitStep(back, 1, Add, 0, OK);
          if i == 8 then again
          else if i == 9 then again.(queue := [], pc := Executing([], 1))
          else again.(queue := [], context := {}, results := [OK, E_EXISTS], pc := Signalling([], 1))
  }

  const NOTHING_FAILS := Env([], true, true, true, true, OK, true)

  function AddingAgain(i: nat): Action {
    if i == 6 then Return(1) else if i == 7 then Submit(1, Add, 0, OK) else Broker(NOTHING_FAILS)
  }

  lemma AddedAgainOn(i: nat)
    requires i < 10
    ensures Step(AddedAgain(i), AddingAgain(i)) == AddedAgain(i + 1)
  {
    hide Execute;
    if i == 1 { assert Collected(AddedAgain(1), NOTHING_FAILS) == []; }
    if i == 4 { AddExecutes(AddedAgain(4), NOTHING_FAILS); }
    if i == 9 { AddRefused(AddedAgain(9), NOTHING_FAILS); }
  }

  lemma AddRefused(s: State, env: Env)
    requires s.pc == Executing([], 1) && |s.accepted| > 1 && s.accepted[1] == Request(Add, 0, 1)
    requires s.registered == s.context == {0} && s.results == [OK] && env.initialised
    ensures Execute(s, [], 1, env) == s.(context := {}, results := [OK, E_EXISTS], pc := Signalling([], 1))
  {
  }

  /**
   A reachable broker with a registered watcher whose handler will not be called, with every platform call successful:
   it was added again, which its caller was told with EXISTS.
   */
  lemma DuplicateAddMutes()
    ensures exists actions :: var s := Run(Init({1}), actions);
              s.registered == {0} && s.context == {} && s.results == [OK, E_EXISTS]
  {
    hide Run, Step;
    var s0, actions := Init({1}), [Submit(1, Add, 0, OK)];
    FirstAsks(s0);
    var i := 0;
    while i < 10
      invariant 0 <= i <= 10 && Run(s0, actions) == AddedAgain(i)
    {
      AddedAgainOn(i);
      RunMore(s0, actions, AddingAgain(i));
      actions := actions + [AddingAgain(i)];
      i := i + 1;
    }
  }

  lemma FirstAsks(s0: State)
    requires s0 == Init({1})
    ensures Run(s0, [Submit(1, Add, 0, OK)]) == AddedAgain(0)
  {
    hide Run;
    RunNothing(s0);
    RunMore(s0, [], Submit(1, Add, 0, OK));
    assert [] + [Submit(1, Add, 0, OK)] == [Submit(1, Add, 0, OK)];
  }

  predicate NeverAddsAgain(s: State, actions: seq<Action>)
    decreases |actions|
  {
    actions != [] ==>
      var n := |actions| - 1;
      NeverAddsAgain(s, actions[..n]) && !AddsAgain(Run(s, actions[..n]), actions[n])
  }

  lemma {:induction false} StaysAddressed(users: set<nat>, actions: seq<Action>)
    requires NeverAddsAgain(Init(users), actions)
    ensures Addressed(Run(Init(users), actions))
    decreases |actions|
  {
    if actions != [] {
      hide Step, AddsAgain;
      StaysAddressed(users, actions[..|actions| - 1]);
      StepAddressed(Run(Init(users), actions[..|actions| - 1]), actions[|actions| - 1]);
    }
  }

  /** Without a duplicate addition every collected completion that no removal took back is dispatched to its handler. */
  lemma CollectedIsCalled(users: set<nat>, actions: seq<Action>, env: Env)
    requires NeverAddsAgain(Init(users), actions)
    requires var s := Run(Init(users), actions);
             s.pc.Dispatching? && s.pc.next < |s.pc.comps| && s.pc.comps[s.pc.next].Ready?
    ensures var s := Run(Init(users), actions);
            var c := s.pc.comps[s.pc.next];
            Step(s, Broker(env)).log == s.log + [Called(c.w, c.since)]
  {
    hide RegisteredIn, CallsAreCurrent, Changes, Effects, Ordered, Framed;
    var s := Run(Init(users), actions);
    RunKeeps(users, actions);
    StaysAddressed(users, actions);
    assert Standing(s.log, s.pc.comps[s.pc.next]);
  }

  function BrokerRun(s: State, envs: seq<Env>): State
    decreases |envs|
  {
    if envs == [] then s else BrokerRun(BrokerStep(s, envs[0]), envs[1..])
  }
}
