/**
 One loop thread and any number of emitters around one record ring: dispatch until the ring reports empty,
 check the quit flag, wait for the wakeup; push, then signal. The wakeup is a sticky flag that a wait consumes;
 the wait and every signal may fail.
 */
module LoopWakeup {
  import opened RecordWords
  import opened RecordFormat
  import opened RecordRing
  import opened RecordRingInvariant
  import opened RecordRingSteps
  import opened RecordRingTheorems

  datatype EmitterPc = Quiet | Pushing | MustSignal

  datatype LoopPc =
    | Stopped
    | Dispatch
    | Acquiring
    | Calling
    | Releasing
    | CheckQuit
    | Resetting   // has seen the quit flag and is about to take it back
    | Waiting

  datatype World = World(
    ring: State,
    emitters: map<nat, EmitterPc>,
    loop: LoopPc,
    signalled: bool,
    quit: bool,
    quitters: nat)   // threads between storing the quit flag and signalling the wakeup

  datatype Event =
    | Emit(p: nat, parts: seq<seq<byte>>)
    | EmitterStep(p: nat)
    | EmitterRetry(p: nat)
    | EmitterSignalFails(p: nat)
    | RunLoop
    | LoopStep
    | WaitFails
    | QuitStore
    | QuitSignal
    | QuitSignalFails

  function Start(c: Config, pids: set<nat>): World {
    World(Init(c, pids), map p | p in pids :: Quiet, Stopped, false, false, 0)
  }

  /** What an emitter does once its push call returned: signal after success only. */
  function AfterPush(ring: State, p: nat): EmitterPc
    requires p in ring.producers
  {
    match ring.producers[p]
    case Idle(last) => if last == Ok then MustSignal else Quiet
    case _ => Pushing
  }

  function Emitting(c: Config, w: World, p: nat, a: Action): World
    requires ValidCapacity(c.layout, c.cap) && p in w.emitters && p in w.ring.producers
  {
    var ring := Step(c, w.ring, a);
    w.(ring := ring, emitters := if p in ring.producers then w.emitters[p := AfterPush(ring, p)] else w.emitters)
  }

  function LoopMove(c: Config, w: World): World
    requires ValidCapacity(c.layout, c.cap)
  {
    match w.loop
    case Stopped => w
    case Dispatch => w.(ring := Step(c, w.ring, StartAcquire), loop := Acquiring)
    case Acquiring =>
      var ring := Step(c, w.ring, StepConsumer);
      w.(ring := ring,
         loop := if ring.consumer.Loan? then Calling else if ring.consumer.Ready? then CheckQuit else Acquiring)
    case Calling => w.(ring := Step(c, w.ring, StartRelease), loop := Releasing)
    case Releasing =>
      var ring := Step(c, w.ring, StepConsumer);
      w.(ring := ring, loop := if ring.consumer.Ready? then Dispatch else Releasing)
    case CheckQuit => w.(loop := if w.quit then Resetting else Waiting)
    case Resetting => w.(loop := Stopped, quit := false)
    case Waiting => if w.signalled then w.(signalled := false, loop := Dispatch) else w
  }

  function Next(c: Config, w: World, e: Event): World
    requires ValidCapacity(c.layout, c.cap)
  {
    match e
    case Emit(p, parts) =>
      if p in w.emitters && p in w.ring.producers && w.emitters[p].Quiet?
      then
        var ring := Step(c, w.ring, StartPush(p, parts));
        // a rejected argument returns at once
        w.(ring := ring,
           emitters := w.emitters[p := if p in ring.producers && ring.producers[p].Idle? then Quiet else Pushing])
      else w
    case EmitterStep(p) =>
      if p in w.emitters && p in w.ring.producers && w.emitters[p].Pushing? then Emitting(c, w, p, StepProducer(p))
      else if p in w.emitters && w.emitters[p].MustSignal?
      then w.(signalled := true, emitters := w.emitters[p := Quiet])
      else w
    case EmitterRetry(p) =>
      if p in w.emitters && p in w.ring.producers && w.emitters[p].Pushing? then Emitting(c, w, p, FailSwap(p)) else w
    case EmitterSignalFails(p) =>
      if p in w.emitters && w.emitters[p].MustSignal? then w.(emitters := w.emitters[p := Quiet]) else w
    case RunLoop => if w.loop.Stopped? then w.(loop := Dispatch) else w
    case LoopStep => LoopMove(c, w)
    case WaitFails => if w.loop.Waiting? then w.(loop := Stopped) else w   // the quit flag stays
    case QuitStore => w.(quit := true, quitters := w.quitters + 1)
    case QuitSignal => if w.quitters > 0 then w.(signalled := true, quitters := w.quitters - 1) else w
    case QuitSignalFails => if w.quitters > 0 then w.(quitters := w.quitters - 1) else w
  }

  function Play(c: Config, w: World, events: seq<Event>): World
    requires ValidCapacity(c.layout, c.cap)
    decreases |events|
  {
    if events == [] then w else Next(c, Play(c, w, events[..|events| - 1]), events[|events| - 1])
  }

  // ---- what every reachable state satisfies ----

  /** The oldest unreleased record is committed: the consumer could take it. */
  predicate HeadCommitted(s: State) { |s.delivered| < |s.records| && s.records[|s.delivered|].done }

  ghost predicate Matched(w: World) {
    && w.emitters.Keys == w.ring.producers.Keys
    && (forall p {:trigger w.emitters[p]} :: p in w.emitters ==>
          (w.emitters[p].Pushing? <==> !w.ring.producers[p].Idle?))
  }

  ghost predicate LoopMatched(w: World) {
    match w.loop
    case Acquiring => w.ring.consumer.AcquireRead? || w.ring.consumer.AcquireWrite? || w.ring.consumer.AcquireHeader?
                      || w.ring.consumer.SkipClear? || w.ring.consumer.SkipAdvance?
    case Calling => w.ring.consumer.Loan?
    case Releasing => w.ring.consumer.ReleaseRead? || w.ring.consumer.ReleaseWrite? || w.ring.consumer.ReleaseHeader?
                      || w.ring.consumer.ReleaseClear? || w.ring.consumer.ReleaseAdvance?
    case _ => w.ring.consumer.Ready?
  }

  /** Somebody will set the wakeup, or it is set. */
  ghost predicate WakeupComing(w: World) {
    w.signalled || exists p :: p in w.emitters && w.emitters[p].MustSignal?
  }

  /** A loop that is about to wait, or waits, cannot miss a committed head record or a quit request. */
  ghost predicate NoLostWakeup(w: World) {
    && ((w.loop.CheckQuit? || w.loop.Waiting?) && HeadCommitted(w.ring) ==> WakeupComing(w))
    && (w.loop.Waiting? && w.quit ==> w.signalled || w.quitters > 0)
  }

  ghost predicate Good(c: Config, w: World) { Inv(c, w.ring) && Matched(w) && LoopMatched(w) }

  ghost predicate Keeps(c: Config, w: World, w': World) {
    Good(c, w') && (NoLostWakeup(w) ==> NoLostWakeup(w'))
  }

  /**
   The failures that lose a wakeup: that of the last emitter between commit and signal while the loop is about to
   wait before a committed head, and that of the last quitter while the loop waits, neither finding the wakeup set.
   */
  ghost predicate Harmless(w: World, e: Event) {
    match e
    case EmitterSignalFails(p) =>
      (p in w.emitters && w.emitters[p].MustSignal? && (w.loop.CheckQuit? || w.loop.Waiting?) && HeadCommitted(w.ring))
      ==> w.signalled || exists q :: q in w.emitters && q != p && w.emitters[q].MustSignal?
    case QuitSignalFails => w.quitters == 1 && w.loop.Waiting? && w.quit ==> w.signalled
    case _ => true
  }

  // ---- how the threads of the ring touch each other ----

  predicate ProducerAction(a: Action, p: nat) {
    (a.StartPush? && a.p == p) || (a.StepProducer? && a.p == p) || (a.FailSwap? && a.p == p)
  }

  /** A producer's step leaves the consumer and the other producers alone; it commits the head only as its last one. */
  lemma ProducerStepEffect(c: Config, s: State, a: Action, p: nat)
    requires Inv(c, s) && p in s.producers && ProducerAction(a, p)
    ensures var s' := Step(c, s, a);
            && s'.producers.Keys == s.producers.Keys && s'.consumer == s.consumer && s'.delivered == s.delivered
            && (forall q :: q in s.producers && q != p ==> s'.producers[q] == s.producers[q])
            && (HeadCommitted(s') && !HeadCommitted(s) ==> s'.producers[p] == Idle(Ok))
            && (a.StepProducer? && s.producers[p].Idle? ==> s' == s)
  {
    hide Inv, PutHeader, StorePart, PlanPush, Payload, Flat;
    HeadOwner(c, s);
  }

  lemma HeadOwner(c: Config, s: State)
    requires Inv(c, s)
    ensures |s.delivered| <= |s.records|
  {
  }

  lemma ConsumerStepEffect(c: Config, s: State, a: Action)
    requires Inv(c, s) && IsConsumerAction(a)
    ensures var s' := Step(c, s, a);
            s'.producers == s.producers && s'.records == s.records
  {
    hide Inv, PutHeader, HeaderAt, MetaIsValid, MetaIsFake, PayloadSize;
  }

  /** An acquire returns without a record only when the head record is not committed. */
  lemma EmptyMeansUncommitted(c: Config, s: State)
    requires Inv(c, s)
    requires s.consumer.AcquireRead? || s.consumer.AcquireWrite? || s.consumer.AcquireHeader?
             || s.consumer.SkipClear? || s.consumer.SkipAdvance?
    requires Step(c, s, StepConsumer).consumer.Ready?
    ensures !HeadCommitted(s) && !HeadCommitted(Step(c, s, StepConsumer))
  {
    hide Inv, PutHeader, HeaderAt, MetaIsValid, MetaIsFake, PayloadSize;
    if HeadCommitted(s) {
      ConsumerProgress(c, s);
      assert false;
    }
  }

  // ---- every event keeps it ----

  /** An emitter that moves inside its push, or starts or ends it, keeps everything. */
  lemma PushKeeps(c: Config, w: World, a: Action, p: nat, pc: EmitterPc)
    requires Good(c, w) && ValidCapacity(c.layout, c.cap) && ProducerAction(a, p)
    requires p in w.emitters && p in w.ring.producers && !w.emitters[p].MustSignal?
    requires var ring := Step(c, w.ring, a);
             p in ring.producers ==>
               && (pc.Pushing? <==> !ring.producers[p].Idle?)
               && (ring.producers[p] == Idle(Ok) && !HeadCommitted(w.ring) && HeadCommitted(ring) ==> pc.MustSignal?)
    ensures Keeps(c, w, w.(ring := Step(c, w.ring, a), emitters := w.emitters[p := pc]))
  {
    hide Inv, Step, LoopMatched;
    StepKeeps(c, w.ring, a);
    ProducerStepEffect(c, w.ring, a, p);
    var ring := Step(c, w.ring, a);
    var w' := w.(ring := ring, emitters := w.emitters[p := pc]);
    assert w'.emitters[p] == pc;
    SameLoop(w, w');
    if WakeupComing(w) && !w.signalled {
      var q :| q in w.emitters && w.emitters[q].MustSignal?;
      assert q in w'.emitters && w'.emitters[q].MustSignal?;
    }
  }

  lemma SameLoop(w: World, w': World)
    requires LoopMatched(w) && w'.loop == w.loop && w'.ring.consumer == w.ring.consumer
    ensures LoopMatched(w')
  {
  }

  lemma EmitKeeps(c: Config, w: World, p: nat, parts: seq<seq<byte>>)
    requires Good(c, w) && ValidCapacity(c.layout, c.cap)
    ensures Keeps(c, w, Next(c, w, Emit(p, parts)))
  {
    hide Inv, LoopMatched, NoLostWakeup, Payload, Flat, MaxRecordSize;
    if p in w.emitters && p in w.ring.producers && w.emitters[p].Quiet? {
      var a := StartPush(p, parts);
      var ring := Step(c, w.ring, a);
      PushKeeps(c, w, a, p, if ring.producers[p].Idle? then Quiet else Pushing);
    }
  }

  lemma EmitterMoveKeeps(c: Config, w: World, p: nat, a: Action)
    requires Good(c, w) && ValidCapacity(c.layout, c.cap) && (a == StepProducer(p) || a == FailSwap(p))
    requires p in w.emitters && p in w.ring.producers && w.emitters[p].Pushing?
    ensures Keeps(c, w, Emitting(c, w, p, a))
  {
    hide Inv, Step, LoopMatched, NoLostWakeup;
    ProducerStepEffect(c, w.ring, a, p);
    PushKeeps(c, w, a, p, AfterPush(Step(c, w.ring, a), p));
  }

  lemma SignalKeeps(c: Config, w: World, p: nat)
    requires Good(c, w) && p in w.emitters && w.emitters[p].MustSignal?
    ensures Keeps(c, w, w.(signalled := true, emitters := w.emitters[p := Quiet]))
  {
    hide Inv, LoopMatched, HeadCommitted;
    var w' := w.(signalled := true, emitters := w.emitters[p := Quiet]);
    SameLoop(w, w');
  }

  lemma LoopKeeps(c: Config, w: World)
    requires Good(c, w) && ValidCapacity(c.layout, c.cap)
    ensures Keeps(c, w, LoopMove(c, w))
  {
    hide Inv, Step;
    var w' := LoopMove(c, w);
    match w.loop {
      case Dispatch => ConsumerMoves(c, w, StartAcquire);
      case Acquiring =>
        ConsumerMoves(c, w, StepConsumer);
        if w'.ring.consumer.Ready? { EmptyMeansUncommitted(c, w.ring); }
      case Calling => ConsumerMoves(c, w, StartRelease);
      case Releasing => ConsumerMoves(c, w, StepConsumer);
      case _ =>
    }
  }

  /** Where the consumer's own steps lead. */
  lemma ConsumerMoves(c: Config, w: World, a: Action)
    requires Good(c, w) && ValidCapacity(c.layout, c.cap)
    requires match w.loop
             case Dispatch => a == StartAcquire
             case Acquiring => a == StepConsumer
             case Calling => a == StartRelease
             case Releasing => a == StepConsumer
             case _ => false
    ensures Keeps(c, w, LoopMove(c, w)) || LoopMove(c, w).loop.CheckQuit?
    ensures Inv(c, Step(c, w.ring, a)) && Matched(LoopMove(c, w)) && LoopMatched(LoopMove(c, w))
  {
    hide Inv, PutHeader, HeaderAt, MetaIsValid, MetaIsFake, PayloadSize;
    StepKeeps(c, w.ring, a);
    ConsumerStepEffect(c, w.ring, a);
    if w.loop.Calling? { LoanReadable(c, w.ring); }
  }

  lemma LoanReadable(c: Config, s: State)
    requires Inv(c, s) && s.consumer.Loan?
    ensures s.consumer.off + s.consumer.size <= |s.mem|
  {
    LoanIsRecord(c, s);
  }

  /** Every event keeps the machine sound, and exactly the harmful ones lose a wakeup. */
  lemma NextKeeps(c: Config, w: World, e: Event)
    requires Good(c, w) && ValidCapacity(c.layout, c.cap)
    ensures Good(c, Next(c, w, e))
    ensures NoLostWakeup(w) ==> (NoLostWakeup(Next(c, w, e)) <==> Harmless(w, e))
  {
    hide Good, LoopMove, Emitting, Step, NoLostWakeup;
    match e {
      case Emit(p, parts) => EmitKeeps(c, w, p, parts);
      case EmitterStep(p) =>
        if p in w.emitters && p in w.ring.producers && w.emitters[p].Pushing? {
          EmitterMoveKeeps(c, w, p, StepProducer(p));
        } else if p in w.emitters && w.emitters[p].MustSignal? {
          SignalKeeps(c, w, p);
        }
      case EmitterRetry(p) =>
        if p in w.emitters && p in w.ring.producers && w.emitters[p].Pushing? {
          EmitterMoveKeeps(c, w, p, FailSwap(p));
        }
      case EmitterSignalFails(p) => EmitterFailureLoses(c, w, p);
      case QuitSignalFails => QuitFailureLoses(c, w);
      case LoopStep => LoopKeeps(c, w);
      case _ => FlagsKeep(c, w, e);
    }
  }

  lemma FlagsKeep(c: Config, w: World, e: Event)
    requires Good(c, w) && ValidCapacity(c.layout, c.cap)
    requires e.RunLoop? || e.QuitStore? || e.QuitSignal? || e.WaitFails?
    ensures Keeps(c, w, Next(c, w, e))
  {
    hide Inv, HeadCommitted;
    if !w.signalled && WakeupComing(w) {
      var q :| q in w.emitters && w.emitters[q].MustSignal?;
      assert q in Next(c, w, e).emitters;
    }
  }

  lemma EmitterFailureLoses(c: Config, w: World, p: nat)
    requires Good(c, w) && ValidCapacity(c.layout, c.cap)
    ensures var e := EmitterSignalFails(p);
            && Good(c, Next(c, w, e))
            && (NoLostWakeup(w) ==> (NoLostWakeup(Next(c, w, e)) <==> Harmless(w, e)))
  {
    hide Inv, LoopMatched, HeadCommitted;
    var w' := Next(c, w, EmitterSignalFails(p));
    SameLoop(w, w');
    if p in w.emitters && w.emitters[p].MustSignal? {
      assert forall q :: q in w'.emitters && w'.emitters[q].MustSignal?
                         <==> q in w.emitters && q != p && w.emitters[q].MustSignal?;
    }
  }

  lemma QuitFailureLoses(c: Config, w: World)
    requires Good(c, w) && ValidCapacity(c.layout, c.cap)
    ensures Good(c, Next(c, w, QuitSignalFails))
    ensures NoLostWakeup(w) ==> (NoLostWakeup(Next(c, w, QuitSignalFails)) <==> Harmless(w, QuitSignalFails))
  {
    hide Inv, LoopMatched, HeadCommitted;
    var w' := Next(c, w, QuitSignalFails);
    SameLoop(w, w');
    assert WakeupComing(w') <==> WakeupComing(w) by { assert w'.emitters == w.emitters; }
  }

  /** An emitter must signal exactly from a push that returned success to its own signal, sent or failed. */
  lemma MustSignalExactly(c: Config, w: World, e: Event, p: nat)
    requires Good(c, w) && ValidCapacity(c.layout, c.cap) && p in w.emitters
    ensures var w' := Next(c, w, e);
            && p in w'.emitters && p in w'.ring.producers
            && (w'.emitters[p].MustSignal? <==>
                  if w.emitters[p].MustSignal? then e != EmitterStep(p) && e != EmitterSignalFails(p)
                  else w.emitters[p].Pushing? && w'.ring.producers[p] == Idle(Ok))
  {
    hide Inv, Step, LoopMatched, NoLostWakeup, Emitting, LoopMove, HeadCommitted;
    match e {
      case Emit(q, parts) =>
        if q in w.emitters { ProducerStepEffect(c, w.ring, StartPush(q, parts), q); }
      case EmitterStep(q) =>
        if q in w.emitters && w.emitters[q].Pushing? { EmittingAsks(c, w, q, StepProducer(q), p); }
      case EmitterRetry(q) =>
        if q in w.emitters && w.emitters[q].Pushing? { EmittingAsks(c, w, q, FailSwap(q), p); }
      case LoopStep => LoopLeavesProducers(c, w);
      case _ =>
    }
  }

  lemma EmittingAsks(c: Config, w: World, q: nat, a: Action, p: nat)
    requires Good(c, w) && ValidCapacity(c.layout, c.cap) && (a == StepProducer(q) || a == FailSwap(q))
    requires q in w.emitters && w.emitters[q].Pushing? && p in w.emitters
    ensures var w' := Emitting(c, w, q, a);
            && p in w'.emitters && p in w'.ring.producers
            && (w'.emitters[p].MustSignal? <==>
                  w.emitters[p].MustSignal? || (w.emitters[p].Pushing? && w'.ring.producers[p] == Idle(Ok)))
  {
    hide Inv, Step, LoopMatched, HeadCommitted;
    ProducerStepEffect(c, w.ring, a, q);
  }

  lemma LoopLeavesProducers(c: Config, w: World)
    requires Inv(c, w.ring) && ValidCapacity(c.layout, c.cap)
    ensures LoopMove(c, w).ring.producers == w.ring.producers && LoopMove(c, w).emitters == w.emitters
  {
    hide Inv, Step;
    ConsumerStepEffect(c, w.ring, StartAcquire);
    ConsumerStepEffect(c, w.ring, StepConsumer);
    ConsumerStepEffect(c, w.ring, StartRelease);
  }

  /** Every reachable state of the loop, its ring and its emitters. */
  lemma {:induction false} PlayKeeps(c: Config, pids: set<nat>, events: seq<Event>)
    requires ValidCapacity(c.layout, c.cap)
    ensures Good(c, Play(c, Start(c, pids), events))
    decreases |events|
  {
    if events == [] {
      InitKeeps(c, pids);
    } else {
      hide Good, Next, Start;
      PlayKeeps(c, pids, events[..|events| - 1]);
      NextKeeps(c, Play(c, Start(c, pids), events[..|events| - 1]), events[|events| - 1]);
    }
  }

  /** No state that the events lead through has lost a wakeup. */
  ghost predicate NeverLost(c: Config, w: World, events: seq<Event>)
    requires ValidCapacity(c.layout, c.cap)
    decreases |events|
  {
    NoLostWakeup(Play(c, w, events)) && (events != [] ==> NeverLost(c, w, events[..|events| - 1]))
  }

  ghost predicate AllHarmless(c: Config, w: World, events: seq<Event>)
    requires ValidCapacity(c.layout, c.cap)
    decreases |events|
  {
    events != [] ==>
      var n := |events| - 1;
      AllHarmless(c, w, events[..n]) && Harmless(Play(c, w, events[..n]), events[n])
  }

  /** The loop waits and the wakeup is not set. */
  predicate Blocked(w: World) { w.loop.Waiting? && !w.signalled }

  lemma {:induction false} LostExactlyByFailure(c: Config, pids: set<nat>, events: seq<Event>)
    requires ValidCapacity(c.layout, c.cap)
    ensures NeverLost(c, Start(c, pids), events) <==> AllHarmless(c, Start(c, pids), events)
    decreases |events|
  {
    if events != [] {
      hide Good, Next, Start, NoLostWakeup, Harmless;
      var n := |events| - 1;
      LostExactlyByFailure(c, pids, events[..n]);
      PlayKeeps(c, pids, events[..n]);
      NextKeeps(c, Play(c, Start(c, pids), events[..n]), events[n]);
    }
  }

  /**
   No lost wakeup: a run in which no signal failure was harmful never leaves the loop blocked although the head
   record of its ring is committed, unless some emitter stands between the commit of its record and its signal,
   whatever order the records were committed in. A quit request is not lost on a blocked loop either. And only
   runs with a harmful signal failure do lose a wakeup.
   */
  lemma NoLostLoopWakeup(c: Config, pids: set<nat>, events: seq<Event>)
    requires ValidCapacity(c.layout, c.cap)
    ensures NeverLost(c, Start(c, pids), events) <==> AllHarmless(c, Start(c, pids), events)
    ensures AllHarmless(c, Start(c, pids), events) ==>
              var w := Play(c, Start(c, pids), events);
              && (Blocked(w) && HeadCommitted(w.ring) ==> exists p :: p in w.emitters && w.emitters[p].MustSignal?)
              && (Blocked(w) && w.quit ==> w.quitters > 0)
  {
    LostExactlyByFailure(c, pids, events);
  }

  /** An emitter between commit and signal sets the wakeup; the loop then leaves its wait and takes the wakeup back. */
  lemma SignalWakes(c: Config, w: World, p: nat)
    requires ValidCapacity(c.layout, c.cap) && Blocked(w) && p in w.emitters && w.emitters[p].MustSignal?
    ensures var w' := Next(c, Next(c, w, EmitterStep(p)), LoopStep); w'.loop.Dispatch? && !w'.signalled
  {
  }

  /** A blocked loop stays blocked until somebody sets its wakeup or its wait fails. */
  lemma StaysBlocked(c: Config, w: World, e: Event)
    requires ValidCapacity(c.layout, c.cap) && Blocked(w) && e != WaitFails
    requires forall p :: p in w.emitters && w.emitters[p].MustSignal? ==> e != EmitterStep(p)
    requires w.quitters > 0 ==> e != QuitSignal
    ensures Blocked(Next(c, w, e))
  {
    hide Step;
  }

  // ---- what a woken loop does ----

  /** The loop will come to its ring by itself: it is not stopped, not about to stop, and not blocked. */
  predicate Going(w: World) {
    && !w.loop.Stopped? && !w.loop.Resetting?
    && (w.loop.CheckQuit? ==> !w.quit && w.signalled) && (w.loop.Waiting? ==> w.signalled)
  }

  ghost function LoopStepsToRelease(w: World): nat
    requires HeadCommitted(w.ring)
  {
    StepsToRelease(w.ring) + if w.loop.CheckQuit? then 2 else if w.loop.Waiting? then 1 else 0
  }

  /** With its head record committed, every step of a going loop brings the release closer. */
  lemma LoopProgress(c: Config, w: World)
    requires Good(c, w) && ValidCapacity(c.layout, c.cap) && HeadCommitted(w.ring) && Going(w)
    ensures var w', k := LoopMove(c, w), |w.ring.delivered|;
            && w'.ring.records == w.ring.records
            && if w.ring.consumer.ReleaseAdvance?
               then w'.ring.delivered == w.ring.delivered + [w.ring.records[k].data]
               else w'.ring.delivered == w.ring.delivered && HeadCommitted(w'.ring) && Going(w')
                    && LoopStepsToRelease(w') < LoopStepsToRelease(w)
  {
    hide Inv, Step, StepsToRelease;
    ConsumerProgress(c, w.ring);
    StaysInPhase(c, w);
  }

  /** A loop that acquires a committed head finds it; the other phases follow the ring. */
  lemma StaysInPhase(c: Config, w: World)
    requires Good(c, w) && ValidCapacity(c.layout, c.cap) && HeadCommitted(w.ring) && Going(w)
    ensures var w' := LoopMove(c, w);
            && (w.loop.Acquiring? ==> w'.loop.Acquiring? || w'.loop.Calling?)
            && (w.loop.Dispatch? || w.loop.Acquiring? || w.loop.Calling? || w.loop.Releasing?
                ==> w'.ring == Step(c, w.ring, NextConsumerAction(w.ring)))
            && (w.loop.CheckQuit? || w.loop.Waiting? ==> w'.ring == w.ring)
            && (w.ring.consumer.ReleaseAdvance? ==> w.loop.Releasing?)
  {
    hide Inv, Step;
    if w.loop.Acquiring? && Step(c, w.ring, StepConsumer).consumer.Ready? {
      EmptyMeansUncommitted(c, w.ring);
      assert false;
    }
  }

  /** A loop that is going delivers its committed head record by its own steps alone. */
  lemma {:induction false} LoopDelivers(c: Config, w: World) returns (events: seq<Event>)
    requires Good(c, w) && ValidCapacity(c.layout, c.cap) && HeadCommitted(w.ring) && Going(w)
    ensures forall e :: e in events ==> e == LoopStep
    ensures var w', k := Play(c, w, events), |w.ring.delivered|;
            && Good(c, w') && w'.ring.records == w.ring.records
            && w'.ring.delivered == w.ring.delivered + [w.ring.records[k].data]
    decreases LoopStepsToRelease(w)
  {
    hide Good, LoopMove, Going, HeadCommitted, StepsToRelease;
    LoopProgress(c, w);
    NextKeeps(c, w, LoopStep);
    PlayMore(c, w, [], LoopStep);
    if w.ring.consumer.ReleaseAdvance? {
      events := [] + [LoopStep];
    } else {
      var rest := LoopDelivers(c, LoopMove(c, w));
      events := [LoopStep] + rest;
      assert [] + [LoopStep] == [LoopStep];
      PlayConcat(c, w, [LoopStep], rest);
    }
  }

  lemma {:induction false} PlayConcat(c: Config, w: World, xs: seq<Event>, ys: seq<Event>)
    requires ValidCapacity(c.layout, c.cap)
    ensures Play(c, w, xs + ys) == Play(c, Play(c, w, xs), ys)
    decreases |ys|
  {
    hide Next;
    if ys == [] {
      assert xs + ys == xs;
    } else {
      var front := ys[..|ys| - 1];
      assert (xs + ys)[..|xs + ys| - 1] == xs + front;
      PlayConcat(c, w, xs, front);
    }
  }

  /**
   No committed record is stuck: wherever a run without a harmful signal failure has got to, a loop that is blocked
   before a committed head delivers it by its own steps as soon as one emitter has made its next one.
   */
  lemma BlockedLoopDelivers(c: Config, pids: set<nat>, events: seq<Event>) returns (p: nat, more: seq<Event>)
    requires ValidCapacity(c.layout, c.cap) && AllHarmless(c, Start(c, pids), events)
    requires var w := Play(c, Start(c, pids), events); Blocked(w) && HeadCommitted(w.ring)
    ensures forall e :: e in more ==> e == LoopStep
    ensures var w, k := Play(c, Start(c, pids), events), |Play(c, Start(c, pids), events).ring.delivered|;
            && p in w.emitters && w.emitters[p].MustSignal?
            && Play(c, Next(c, w, EmitterStep(p)), more).ring.delivered
               == w.ring.delivered + [w.ring.records[k].data]
  {
    hide Good, Play, Start, AllHarmless;
    var w := Play(c, Start(c, pids), events);
    NoLostLoopWakeup(c, pids, events);
    PlayKeeps(c, pids, events);
    p :| p in w.emitters && w.emitters[p].MustSignal?;
    NextKeeps(c, w, EmitterStep(p));
    more := LoopDelivers(c, Next(c, w, EmitterStep(p)));
  }

  // ---- quitting ----

  /** The loop was asked to quit and is not blocked. */
  predicate Quitting(w: World) { w.quit && !w.loop.Stopped? && !Blocked(w) }

  ghost function StepsToStop(w: World): nat {
    var k := |w.ring.delivered|;
    var skips := k < |w.ring.records| && w.ring.records[k].plan.fake != 0
                 && w.ring.read == w.ring.records[k].plan.start;
    var round := if skips then 10 else 0;
    match w.loop
    case Stopped => 0
    case CheckQuit => 2
    case Resetting => 1
    case Waiting => 12 + round
    case _ =>
      match w.ring.consumer
      case Ready => 11 + round
      case AcquireRead => 10 + round
      case AcquireWrite(_) => 9 + round
      case AcquireHeader(_, _) => 8 + round
      case SkipClear(_, _) => 17
      case SkipAdvance(_, _) => 16
      case Loan(_, _) => 7
      case ReleaseRead(_, _) => 6
      case ReleaseWrite(_, _, _) => 5
      case ReleaseHeader(_, _, _, _) => 4
      case ReleaseClear(_, _, _) => 3
      case ReleaseAdvance(_, _, _) => 2
  }

  /** The loop is past its dispatching. */
  predicate Leaving(w: World) { w.loop.CheckQuit? || w.loop.Resetting? }

  /** Every step of a quitting loop delivers a record or comes closer to its stop. */
  ghost predicate StopsSoon(w: World, w': World) {
    && w'.ring.records == w.ring.records
    && (if |w'.ring.delivered| == |w.ring.delivered| then StepsToStop(w') < StepsToStop(w)
        else |w'.ring.delivered| == |w.ring.delivered| + 1)
    && (if w.loop.Resetting? then w'.loop.Stopped? && !w'.quit else Quitting(w'))
    && (Leaving(w) ==> w'.ring == w.ring && (w.loop.CheckQuit? ==> w'.loop.Resetting?))
    && (Leaving(w') && !Leaving(w) ==> !HeadCommitted(w'.ring))
  }

  lemma QuitProgress(c: Config, w: World)
    requires Good(c, w) && ValidCapacity(c.layout, c.cap) && Quitting(w)
    ensures StopsSoon(w, LoopMove(c, w))
  {
    hide Inv, Step;
    if w.loop.Acquiring? {
      AcquireComesCloser(c, w);
    } else if w.loop.Dispatch? || w.loop.Calling? || w.loop.Releasing? {
      ReleaseComesCloser(c, w);
    }
  }

  lemma SkipsHead(c: Config, s: State)
    requires Inv(c, s) && (s.consumer.SkipClear? || s.consumer.SkipAdvance?)
    ensures |s.delivered| < |s.records|
    ensures var plan := s.records[|s.delivered|].plan;
            plan.fake != 0 && s.read == plan.start && s.consumer.stride == plan.fake && s.consumer.readPos == s.read
  {
    hide Memory, Owners, History, Positions, ProducerOk;
  }

  lemma ReleasesHead(c: Config, s: State)
    requires Inv(c, s)
    requires s.consumer.ReleaseRead? || s.consumer.ReleaseWrite? || s.consumer.ReleaseHeader?
             || s.consumer.ReleaseClear? || s.consumer.ReleaseAdvance?
    ensures HeadCommitted(s)
  {
    hide Memory, Owners, History, Positions, ProducerOk;
  }

  lemma AcquireComesCloser(c: Config, w: World)
    requires Good(c, w) && ValidCapacity(c.layout, c.cap) && Quitting(w) && w.loop.Acquiring?
    ensures StopsSoon(w, LoopMove(c, w))
  {
    hide Inv, PutHeader, HeaderAt, MetaIsValid, MetaIsFake, PayloadSize, MetaStride;
    var s := w.ring;
    var s' := Step(c, s, StepConsumer);
    StepKeeps(c, s, StepConsumer);
    if s.consumer.SkipClear? || s.consumer.SkipAdvance? { SkipsHead(c, s); }
    if s'.consumer.SkipClear? { SkipsHead(c, s'); }
    if s'.consumer.Ready? { EmptyMeansUncommitted(c, s); }
  }

  lemma ReleaseComesCloser(c: Config, w: World)
    requires Good(c, w) && ValidCapacity(c.layout, c.cap) && Quitting(w)
    requires w.loop.Dispatch? || w.loop.Calling? || w.loop.Releasing?
    ensures StopsSoon(w, LoopMove(c, w))
  {
    hide Inv, PutHeader, HeaderAt, MetaIsValid, MetaIsFake, PayloadSize, MetaStride;
    if w.loop.Calling? { LoanReadable(c, w.ring); }
    if w.loop.Releasing? {
      ReleasesHead(c, w.ring);
      ConsumerProgress(c, w.ring);
    }
  }

  /** A loop that was asked to quit and is not blocked stops by its own steps, having left no committed record. */
  lemma {:induction false} QuittingStops(c: Config, w: World) returns (events: seq<Event>)
    requires Good(c, w) && ValidCapacity(c.layout, c.cap) && Quitting(w)
    ensures forall e :: e in events ==> e == LoopStep
    ensures var w' := Play(c, w, events);
            && w'.loop.Stopped? && !w'.quit && w'.ring.records == w.ring.records
            && (if Leaving(w) then w'.ring == w.ring else !HeadCommitted(w'.ring))
    decreases |w.ring.records| - |w.ring.delivered|, StepsToStop(w)
  {
    hide Good, LoopMove, Quitting, HeadCommitted, StepsToStop;
    QuitProgress(c, w);
    NextKeeps(c, w, LoopStep);
    PlayMore(c, w, [], LoopStep);
    assert [] + [LoopStep] == [LoopStep];
    if w.loop.Resetting? {
      events := [LoopStep];
    } else {
      RingOf(c, LoopMove(c, w));
      HeadOwner(c, LoopMove(c, w).ring);
      var rest := QuittingStops(c, LoopMove(c, w));
      events := [LoopStep] + rest;
      PlayConcat(c, w, [LoopStep], rest);
    }
  }

  /**
   A quit request stops the loop: wherever a run without a harmful signal failure has got to with the quit flag set,
   a loop that has not stopped does so by its own steps, after the quitter's signal if it is blocked.
   */
  lemma QuitStops(c: Config, pids: set<nat>, events: seq<Event>) returns (more: seq<Event>)
    requires ValidCapacity(c.layout, c.cap) && AllHarmless(c, Start(c, pids), events)
    requires var w := Play(c, Start(c, pids), events); w.quit && !w.loop.Stopped?
    ensures var w := Play(c, Start(c, pids), events);
            && (Blocked(w) ==> w.quitters > 0)
            && (forall e :: e in more ==> e == LoopStep)
            && var w' := Play(c, if Blocked(w) then Next(c, w, QuitSignal) else w, more);
               w'.loop.Stopped? && !w'.quit && (Leaving(w) || !HeadCommitted(w'.ring))
  {
    hide Good, Play, Start, AllHarmless, HeadCommitted;
    var w := Play(c, Start(c, pids), events);
    NoLostLoopWakeup(c, pids, events);
    PlayKeeps(c, pids, events);
    NextKeeps(c, w, QuitSignal);
    more := QuittingStops(c, if Blocked(w) then Next(c, w, QuitSignal) else w);
  }

  /** The loop takes the quit flag back and stops. */
  predicate QuitsAt(w: World, e: Event) { e.LoopStep? && w.loop.Resetting? }

  ghost predicate SomeQuit(c: Config, w: World, events: seq<Event>)
    requires ValidCapacity(c.layout, c.cap)
  {
    exists i {:trigger events[i]} :: 0 <= i < |events| && QuitsAt(Play(c, w, events[..i]), events[i])
  }

  /** Only a failed wait or the quit flag stops the loop, and only stopping for it takes the flag back. */
  lemma StopsExactly(c: Config, w: World, e: Event)
    requires ValidCapacity(c.layout, c.cap)
    ensures var w' := Next(c, w, e);
            && (!w.loop.Stopped? && w'.loop.Stopped? <==> QuitsAt(w, e) || (e.WaitFails? && w.loop.Waiting?))
            && (w'.quit <==> e.QuitStore? || (w.quit && !QuitsAt(w, e)))
            && (w'.loop.Resetting? <==> if e.LoopStep? then w.loop.CheckQuit? && w.quit else w.loop.Resetting?)
  {
    hide Step;
  }

  /**
   The quit flag stays set until the loop stops for it, whatever else happens; and without a failed wait a loop
   stops only for a flag that was set, or was set on the way.
   */
  lemma {:induction false} QuitStays(c: Config, w: World, events: seq<Event>)
    requires ValidCapacity(c.layout, c.cap) && (w.loop.Resetting? ==> w.quit)
    ensures var w' := Play(c, w, events);
            && (w'.loop.Resetting? ==> w'.quit)
            && (w.quit ==> w'.quit || SomeQuit(c, w, events))
            && (!w.loop.Stopped? && w'.loop.Stopped? && WaitFails !in events ==> SomeQuit(c, w, events))
            && (w'.quit || SomeQuit(c, w, events) ==> w.quit || QuitStore in events)
    decreases |events|
  {
    if events != [] {
      hide Next, QuitsAt;
      var n := |events| - 1;
      QuitStays(c, w, events[..n]);
      StopsExactly(c, Play(c, w, events[..n]), events[n]);
      QuitsLater(c, w, events);
    }
  }

  /**
   A request that comes between the loop's look at the flag and its taking it back is overwritten: the loop stops for
   the earlier one, and its next run will not stop for this one.
   */
  lemma OverwrittenQuit(c: Config, w: World)
    requires ValidCapacity(c.layout, c.cap)
    ensures var w' := Next(c, Next(c, w, QuitStore), LoopStep);
            w'.quit <==> !w.loop.Resetting?
  {
    hide Step;
  }

  lemma QuitsLater(c: Config, w: World, events: seq<Event>)
    requires ValidCapacity(c.layout, c.cap) && events != []
    ensures var n := |events| - 1;
            SomeQuit(c, w, events)
            <==> SomeQuit(c, w, events[..n]) || QuitsAt(Play(c, w, events[..n]), events[n])
  {
    hide Play, QuitsAt;
    var n := |events| - 1;
    var front := events[..n];
    assert forall i :: 0 <= i < n ==> front[..i] == events[..i] && front[i] == events[i];
    if SomeQuit(c, w, front) {
      var i :| 0 <= i < n && QuitsAt(Play(c, w, front[..i]), front[i]);
      assert QuitsAt(Play(c, w, events[..i]), events[i]);
    }
    if SomeQuit(c, w, events) {
      var i :| 0 <= i < |events| && QuitsAt(Play(c, w, events[..i]), events[i]);
      assert i < n ==> QuitsAt(Play(c, w, front[..i]), front[i]);
    }
  }

  lemma {:induction false} PlayMore(c: Config, w: World, events: seq<Event>, e: Event)
    requires ValidCapacity(c.layout, c.cap)
    ensures Play(c, w, events + [e]) == Next(c, Play(c, w, events), e)
  {
    assert (events + [e])[..|events|] == events;
  }

  /** The loop has found its empty ring empty and waits. */
  lemma {:induction false} WaitingRun(c: Config, pids: set<nat>) returns (events: seq<Event>)
    requires ValidCapacity(c.layout, c.cap)
    ensures var w := Play(c, Start(c, pids), events);
            && w.loop.Waiting? && !w.signalled && !w.quit && w.quitters == 0
            && w.emitters == Start(c, pids).emitters && w.ring.producers == Init(c, pids).producers
            && w.ring.records == [] && w.ring.read == w.ring.write == w.ring.reserve == 0
  {
    events := [RunLoop];
    PlayMore(c, Start(c, pids), [], RunLoop);
    var i := 0;
    while i < 4
      invariant 0 <= i <= 4
      invariant var w := Play(c, Start(c, pids), events);
                && !w.signalled && !w.quit && w.quitters == 0
                && w.emitters == Start(c, pids).emitters && w.ring.producers == Init(c, pids).producers
                && w.ring.records == [] && w.ring.read == w.ring.write == w.ring.reserve == 0
                && (i == 0 ==> w.loop.Dispatch? && w.ring.consumer.Ready?)
                && (i == 1 ==> w.loop.Acquiring? && w.ring.consumer.AcquireRead?)
                && (i == 2 ==> w.loop.Acquiring? && w.ring.consumer == AcquireWrite(0))
                && (i == 3 ==> w.loop.CheckQuit?)
                && (i == 4 ==> w.loop.Waiting?)
    {
      PlayMore(c, Start(c, pids), events, LoopStep);
      events := events + [LoopStep];
      i := i + 1;
    }
  }

  /** A reachable loop that stops without having noticed a request: it came just before the flag was taken back. */
  lemma {:induction false} LateQuitIsLost(c: Config, pids: set<nat>)
    requires ValidCapacity(c.layout, c.cap)
    ensures exists events :: var w := Play(c, Start(c, pids), events + [QuitStore, LoopStep]);
              Play(c, Start(c, pids), events).loop.Resetting? && w.loop.Stopped? && !w.quit
  {
    hide Play, Next;
    var start := Start(c, pids);
    var events := ResettingRun(c, pids);
    var w := Play(c, start, events);
    PlayMore(c, start, events, QuitStore);
    PlayMore(c, start, events + [QuitStore], LoopStep);
    assert events + [QuitStore] + [LoopStep] == events + [QuitStore, LoopStep];
    OverwrittenQuit(c, w);
    StopsExactly(c, w, QuitStore);
    StopsExactly(c, Next(c, w, QuitStore), LoopStep);
  }

  /** The loop has found its empty ring empty and a request to quit. */
  lemma {:induction false} ResettingRun(c: Config, pids: set<nat>) returns (events: seq<Event>)
    requires ValidCapacity(c.layout, c.cap)
    ensures Play(c, Start(c, pids), events).loop.Resetting?
  {
    hide Play, HeaderAt, PutHeader, MetaIsValid, MetaIsFake, PayloadSize, MetaStride;
    var start := Start(c, pids);
    PlayNothing(c, start);
    events := [] + [QuitStore];
    PlayMore(c, start, [], QuitStore);
    PlayMore(c, start, events, RunLoop);
    events := events + [RunLoop];
    var i := 0;
    while i < 4
      invariant 0 <= i <= 4
      invariant var w := Play(c, start, events);
                && w.quit && w.ring.read == w.ring.write == 0
                && (i == 0 ==> w.loop.Dispatch? && w.ring.consumer.Ready?)
                && (i == 1 ==> w.loop.Acquiring? && w.ring.consumer.AcquireRead?)
                && (i == 2 ==> w.loop.Acquiring? && w.ring.consumer == AcquireWrite(0))
                && (i == 3 ==> w.loop.CheckQuit?)
                && (i == 4 ==> w.loop.Resetting?)
    {
      PlayMore(c, start, events, LoopStep);
      events := events + [LoopStep];
      i := i + 1;
    }
  }

  lemma PlayNothing(c: Config, w: World)
    requires ValidCapacity(c.layout, c.cap)
    ensures Play(c, w, []) == w
  {
  }

  /** One step of an emitter that pushes undisturbed: the loop does not move, and the push comes closer to its end. */
  lemma EmitterPushStep(c: Config, w: World, p: nat, data: seq<byte>, quiet: State)
    requires Good(c, w) && ValidCapacity(c.layout, c.cap) && p in w.emitters && p in w.ring.producers
    requires w.emitters[p].Pushing? && PushingAlone(c, w.ring, p, data, quiet)
    ensures var w' := Next(c, w, EmitterStep(p));
            && Good(c, w') && w'.loop == w.loop && w'.signalled == w.signalled && w'.quit == w.quit
            && w'.ring.delivered == w.ring.delivered && p in w'.ring.producers
            && if w'.ring.producers[p].Idle?
               then w'.emitters == w.emitters[p := MustSignal]
                    && PushedNext(c, w'.ring, data, quiet) && NoneInFlight(w'.ring)
               else w'.emitters == w.emitters && PushingAlone(c, w'.ring, p, data, quiet)
                    && StepsToReturn(w'.ring, p) < StepsToReturn(w.ring, p)
  {
    hide Good, Step, PushingAlone, Inv, NoLostWakeup, StepsToReturn;
    var a := StepProducer(p);
    RingOf(c, w);
    AloneProgress(c, w.ring, p, data, quiet);
    OnlyOwnState(c, w.ring, p);
    ProducerStepEffect(c, w.ring, a, p);
    EmitterMoveKeeps(c, w, p, a);
  }

  /** An emitter that pushes undisturbed commits its record and must signal; the loop has not moved. */
  lemma {:induction false} EmitterPushes(c: Config, w: World, p: nat, data: seq<byte>, quiet: State)
      returns (events: seq<Event>)
    requires Good(c, w) && ValidCapacity(c.layout, c.cap) && p in w.emitters && p in w.ring.producers
    requires w.emitters[p].Pushing? && PushingAlone(c, w.ring, p, data, quiet)
    ensures var w' := Play(c, w, events);
            && Good(c, w') && w'.loop == w.loop && w'.signalled == w.signalled && w'.quit == w.quit
            && w'.emitters == w.emitters[p := MustSignal] && w'.ring.delivered == w.ring.delivered
            && PushedNext(c, w'.ring, data, quiet) && NoneInFlight(w'.ring)
    decreases StepsToReturn(w.ring, p)
  {
    hide Good, Next, PushingAlone, PushedNext, NoneInFlight, StepsToReturn;
    EmitterPushStep(c, w, p, data, quiet);
    PlayMore(c, w, [], EmitterStep(p));
    assert [] + [EmitterStep(p)] == [EmitterStep(p)];
    var w1 := Next(c, w, EmitterStep(p));
    if w1.ring.producers[p].Idle? {
      events := [EmitterStep(p)];
    } else {
      var rest := EmitterPushes(c, w1, p, data, quiet);
      events := [EmitterStep(p)] + rest;
      PlayConcat(c, w, [EmitterStep(p)], rest);
    }
  }

  lemma RingOf(c: Config, w: World)
    requires Good(c, w)
    ensures Inv(c, w.ring)
  {
  }

  /** Emitting an empty payload into the empty ring of a waiting loop starts an undisturbed push. */
  lemma EmptyPushStarts(c: Config, w: World)
    requires ValidCapacity(c.layout, c.cap) && Good(c, w)
    requires w.emitters == map[0 := Quiet] && w.ring.producers == map[0 := Idle(Ok)]
    requires w.ring.records == [] && w.ring.read == w.ring.write == w.ring.reserve
    ensures var w' := Next(c, w, Emit(0, [[]]));
            && w'.emitters == map[0 := EmitterPc.Pushing] && 0 in w'.ring.producers
            && PushingAlone(c, w'.ring, 0, [], w.ring) && w'.ring.delivered == w.ring.delivered
            && w'.loop == w.loop && w'.signalled == w.signalled
  {
    hide Good;
    CapacityFacts(c.layout, c.cap);
    assert Payload([[]]) == [] by { assert Flat([[]], 0) == []; }
  }

  lemma HeadIsDone(c: Config, s: State)
    requires Inv(c, s) && NoneInFlight(s) && |s.delivered| < |s.records|
    ensures HeadCommitted(s)
  {
    AllDone(c, s, |s.delivered|);
  }

  /** The loop waits; one emitter has pushed and committed the only record and must signal. */
  lemma PushedRun(c: Config) returns (events: seq<Event>)
    requires ValidCapacity(c.layout, c.cap)
    ensures var w := Play(c, Start(c, {0}), events);
            Blocked(w) && HeadCommitted(w.ring) && w.emitters == map[0 := MustSignal]
  {
    hide Play, Good, PushingAlone, PlanPush, Next, Init, HeadCommitted;
    var start := Start(c, {0});
    StartsQuiet(c);
    var waiting := WaitingRun(c, {0});
    var w := Play(c, start, waiting);
    PlayKeeps(c, {0}, waiting);
    EmptyPushStarts(c, w);
    PlayMore(c, start, waiting, Emit(0, [[]]));
    var asked := waiting + [Emit(0, [[]])];
    PlayKeeps(c, {0}, asked);
    var push := EmitterPushes(c, Play(c, start, asked), 0, [], w.ring);
    PlayConcat(c, start, asked, push);
    events := asked + push;
    RingOf(c, w);
    HeadOwner(c, w.ring);
    RingOf(c, Play(c, start, events));
    HeadIsDone(c, Play(c, start, events).ring);
  }

  lemma StartsQuiet(c: Config)
    ensures Start(c, {0}).emitters == map[0 := Quiet] && Init(c, {0}).producers == map[0 := Idle(Ok)]
  {
  }

  /**
   A reachable loop that is blocked although its head record is committed, with no emitter left to signal: the one
   signal after the one push failed, and its result is discarded.
   */
  lemma FailedSignalLosesRecord(c: Config)
    requires ValidCapacity(c.layout, c.cap)
    ensures exists events :: var w := Play(c, Start(c, {0}), events);
              Blocked(w) && HeadCommitted(w.ring) && w.emitters == map[0 := Quiet]
  {
    hide Play, HeadCommitted;
    var pushed := PushedRun(c);
    PlayMore(c, Start(c, {0}), pushed, EmitterSignalFails(0));
    assert Blocked(Play(c, Start(c, {0}), pushed + [EmitterSignalFails(0)]));
  }

  /** A reachable loop that nobody will wake although it was asked to quit: the quitter's signal failed and told it. */
  lemma FailedSignalLosesQuit(c: Config)
    requires ValidCapacity(c.layout, c.cap)
    ensures exists events :: var w := Play(c, Start(c, {}), events); Blocked(w) && w.quit && w.quitters == 0
  {
    hide Play;
    var waiting := WaitingRun(c, {});
    PlayMore(c, Start(c, {}), waiting, QuitStore);
    var asked := waiting + [QuitStore];
    PlayMore(c, Start(c, {}), asked, QuitSignalFails);
    assert Blocked(Play(c, Start(c, {}), asked + [QuitSignalFails]));
  }
}
