/**
 What a producer does to the record ring when its position is a full wrap of the counters old: mostly nothing that
 the ring does not survive, and exactly when it breaks.
 */
module RecordRingStale {
  import opened Arithmetic
  import opened RecordWords
  import opened RecordFormat
  import opened RecordRing
  import opened RecordRingInvariant
  import opened RecordRingSteps
  import opened RecordRingTheorems
  import opened RecordRingWrapped

  /**
   The one harmful step: a swap that wins because the reserve position has come round to the producer's word, and
   claims more than the room left or overtakes a record whose write position is not stored yet.
   */
  predicate Harmful(c: Config, s: State, a: Action)
    requires c.cap > 0
  {
    && DeceivedBy(c, s, a) && s.producers[a.p].Reserve?
    && var plan := s.producers[a.p].plan;
       s.reserve + (plan.End() - plan.start) > s.read + c.cap || s.write != s.reserve
  }

  /** The plan of a producer about to swap, as if it had been made at the reserve position of now. */
  function Rebased(s: State, p: nat): State
    requires p in s.producers && s.producers[p].Reserve?
  {
    var Reserve(parts, plan) := s.producers[p];
    s.(producers := s.producers[p := Reserve(parts, plan.(start := s.reserve))])
  }

  /**
   The positions that the words stand for after a step. A plan made with an overtaken pair stays at its old position;
   a stale swap that wins reserves where the ring ends now.
   */
  function Follow(c: Config, s: State, a: Action): State
    requires ValidCapacity(c.layout, c.cap)
  {
    if !DeceivedBy(c, s, a) then Step(c, s, a)
    else match s.producers[a.p]
         case LoadRead(parts, writePos) =>
           (match PlanPush(c.layout, c.cap, |Payload(parts)|, writePos, writePos)
            case None => s
            case Some(plan) => s.(producers := s.producers[a.p := Reserve(parts, plan)]))
         case Reserve(_, _) => ProducerStep(c, Rebased(s, a.p), a.p)
         case _ => s
  }

  /** The words are those of some positions that satisfy the invariant of the ring. */
  ghost predicate Sound(c: Config, w: State) { exists s :: Inv(c, s) && Wrapped(c.layout, s) == w }

  /** A stale plan that finds room claims free storage all the same. */
  lemma FollowsPlan(c: Config, s: State, p: nat)
    requires Inv(c, s) && ValidCapacity(c.layout, c.cap) && p in s.producers
    requires s.producers[p].LoadRead? && Deceived(c, s, p)
    ensures var s' := Follow(c, s, StepProducer(p));
            Inv(c, s') && WordProducerStep(c, Wrapped(c.layout, s), p) == Wrapped(c.layout, s')
  {
    hide Inv, WrapProducers, WrapRecords, Wrap, Used, Payload;
    LoadedAligned(c, s, p);
    var LoadRead(parts, writePos) := s.producers[p];
    var size := |Payload(parts)|;
    StalePlan(c, size, writePos, s.read);
    var plan := PlanPush(c.layout, c.cap, size, writePos, writePos).value;
    StalePlanKeeps(c, s, p, plan);
    WrappedMember(c.layout, s.producers, p);
    WrapUpdate(c.layout, s.producers, p, Reserve(parts, plan));
  }

  lemma LoadedAligned(c: Config, s: State, p: nat)
    requires Inv(c, s) && p in s.producers && s.producers[p].LoadRead?
    ensures var LoadRead(parts, writePos) := s.producers[p];
            && ValidCapacity(c.layout, c.cap) && |Payload(parts)| <= MaxRecordSize(c.layout, c.cap)
            && writePos <= s.write && writePos % c.layout.Word() == 0
  {
    hide History, Memory, Owners, ConsumerOk, PlanFits, Payload;
    assert ProducerOk(c, s, p);
  }

  /** The plan made on words with an overtaken pair is the plan for the same position in an empty ring. */
  lemma StalePlan(c: Config, size: nat, writePos: nat, readPos: nat)
    requires ValidCapacity(c.layout, c.cap) && size <= MaxRecordSize(c.layout, c.cap)
    requires writePos % c.layout.Word() == 0 && Used(c.layout, writePos, readPos) + Claim(c, size, writePos) <= c.cap
    ensures var l := c.layout; var plan := PlanPush(l, c.cap, size, writePos, writePos);
            && plan.Some? && plan.value.start == writePos && plan.value.End() == writePos + Claim(c, size, writePos)
            && WrappedPlanPush(l, c.cap, size, Wrap(l, writePos), Wrap(l, readPos)) == Some(WrapPlan(l, plan.value))
  {
    hide IsPow2, Used, Wrap;
    EmptyRingAcceptsMaxRecord(c.layout, c.cap, size, writePos);
    OvertakenPlan(c, size, writePos, readPos);
    WrappedOffset(c, writePos);
  }

  lemma StalePlanKeeps(c: Config, s: State, p: nat, plan: Plan)
    requires Inv(c, s) && ValidCapacity(c.layout, c.cap) && p in s.producers
    requires s.producers[p].LoadRead? && s.producers[p].writePos < s.read
    requires PlanPush(c.layout, c.cap, |Payload(s.producers[p].parts)|, s.producers[p].writePos,
                      s.producers[p].writePos) == Some(plan)
    requires plan.start == s.producers[p].writePos && plan.End() <= s.read + c.cap
    ensures Inv(c, s.(producers := s.producers[p := Reserve(s.producers[p].parts, plan)]))
  {
    hide Inv, PlanPush, Payload, PlanFits;
    var LoadRead(parts, writePos) := s.producers[p];
    LoadedAligned(c, s, p);
    PlanPushFits(c.layout, c.cap, |Payload(parts)|, writePos, writePos);
    LocalProducerKeeps(c, s, p, Reserve(parts, plan));
  }

  // ---- stale swaps ----

  lemma RebasedWords(c: Config, s: State, p: nat)
    requires ValidCapacity(c.layout, c.cap) && p in s.producers && s.producers[p].Reserve? && Deceived(c, s, p)
    requires s.producers[p].plan.start <= s.reserve
    ensures Wrapped(c.layout, Rebased(s, p)) == Wrapped(c.layout, s)
    ensures var plan := s.producers[p].plan;
            && Offset(c, plan.start) == Offset(c, s.reserve)
            && Offset(c, plan.RecordPos()) == Offset(c, s.reserve + plan.fake)
  {
    hide WrapProducers, WrapRecords, Wrap, Offset;
    var Reserve(parts, plan) := s.producers[p];
    WrapEqual(c.layout, plan.start, s.reserve);
    WrapUpdate(c.layout, s.producers, p, Rebased(s, p).producers[p]);
    WrappedMember(c.layout, s.producers, p);
    WrappedOffset(c, plan.start);
    WrappedOffset(c, s.reserve);
    WrappedSum(c, plan.start, plan.fake);
    WrappedSum(c, s.reserve, plan.fake);
  }

  /** A stale swap wins; on words it is the swap of the rebased plan. */
  lemma StaleSwapWins(c: Config, s: State, p: nat)
    requires Inv(c, s) && ValidCapacity(c.layout, c.cap) && p in s.producers
    requires s.producers[p].Reserve? && Deceived(c, s, p)
    ensures WordProducerStep(c, Wrapped(c.layout, s), p) == Wrapped(c.layout, ProducerStep(c, Rebased(s, p), p))
  {
    hide Inv, Wrapped, WordProducerStep, ProducerStep;
    StartsBehind(c, s, p);
    RebasedWords(c, s, p);
    SwapsOnWords(c, Rebased(s, p), p);
  }

  /** A plan fits at every position of the same cell. */
  lemma FitsElsewhere(c: Config, size: nat, plan: Plan, start: nat)
    requires ValidCapacity(c.layout, c.cap) && PlanFits(c.layout, c.cap, size, plan) && start % c.layout.Word() == 0
    requires Offset(c, plan.start) == Offset(c, start) && Offset(c, plan.RecordPos()) == Offset(c, start + plan.fake)
    ensures PlanFits(c.layout, c.cap, size, plan.(start := start))
  {
  }

  /** With room for it and nobody unpublished, a stale swap leads to a state of the ring all the same. */
  lemma FollowsSwap(c: Config, s: State, p: nat)
    requires Inv(c, s) && ValidCapacity(c.layout, c.cap) && p in s.producers
    requires s.producers[p].Reserve? && Deceived(c, s, p) && !Harmful(c, s, StepProducer(p))
    ensures Inv(c, ProducerStep(c, Rebased(s, p), p))
  {
    hide Inv, ProducerStep, PlanFits, Payload, Offset, Deceived;
    var Reserve(parts, plan) := s.producers[p];
    ReserveFits(c, s, p);
    RebasedWords(c, s, p);
    FitsElsewhere(c, |Payload(parts)|, plan, s.reserve);
    LocalProducerKeeps(c, s, p, Reserve(parts, plan.(start := s.reserve)));
    ReserveKeeps(c, Rebased(s, p), p);
  }

  lemma ReserveFits(c: Config, s: State, p: nat)
    requires Inv(c, s) && p in s.producers && s.producers[p].Reserve?
    ensures var Reserve(parts, plan) := s.producers[p];
            && ValidCapacity(c.layout, c.cap) && |Payload(parts)| <= MaxRecordSize(c.layout, c.cap)
            && PlanFits(c.layout, c.cap, |Payload(parts)|, plan) && plan.start <= s.write <= s.reserve
            && s.reserve % c.layout.Word() == 0 && s.read <= s.reserve <= s.read + c.cap
  {
    hide History, Memory, Owners, ConsumerOk, PlanFits, Payload;
    assert ProducerOk(c, s, p);
  }

  // ---- harmful swaps ----

  /** Seen through words, the same producers are unpublished. */
  lemma UnpublishedOnWords(l: Layout, s: State, p: nat)
    ensures Unpublished(s, p) <==> Unpublished(Wrapped(l, s), p)
  {
    if p in s.producers { WrappedMember(l, s.producers, p); } else { WrapNoMember(l, s.producers, p); }
  }

  /** The words of reserve_pos and read_pos of a sound ring are no more than the capacity apart. */
  lemma SoundDistance(c: Config, s: State)
    requires Inv(c, s)
    ensures Used(c.layout, Wrap(c.layout, s.reserve), Wrap(c.layout, s.read)) <= c.cap
  {
    hide History, Memory, Owners, ProducerOk, ConsumerOk, Wrap, Used, IsPow2;
    UsedIsTrue(c, s.reserve, s.read);
  }

  lemma FarDistance(c: Config, reserve: nat, read: nat)
    requires ValidCapacity(c.layout, c.cap) && read + c.cap < reserve <= read + 3 * c.cap
    ensures Used(c.layout, Wrap(c.layout, reserve), Wrap(c.layout, read)) > c.cap
  {
    hide Wrap;
    QuarterCapacity(c.layout, c.cap);
    WordDifference(c.layout, reserve, read);
    ModUnique(reserve - read, c.layout.SizeMod(), 0, reserve - read);
  }

  lemma QuarterCapacity(l: Layout, cap: nat)
    requires ValidCapacity(l, cap)
    ensures 4 * cap <= l.SizeMod()
  {
  }

  /** A harmful swap leaves words that no state of the ring has. */
  lemma HarmIsReal(c: Config, s: State, p: nat, s': State)
    requires Inv(c, s) && ValidCapacity(c.layout, c.cap) && Harmful(c, s, StepProducer(p)) && Inv(c, s')
    ensures Wrapped(c.layout, s') != WordProducerStep(c, Wrapped(c.layout, s), p)
  {
    hide Inv, Deceived, PlanFits, Payload, Used;
    var l, t := c.layout, ProducerStep(c, Rebased(s, p), p);
    StaleSwapWins(c, s, p);
    ReserveFits(c, s, p);
    if Wrapped(l, s') == Wrapped(l, t) {
      if s.write != s.reserve {
        TwoUnpublished(c, s, p, s');
      } else {
        PlanIsShort(c, |Payload(s.producers[p].parts)|, s.producers[p].plan);
        FarDistance(c, t.reserve, t.read);
        SoundDistance(c, s');
      }
      assert false;
    }
  }

  lemma PlanIsShort(c: Config, size: nat, plan: Plan)
    requires PlanFits(c.layout, c.cap, size, plan)
    ensures plan.End() - plan.start <= 2 * c.cap
  {
  }

  lemma TwoUnpublished(c: Config, s: State, p: nat, s': State)
    requires Inv(c, s) && ValidCapacity(c.layout, c.cap) && p in s.producers && s.producers[p].Reserve?
    requires s.write != s.reserve && Inv(c, s')
    ensures Wrapped(c.layout, s') != Wrapped(c.layout, ProducerStep(c, Rebased(s, p), p))
  {
    hide Inv, Wrapped, FillStep, Payload;
    var l, t := c.layout, ProducerStep(c, Rebased(s, p), p);
    var q := SomebodyUnpublished(c, s);
    UnpublishedOnWords(l, t, p);
    UnpublishedOnWords(l, t, q);
    UnpublishedOnWords(l, s', p);
    UnpublishedOnWords(l, s', q);
    if Unpublished(s', p) && Unpublished(s', q) { OneUnpublished(c, s', p, q); }
  }

  /** Every step on words keeps them sound, unless it is a harmful swap: exactly then it breaks them. */
  lemma WordStepKeeps(c: Config, s: State, a: Action)
    requires Inv(c, s) && ValidCapacity(c.layout, c.cap)
    ensures Sound(c, WordStep(c, Wrapped(c.layout, s), a)) <==> !Harmful(c, s, a)
    ensures !Harmful(c, s, a) ==>
              Inv(c, Follow(c, s, a)) && WordStep(c, Wrapped(c.layout, s), a) == Wrapped(c.layout, Follow(c, s, a))
  {
    hide Inv, Deceived, WordProducerStep, ProducerStep, Step, WrapProducers, WrapRecords, Wrap;
    if !DeceivedBy(c, s, a) {
      StepOnWords(c, s, a);
      StepKeeps(c, s, a);
    } else {
      DeceivedPhases(c, s, a.p);
      WrappedMember(c.layout, s.producers, a.p);
      if s.producers[a.p].LoadRead? {
        FollowsPlan(c, s, a.p);
      } else if !Harmful(c, s, a) {
        StaleSwapWins(c, s, a.p);
        FollowsSwap(c, s, a.p);
      } else {
        var w := WordProducerStep(c, Wrapped(c.layout, s), a.p);
        if Sound(c, w) {
          var s' :| Inv(c, s') && Wrapped(c.layout, s') == w;
          HarmIsReal(c, s, a.p, s');
        }
      }
    }
  }

  lemma DeceivedPhases(c: Config, s: State, p: nat)
    requires p in s.producers && c.cap > 0 && Deceived(c, s, p)
    ensures s.producers[p].LoadRead? || s.producers[p].Reserve?
  {
  }

  // ---- runs ----

  /** The positions behind a run on words. */
  function FollowRun(c: Config, s: State, actions: seq<Action>): State
    requires ValidCapacity(c.layout, c.cap)
    decreases |actions|
  {
    if actions == [] then s else Follow(c, FollowRun(c, s, actions[..|actions| - 1]), actions[|actions| - 1])
  }

  predicate NeverHarmful(c: Config, s: State, actions: seq<Action>)
    requires ValidCapacity(c.layout, c.cap)
    decreases |actions|
  {
    actions != [] ==>
      var n := |actions| - 1;
      NeverHarmful(c, s, actions[..n]) && !Harmful(c, FollowRun(c, s, actions[..n]), actions[n])
  }

  /** Every state that the actions lead through on words is sound. */
  ghost predicate AlwaysSound(c: Config, w: State, actions: seq<Action>)
    requires ValidCapacity(c.layout, c.cap)
    decreases |actions|
  {
    Sound(c, WordRun(c, w, actions)) && (actions != [] ==> AlwaysSound(c, w, actions[..|actions| - 1]))
  }

  /** The ring on its wrapping counters stays sound over a run if and only if no step was a harmful swap. */
  lemma {:induction false} SoundExactly(c: Config, pids: set<nat>, actions: seq<Action>)
    requires ValidCapacity(c.layout, c.cap)
    ensures AlwaysSound(c, Init(c, pids), actions) <==> NeverHarmful(c, Init(c, pids), actions)
    ensures NeverHarmful(c, Init(c, pids), actions) ==>
              var s := FollowRun(c, Init(c, pids), actions);
              Inv(c, s) && WordRun(c, Init(c, pids), actions) == Wrapped(c.layout, s)
    decreases |actions|
  {
    hide Inv, Init, Wrapped, WordStep, Follow, Harmful;
    if actions == [] {
      InitKeeps(c, pids);
      InitOnWords(c, pids);
    } else {
      var n := |actions| - 1;
      SoundExactly(c, pids, actions[..n]);
      if NeverHarmful(c, Init(c, pids), actions[..n]) {
        WordStepKeeps(c, FollowRun(c, Init(c, pids), actions[..n]), actions[n]);
      }
    }
  }

  /**
   So over the wrapping counters too, without a harmful swap, the consumer sees a prefix of the pushed payloads and
   never an error, one producer at most is unpublished, and no more than the capacity is reserved.
   */
  lemma WordsDeliverPrefix(c: Config, pids: set<nat>, actions: seq<Action>)
    requires ValidCapacity(c.layout, c.cap) && NeverHarmful(c, Init(c, pids), actions)
    ensures var w := WordRun(c, Init(c, pids), actions);
            && w.delivered <= Pushed(w)
            && (w.lastAcquire == Ok || w.lastAcquire == Empty) && w.lastRelease == Ok
            && (forall p, q :: Unpublished(w, p) && Unpublished(w, q) ==> p == q)
            && Used(c.layout, w.reserve, w.read) <= c.cap
  {
    hide Inv, Init, WordStep, Follow, NeverHarmful, Used, Wrap, Unpublished;
    var w, s := WordRun(c, Init(c, pids), actions), FollowRun(c, Init(c, pids), actions);
    SoundExactly(c, pids, actions);
    PrefixOf(c, s);
    NoErrorSeen(c, s);
    SoundDistance(c, s);
    assert Pushed(w) == Pushed(s);
    forall p, q | Unpublished(w, p) && Unpublished(w, q)
      ensures p == q
    {
      UnpublishedOnWords(c.layout, s, p);
      UnpublishedOnWords(c.layout, s, q);
      OneUnpublished(c, s, p, q);
    }
  }

  lemma NoErrorSeen(c: Config, s: State)
    requires Inv(c, s)
    ensures (s.lastAcquire == Ok || s.lastAcquire == Empty) && s.lastRelease == Ok
  {
  }

  // ---- a run with a harmful swap ----

  lemma {:induction false} DeceivedConcat(c: Config, s: State, xs: seq<Action>, ys: seq<Action>)
    requires ValidCapacity(c.layout, c.cap)
    ensures NeverDeceived(c, s, xs + ys) <==> NeverDeceived(c, s, xs) && NeverDeceived(c, Run(c, s, xs), ys)
    decreases |ys|
  {
    hide Step, DeceivedBy, Run;
    if ys == [] {
      assert xs + ys == xs;
    } else {
      var front := ys[..|ys| - 1];
      assert (xs + ys)[..|xs + ys| - 1] == xs + front;
      DeceivedConcat(c, s, xs, front);
      RunConcat(c, s, xs, front);
    }
  }

  lemma {:induction false} ConsumerNeverDeceived(c: Config, s: State, actions: seq<Action>)
    requires ValidCapacity(c.layout, c.cap) && forall a :: a in actions ==> IsConsumerAction(a)
    ensures NeverDeceived(c, s, actions)
    decreases |actions|
  {
    if actions != [] {
      assert actions[|actions| - 1] in actions;
      ConsumerNeverDeceived(c, s, actions[..|actions| - 1]);
    }
  }

  /** A producer that pushes undisturbed plans and swaps with fresh positions. */
  lemma {:induction false} LoneNeverDeceived(c: Config, s: State, p: nat, data: seq<byte>, quiet: State,
      steps: seq<Action>)
    requires Inv(c, s) && ValidCapacity(c.layout, c.cap) && p in s.producers && PushingAlone(c, s, p, data, quiet)
    requires forall a :: a in steps ==> a == StepProducer(p)
    ensures NeverDeceived(c, s, steps)
    ensures var s' := Run(c, s, steps);
            Inv(c, s') && p in s'.producers && (PushingAlone(c, s', p, data, quiet) || s'.producers[p].Idle?)
    decreases |steps|
  {
    hide Inv, PushingAlone, Deceived, Step;
    if steps != [] {
      var front := steps[..|steps| - 1];
      assert steps[|steps| - 1] in steps && forall a :: a in front ==> a in steps;
      LoneNeverDeceived(c, s, p, data, quiet, front);
      var s1 := Run(c, s, front);
      StepKeeps(c, s1, StepProducer(p));
      LoneStep(c, s1, p, data, quiet);
    }
  }

  lemma LoneStep(c: Config, s: State, p: nat, data: seq<byte>, quiet: State)
    requires Inv(c, s) && ValidCapacity(c.layout, c.cap) && p in s.producers
    requires PushingAlone(c, s, p, data, quiet) || s.producers[p].Idle?
    ensures !Deceived(c, s, p)
    ensures var s' := Step(c, s, StepProducer(p));
            p in s'.producers && (PushingAlone(c, s', p, data, quiet) || s'.producers[p].Idle?)
  {
    hide Inv, FillStep, PlanPush;
    if !s.producers[p].Idle? { AloneProgress(c, s, p, data, quiet); }
  }

  /** Producer 0 is about to swap for the first record of the ring and sleeps; everything pushed was released. */
  ghost predicate Sleeping(c: Config, s: State) {
    && Inv(c, s) && NoneInFlight(s) && |s.records| == |s.delivered|
    && s.producers.Keys == {0, 1} && s.producers[0] == Reserve([[]], Plan(0, 0, c.layout.Word(), 0))
    && s.producers[1].Idle?
  }

  lemma QuietPositions(c: Config, s: State)
    requires Inv(c, s) && |s.records| == |s.delivered|
    ensures s.read == s.write == s.reserve && s.read % c.layout.Word() == 0
  {
  }

  /** An empty record takes one word, wherever it goes. */
  lemma EmptyClaim(c: Config, pos: nat)
    requires ValidCapacity(c.layout, c.cap) && pos % c.layout.Word() == 0
    ensures Claim(c, 0, pos) == c.layout.Word()
  {
    hide AlignUp, IsPow2;
    var w := c.layout.Word();
    var r := AlignUp(c.layout, w);
    if r > w { AlignedDifference(r, w, w); }
    CapacityFacts(c.layout, c.cap);
    ModMod(pos, c.cap, w);
    AlignedDifference(c.cap, pos % c.cap, w);
  }

  lemma EmptyPayload(c: Config)
    requires ValidCapacity(c.layout, c.cap)
    ensures Payload([[]]) == [] && 0 <= MaxRecordSize(c.layout, c.cap)
  {
    CapacityFacts(c.layout, c.cap);
    assert Flat([[]], 0) == [];
  }

  /** The producer's first steps in a fresh ring. */
  lemma SleepStarts(c: Config) returns (actions: seq<Action>)
    requires ValidCapacity(c.layout, c.cap)
    ensures NeverDeceived(c, Init(c, {0, 1}), actions)
    ensures var s := Run(c, Init(c, {0, 1}), actions); Sleeping(c, s) && s.read == 0
  {
    hide Inv, IsPow2;
    var slow := [StartPush(0, [[]]), StepProducer(0)];
    var s := SlowStart(c);
    EmptyPayload(c);
    EmptyClaim(c, 0);
    EmptyRingAcceptsMaxRecord(c.layout, c.cap, 0, 0);
    RunConcat(c, Init(c, {0, 1}), slow, [StepProducer(0)]);
    RunOne(c, s, StepProducer(0));
    actions := slow + [StepProducer(0)];
    RunKeeps(c, {0, 1}, actions);
    StartNotDeceived(c, s);
  }

  lemma StartNotDeceived(c: Config, s: State)
    requires ValidCapacity(c.layout, c.cap)
    requires s == Run(c, Init(c, {0, 1}), [StartPush(0, [[]]), StepProducer(0)])
    requires 0 in s.producers && s.producers[0] == LoadRead([[]], 0) && s.read == 0
    ensures NeverDeceived(c, Init(c, {0, 1}), [StartPush(0, [[]]), StepProducer(0)] + [StepProducer(0)])
  {
    var s0, a, b := Init(c, {0, 1}), StartPush(0, [[]]), StepProducer(0);
    DeceivedConcat(c, s0, [a, b], [b]);
    DeceivedConcat(c, s0, [a], [b]);
    assert [a] + [b] == [a, b];
    RunOne(c, s0, a);
  }

  /** Producer 1 pushes an empty record into the empty ring and the consumer drains it: a lap of one word. */
  lemma OneLap(c: Config, s: State) returns (actions: seq<Action>)
    requires Sleeping(c, s) && ValidCapacity(c.layout, c.cap)
    ensures NeverDeceived(c, s, actions)
    ensures var s' := Run(c, s, actions); Sleeping(c, s') && s'.read == s.read + c.layout.Word()
  {
    hide Inv, PushingAlone, PushedNext, Claim, NeverDeceived, Step;
    QuietPositions(c, s);
    EmptyPayload(c);
    var push, drain := PushThenDrain(c, s, 1, [[]]);
    var start := [StartPush(1, [[]])];
    actions := start + push + drain;
    LapNeverDeceived(c, s, push, drain);
    LapLength(c, s, Run(c, s, actions));
  }

  lemma LapNeverDeceived(c: Config, s: State, push: seq<Action>, drain: seq<Action>)
    requires Inv(c, s) && ValidCapacity(c.layout, c.cap) && 1 in s.producers
    requires PushingAlone(c, Step(c, s, StartPush(1, [[]])), 1, Payload([[]]), s)
    requires forall a :: a in push ==> a == StepProducer(1)
    requires forall a :: a in drain ==> IsConsumerAction(a)
    ensures NeverDeceived(c, s, [StartPush(1, [[]])] + push + drain)
  {
    hide Inv, PushingAlone, Step;
    var start, s1 := [StartPush(1, [[]])], Step(c, s, StartPush(1, [[]]));
    StepKeeps(c, s, start[0]);
    RunOne(c, s, start[0]);
    KeepsProducers(c, s, start[0]);
    LoneNeverDeceived(c, s1, 1, Payload([[]]), s, push);
    ConsumerNeverDeceived(c, Run(c, s, start + push), drain);
    DeceivedConcat(c, s, start, push);
    DeceivedConcat(c, s, start + push, drain);
  }

  lemma KeepsProducers(c: Config, s: State, a: Action)
    requires ValidCapacity(c.layout, c.cap) && a.StartPush?
    ensures Step(c, s, a).producers.Keys == s.producers.Keys
  {
  }

  lemma LapLength(c: Config, s: State, s': State)
    requires Inv(c, s) && Inv(c, s') && |s.records| == |s.delivered| && |s'.records| == |s'.delivered|
    requires ValidCapacity(c.layout, c.cap) && PushedNext(c, s', [], s)
    ensures s'.read == s.read + c.layout.Word()
  {
    hide Inv, Claim;
    QuietPositions(c, s);
    QuietPositions(c, s');
    EmptyClaim(c, s.reserve);
    LastRecordEnds(c, s');
  }

  lemma LastRecordEnds(c: Config, s: State)
    requires Inv(c, s) && s.records != []
    ensures s.reserve == s.records[|s.records| - 1].plan.End()
  {
    hide Memory, ProducerOk, Owners, ConsumerOk, IsPow2;
  }

  /** Laps until only one word is left of the full wrap. */
  lemma {:induction false} Laps(c: Config, s: State) returns (actions: seq<Action>)
    requires Sleeping(c, s) && ValidCapacity(c.layout, c.cap) && s.read < c.layout.SizeMod()
    ensures NeverDeceived(c, s, actions)
    ensures var s' := Run(c, s, actions); Sleeping(c, s') && s'.read == c.layout.SizeMod() - c.layout.Word()
    decreases c.layout.SizeMod() - s.read
  {
    hide Inv, NeverDeceived, Step;
    var m, w := c.layout.SizeMod(), c.layout.Word();
    QuietPositions(c, s);
    WordsFitWrap(c.layout, s.read);
    if s.read == m - w {
      actions := [];
      ConsumerNeverDeceived(c, s, []);
    } else {
      var one := OneLap(c, s);
      var rest := Laps(c, Run(c, s, one));
      actions := one + rest;
      RunConcat(c, s, one, rest);
      DeceivedConcat(c, s, one, rest);
    }
  }

  lemma WordsFitWrap(l: Layout, pos: nat)
    requires pos % l.Word() == 0 && pos < l.SizeMod()
    ensures pos <= l.SizeMod() - l.Word()
  {
    match l { case Bits64 => case Bits32 => }
  }

  /** The steps of a lone producer before its swap. */
  lemma AdvancesAlone(c: Config, s: State, p: nat, data: seq<byte>, quiet: State)
    requires Inv(c, s) && ValidCapacity(c.layout, c.cap) && PushingAlone(c, s, p, data, quiet)
    requires s.producers[p].LoadWrite? || s.producers[p].LoadRead?
    ensures var s' := Step(c, s, StepProducer(p));
            && Inv(c, s') && p in s'.producers && s'.producers == s.producers[p := s'.producers[p]]
            && PushingAlone(c, s', p, data, quiet)
            && (if s.producers[p].LoadWrite? then s'.producers[p].LoadRead? else s'.producers[p].Reserve?)
  {
    hide Inv, FillStep, PlanPush, Payload;
    StepKeeps(c, s, StepProducer(p));
    OnlyOwnState(c, s, p);
    AloneProgress(c, s, p, data, quiet);
  }

  /** Its swap wins and reserves up to the end of its record. */
  lemma WinsAlone(c: Config, s: State, p: nat, data: seq<byte>, quiet: State)
    requires Inv(c, s) && ValidCapacity(c.layout, c.cap) && PushingAlone(c, s, p, data, quiet)
    requires s.producers[p].Reserve?
    ensures var s' := Step(c, s, StepProducer(p));
            && Inv(c, s') && s'.producers.Keys == s.producers.Keys && Unpublished(s', p)
            && (forall q :: q in s.producers && q != p ==> s'.producers[q] == s.producers[q])
            && s'.reserve == quiet.reserve + Claim(c, |data|, quiet.reserve)
  {
    hide Inv, FillStep, PlanPush, Payload, Claim;
    StepKeeps(c, s, StepProducer(p));
  }

  /** Producer 1 wins its swap for the last word of the wrap and has not stored the write position yet. */
  lemma LastSwap(c: Config, s: State) returns (actions: seq<Action>)
    requires Sleeping(c, s) && ValidCapacity(c.layout, c.cap)
    ensures NeverDeceived(c, s, actions)
    ensures var s' := Run(c, s, actions);
            && Inv(c, s') && 0 in s'.producers && s'.producers[0] == s.producers[0] && Unpublished(s', 1)
            && s'.reserve == s.read + c.layout.Word()
  {
    hide Inv, NeverDeceived, PushingAlone, Step, Claim, Payload, Unpublished;
    QuietPositions(c, s);
    EmptyPayload(c);
    EmptyClaim(c, s.read);
    StartsAlone(c, s, 1, [[]]);
    var start, step := StartPush(1, [[]]), StepProducer(1);
    var s1 := Step(c, s, start);
    StepKeeps(c, s, start);
    StartsLoading(c, s);
    var s2 := Step(c, s1, step);
    AdvancesAlone(c, s1, 1, Payload([[]]), s);
    var s3 := Step(c, s2, step);
    AdvancesAlone(c, s2, 1, Payload([[]]), s);
    WinsAlone(c, s3, 1, Payload([[]]), s);
    LapNeverDeceived(c, s, [step, step, step], []);
    assert [start] + [step, step, step] + [] == [start, step, step, step];
    actions := [start, step, step, step];
    FourSteps(c, s, start, step);
  }

  lemma StartsLoading(c: Config, s: State)
    requires ValidCapacity(c.layout, c.cap) && 1 in s.producers && s.producers[1].Idle?
    requires |Payload([[]])| <= MaxRecordSize(c.layout, c.cap)
    ensures var s' := Step(c, s, StartPush(1, [[]])); 1 in s'.producers && s'.producers[1].LoadWrite?
  {
    hide Payload;
  }

  lemma FourSteps(c: Config, s: State, a: Action, b: Action)
    requires ValidCapacity(c.layout, c.cap)
    ensures Run(c, s, [a, b, b, b]) == Step(c, Step(c, Step(c, Step(c, s, a), b), b), b)
  {
    hide Step;
    RunOne(c, s, a);
    RunMore(c, s, [a], b);
    RunMore(c, s, [a] + [b], b);
    RunMore(c, s, [a] + [b] + [b], b);
    assert [a] + [b] + [b] + [b] == [a, b, b, b];
  }

  lemma {:induction false} RunMore(c: Config, s: State, actions: seq<Action>, a: Action)
    requires ValidCapacity(c.layout, c.cap)
    ensures Run(c, s, actions + [a]) == Step(c, Run(c, s, actions), a)
  {
    assert (actions + [a])[..|actions|] == actions;
  }

  /** A run without a deceived producer is its own run of positions. */
  lemma {:induction false} UndeceivedFollows(c: Config, s: State, actions: seq<Action>)
    requires ValidCapacity(c.layout, c.cap) && NeverDeceived(c, s, actions)
    ensures NeverHarmful(c, s, actions) && FollowRun(c, s, actions) == Run(c, s, actions)
    decreases |actions|
  {
    hide DeceivedBy, Step;
    if actions != [] { UndeceivedFollows(c, s, actions[..|actions| - 1]); }
  }

  /**
   A reachable harmful swap, for every capacity: producer 0 sleeps between planning its first record and its swap
   while producer 1 pushes through a full wrap, up to winning its swap for the last word. Producer 0 then wins too,
   and both stand between swap and publication.
   */
  lemma LappedSwapBreaksRing(c: Config)
    requires ValidCapacity(c.layout, c.cap)
    ensures exists actions :: NeverHarmful(c, Init(c, {0, 1}), actions)
              && var w := WordRun(c, Init(c, {0, 1}), actions + [StepProducer(0)]);
                 Unpublished(w, 0) && Unpublished(w, 1) && !Sound(c, w)
  {
    hide Inv, Init, Step, WordStep, Run, WordRun, NeverDeceived, Wrapped, Unpublished;
    var s0 := Init(c, {0, 1});
    var slow := SleepStarts(c);
    var laps := Laps(c, Run(c, s0, slow));
    RunConcat(c, s0, slow, laps);
    var last := LastSwap(c, Run(c, s0, slow + laps));
    RunConcat(c, s0, slow + laps, last);
    DeceivedConcat(c, s0, slow, laps);
    DeceivedConcat(c, s0, slow + laps, last);
    var actions := slow + laps + last;
    UndeceivedFollows(c, s0, actions);
    RunsOnWords(c, {0, 1}, actions);
    WordRunMore(c, s0, actions, StepProducer(0));
    LateSwap(c, Run(c, s0, actions));
  }

  lemma {:induction false} WordRunMore(c: Config, w: State, actions: seq<Action>, a: Action)
    requires ValidCapacity(c.layout, c.cap)
    ensures WordRun(c, w, actions + [a]) == WordStep(c, WordRun(c, w, actions), a)
  {
    assert (actions + [a])[..|actions|] == actions;
  }

  lemma LateSwap(c: Config, s: State)
    requires Inv(c, s) && ValidCapacity(c.layout, c.cap) && 0 in s.producers && Unpublished(s, 1)
    requires s.producers[0] == Reserve([[]], Plan(0, 0, c.layout.Word(), 0)) && s.reserve == c.layout.SizeMod()
    ensures var w := WordStep(c, Wrapped(c.layout, s), StepProducer(0));
            Unpublished(w, 0) && Unpublished(w, 1) && !Sound(c, w)
  {
    hide Inv, Wrapped, WordProducerStep, Payload, Wrap, FillStep;
    var t := ProducerStep(c, Rebased(s, 0), 0);
    ModUnique(c.layout.SizeMod(), c.layout.SizeMod(), 1, 0);
    UnpublishedBehind(c, s);
    WrappedMember(c.layout, s.producers, 0);
    StaleSwapWins(c, s, 0);
    UnpublishedOnWords(c.layout, t, 0);
    UnpublishedOnWords(c.layout, t, 1);
    WordStepKeeps(c, s, StepProducer(0));
  }

  lemma UnpublishedBehind(c: Config, s: State)
    requires Inv(c, s) && Unpublished(s, 1)
    ensures s.write != s.reserve
  {
    hide Memory, ConsumerOk, Owners, Payload, IsPow2;
    assert ProducerOk(c, s, 1);
  }
}
