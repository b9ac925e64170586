/** What a push and an acquire answer, and what their answers mean for the history of the ring. */
module RecordRingOutcome {
  import opened RecordWords
  import opened RecordFormat
  import opened RecordRing
  import opened RecordRingInvariant
  import opened RecordRingSteps
  import opened RecordRingTheorems

  // ---- the records of one push ----

  /** No record of p joined the history from place n on. */
  ghost predicate NoneJoined(s: State, n: nat, p: nat) {
    forall i :: n <= i < |s.records| ==> s.records[i].owner != p
  }

  /** One record of p joined the history from place n on; it carries this payload and is committed. */
  ghost predicate OneJoined(s: State, n: nat, p: nat, data: seq<byte>) {
    exists i :: n <= i < |s.records| && JoinedAt(s, n, p, i) && s.records[i].data == data && s.records[i].done
  }

  /** The record at place i is the one record of p from place n on. */
  ghost predicate JoinedAt(s: State, n: nat, p: nat, i: nat) {
    && n <= i < |s.records| && s.records[i].owner == p
    && forall j :: n <= j < |s.records| && s.records[j].owner == p ==> j == i
  }

  predicate IsIdle(s: State, p: nat) { p in s.producers && s.producers[p].Idle? }

  predicate IsBusy(s: State, p: nat) { p in s.producers && !s.producers[p].Idle? }

  /** No part at all counts as one empty part. */
  function Given(parts: seq<seq<byte>>): seq<seq<byte>> { if parts == [] then [[]] else parts }

  /** Producer p is in the push of these parts that it started when the history had n records. */
  ghost predicate Outstanding(s: State, p: nat, parts: seq<seq<byte>>, n: nat) {
    && IsBusy(s, p) && n <= |s.records|
    && match s.producers[p]
       case LoadWrite(ps) => ps == Given(parts) && NoneJoined(s, n, p)
       case LoadRead(ps, _) => ps == Given(parts) && NoneJoined(s, n, p)
       case Reserve(ps, _) => ps == Given(parts) && NoneJoined(s, n, p)
       case Filling(ps, _, idx, _) => ps == Given(parts) && JoinedAt(s, n, p, idx)
       case _ => false
  }

  /** The planning step finds no room between the loaded pair of positions. */
  predicate Refused(c: Config, s: State, p: nat, parts: seq<seq<byte>>)
    requires c.cap > 0
  {
    && p in s.producers && s.producers[p].LoadRead?
    && var w := s.producers[p].writePos;
       w < s.read || w + Claim(c, |Payload(parts)|, w) > s.read + c.cap
  }

  /** The answers a push may end with once its arguments were accepted. */
  ghost predicate Answered(c: Config, s: State, a: Action, s': State, p: nat, parts: seq<seq<byte>>, n: nat)
    requires c.cap > 0
  {
    && IsIdle(s', p)
    && match s'.producers[p].last
       case Ok => OneJoined(s', n, p, Payload(parts))
       case QueueFull => NoneJoined(s', n, p) && a == StepProducer(p) && Refused(c, s, p, parts)
       case _ => false
  }

  // ---- what a step does to the records ----

  /** Records keep their owner and payload; a new one belongs to the producer that moved. */
  lemma OwnersStay(c: Config, s: State, a: Action)
    requires Inv(c, s) && ValidCapacity(c.layout, c.cap)
    ensures var s' := Step(c, s, a);
            && |s.records| <= |s'.records| <= |s.records| + 1
            && (forall i :: 0 <= i < |s.records| ==>
                  s'.records[i].owner == s.records[i].owner && s'.records[i].data == s.records[i].data
                  && (s.records[i].done ==> s'.records[i].done))
            && (|s'.records| > |s.records| ==>
                  && a.StepProducer? && s'.records[|s.records|].owner == a.p
                  && a.p in s.producers && s.producers[a.p].Reserve?)
  {
    hide Inv, PutHeader, StorePart, PlanPush, HeaderAt, MetaIsValid, MetaIsFake, PayloadSize;
    InvParts(c, s);
  }

  predicate ActsFor(a: Action, p: nat) {
    (a.StartPush? && a.p == p) || (a.StepProducer? && a.p == p) || (a.FailSwap? && a.p == p)
  }

  lemma OthersLeaveAlone(c: Config, s: State, a: Action, p: nat)
    requires ValidCapacity(c.layout, c.cap) && p in s.producers && !ActsFor(a, p)
    ensures p in Step(c, s, a).producers && Step(c, s, a).producers[p] == s.producers[p]
  {
    hide PutHeader, StorePart, PlanPush, HeaderAt, MetaIsValid, MetaIsFake, PayloadSize;
  }

  lemma OtherStepsKeep(c: Config, s: State, a: Action, p: nat, parts: seq<seq<byte>>, n: nat)
    requires Inv(c, s) && ValidCapacity(c.layout, c.cap) && Outstanding(s, p, parts, n) && !ActsFor(a, p)
    ensures Outstanding(Step(c, s, a), p, parts, n)
  {
    hide Inv, Step;
    OwnersStay(c, s, a);
    OthersLeaveAlone(c, s, a, p);
  }

  lemma PlanningAnswers(c: Config, s: State, p: nat, parts: seq<seq<byte>>, n: nat)
    requires Inv(c, s) && ValidCapacity(c.layout, c.cap) && Outstanding(s, p, parts, n)
    requires s.producers[p].LoadWrite? || s.producers[p].LoadRead?
    ensures var s' := Step(c, s, StepProducer(p));
            Outstanding(s', p, parts, n) || Answered(c, s, StepProducer(p), s', p, parts, n)
  {
    hide Inv, PlanPush, Payload, FillStep, Claim;
    GivenPayload(parts);
    if s.producers[p].LoadRead? { QueueFullExactly(c, s, p); }
  }

  lemma GivenPayload(parts: seq<seq<byte>>)
    ensures Payload(Given(parts)) == Payload(parts)
  {
    if parts == [] { assert Flat([[]], 0) == []; }
  }

  /** A swap adds one record of this push, or the push plans again. */
  lemma SwapAnswers(c: Config, s: State, p: nat, parts: seq<seq<byte>>, n: nat)
    requires Inv(c, s) && ValidCapacity(c.layout, c.cap) && Outstanding(s, p, parts, n) && s.producers[p].Reserve?
    ensures Outstanding(Step(c, s, StepProducer(p)), p, parts, n)
  {
    hide Inv, PlanPush, Payload, FillStep;
    OwnersStay(c, s, StepProducer(p));
  }

  lemma FillAnswers(c: Config, s: State, p: nat, parts: seq<seq<byte>>, n: nat)
    requires Inv(c, s) && ValidCapacity(c.layout, c.cap) && Outstanding(s, p, parts, n) && s.producers[p].Filling?
    ensures var s' := Step(c, s, StepProducer(p));
            Outstanding(s', p, parts, n) || Answered(c, s, StepProducer(p), s', p, parts, n)
  {
    hide Inv, PutHeader, StorePart, PlanPush, Payload, FillingMemory, RecordMemory, PlanFits;
    OwnersStay(c, s, StepProducer(p));
    FillingFacts(c, s, p);
    GivenPayload(parts);
    var idx, s' := s.producers[p].idx, Step(c, s, StepProducer(p));
    if IsIdle(s', p) { assert JoinedAt(s', n, p, idx) && s'.records[idx].done; }
  }

  lemma PushStepAnswers(c: Config, s: State, a: Action, p: nat, parts: seq<seq<byte>>, n: nat)
    requires Inv(c, s) && ValidCapacity(c.layout, c.cap) && Outstanding(s, p, parts, n)
    ensures var s' := Step(c, s, a); Outstanding(s', p, parts, n) || Answered(c, s, a, s', p, parts, n)
  {
    hide Inv, ProducerStep, ConsumerStep, PlanPush, Payload;
    if !ActsFor(a, p) {
      OtherStepsKeep(c, s, a, p, parts, n);
    } else if a.StepProducer? {
      match s.producers[p] {
        case LoadWrite(_) => PlanningAnswers(c, s, p, parts, n);
        case LoadRead(_, _) => PlanningAnswers(c, s, p, parts, n);
        case Reserve(_, _) => SwapAnswers(c, s, p, parts, n);
        case Filling(_, _, _, _) => FillAnswers(c, s, p, parts, n);
      }
    }
  }

  // ---- pushes in runs ----

  /** Producer p is busy in every state that the actions lead through. */
  ghost predicate BusyThrough(c: Config, s: State, p: nat, actions: seq<Action>)
    requires ValidCapacity(c.layout, c.cap)
    decreases |actions|
  {
    IsBusy(Run(c, s, actions), p) && (actions != [] ==> BusyThrough(c, s, p, actions[..|actions| - 1]))
  }

  /** The actions lead to the first state, this one included, in which producer p is idle again. */
  ghost predicate FirstReturn(c: Config, s: State, p: nat, actions: seq<Action>)
    requires ValidCapacity(c.layout, c.cap)
  {
    IsIdle(Run(c, s, actions), p) && (actions != [] ==> BusyThrough(c, s, p, actions[..|actions| - 1]))
  }

  lemma StartAnswers(c: Config, s: State, p: nat, parts: seq<seq<byte>>)
    requires Inv(c, s) && ValidCapacity(c.layout, c.cap) && IsIdle(s, p)
    ensures var s' := Step(c, s, StartPush(p, parts));
            && s'.records == s.records
            && if |Payload(parts)| > MaxRecordSize(c.layout, c.cap)
               then p in s'.producers && s'.producers[p] == Idle(Invalid)
               else Outstanding(s', p, parts, |s.records|)
  {
    hide Inv, Payload;
    GivenPayload(parts);
  }

  lemma {:induction false} StaysOutstanding(c: Config, s: State, p: nat, parts: seq<seq<byte>>, n: nat,
      actions: seq<Action>)
    requires Inv(c, s) && ValidCapacity(c.layout, c.cap) && Outstanding(s, p, parts, n)
    requires BusyThrough(c, s, p, actions)
    ensures Inv(c, Run(c, s, actions)) && Outstanding(Run(c, s, actions), p, parts, n)
    decreases |actions|
  {
    hide Inv, Step, Outstanding, Payload;
    if actions != [] {
      var k := |actions| - 1;
      StaysOutstanding(c, s, p, parts, n, actions[..k]);
      StepKeeps(c, Run(c, s, actions[..k]), actions[k]);
      PushStepAnswers(c, Run(c, s, actions[..k]), actions[k], p, parts, n);
    }
  }

  /**
   What a push answers, in every run: from its start on an idle producer to the first state in which the producer is
   idle again, NS_OK comes if and only if exactly one record of it, with its payload, joined the history and is
   committed; QUEUE_FULL or INVALID if and only if none joined. INVALID comes exactly for a payload above the maximum,
   and QUEUE_FULL only from a planning step that found no room. A push without parts is one of an empty payload.
   */
  lemma PushAnswers(c: Config, pids: set<nat>, before: seq<Action>, p: nat, parts: seq<seq<byte>>, during: seq<Action>)
    requires ValidCapacity(c.layout, c.cap) && IsIdle(Run(c, Init(c, pids), before), p)
    requires FirstReturn(c, Step(c, Run(c, Init(c, pids), before), StartPush(p, parts)), p, during)
    ensures var s := Run(c, Init(c, pids), before);
            var s' := Run(c, Step(c, s, StartPush(p, parts)), during);
            var answer := s'.producers[p].last;
            && (answer == Ok <==> OneJoined(s', |s.records|, p, Payload(parts)))
            && (answer == QueueFull || answer == Invalid <==> NoneJoined(s', |s.records|, p))
            && (answer == Invalid <==> |Payload(parts)| > MaxRecordSize(c.layout, c.cap))
            && (answer == QueueFull ==>
                  && during != [] && during[|during| - 1] == StepProducer(p)
                  && Refused(c, Run(c, Step(c, s, StartPush(p, parts)), during[..|during| - 1]), p, parts))
  {
    hide Inv, Init, Step, Payload, Outstanding, Refused;
    var s := Run(c, Init(c, pids), before);
    var s1 := Step(c, s, StartPush(p, parts));
    RunKeeps(c, pids, before);
    StepKeeps(c, s, StartPush(p, parts));
    StartAnswers(c, s, p, parts);
    if |Payload(parts)| > MaxRecordSize(c.layout, c.cap) {
      ReturnsAtOnce(c, s1, p, during);
    } else {
      OutstandingIsBusy(s1, p, parts, |s.records|);
      var k := |during| - 1;
      StaysOutstanding(c, s1, p, parts, |s.records|, during[..k]);
      PushStepAnswers(c, Run(c, s1, during[..k]), during[k], p, parts, |s.records|);
      OutstandingIsBusy(Run(c, s1, during), p, parts, |s.records|);
    }
  }

  lemma OutstandingIsBusy(s: State, p: nat, parts: seq<seq<byte>>, n: nat)
    ensures Outstanding(s, p, parts, n) ==> IsBusy(s, p)
  {
  }

  /** An idle producer has returned already. */
  lemma {:induction false} ReturnsAtOnce(c: Config, s: State, p: nat, actions: seq<Action>)
    requires ValidCapacity(c.layout, c.cap) && IsIdle(s, p) && FirstReturn(c, s, p, actions)
    ensures actions == []
  {
    if actions != [] { BusyFromStart(c, s, p, actions[..|actions| - 1]); }
  }

  lemma {:induction false} BusyFromStart(c: Config, s: State, p: nat, actions: seq<Action>)
    requires ValidCapacity(c.layout, c.cap) && BusyThrough(c, s, p, actions)
    ensures IsBusy(s, p)
    decreases |actions|
  {
    if actions != [] { BusyFromStart(c, s, p, actions[..|actions| - 1]); }
  }

  // ---- a push whose competitors rest ----

  /** No other producer stands between its swap and its publication. */
  ghost predicate OthersPublished(s: State, p: nat) { forall q :: Unpublished(s, q) ==> q == p }

  /** The answer that a push will end with when nobody else moves any more. */
  function Decided(c: Config, s: State, p: nat): Status
    requires c.cap > 0 && IsBusy(s, p)
  {
    match s.producers[p]
    case LoadWrite(parts) => if Room(c, s, |Payload(parts)|) then Ok else QueueFull
    case LoadRead(parts, w) => if w >= s.read && Room(c, s, |Payload(parts)|) then Ok else QueueFull
    case Reserve(parts, plan) =>
      if plan.start == s.reserve || Room(c, s, |Payload(parts)|) then Ok else QueueFull
    case _ => Ok
  }

  /** Steps of producer p left until its push returns, when nobody else moves: a stale position costs one more round. */
  ghost function StepsLeft(s: State, p: nat): nat
    requires p in s.producers
  {
    match s.producers[p]
    case LoadRead(parts, w) => |parts| + if w == s.write then 7 else 10
    case Reserve(parts, plan) => |parts| + if plan.start == s.reserve then 6 else 9
    case _ => StepsToReturn(s, p)
  }

  /** What a lone step leads to: the decided answer, or fewer steps to the same answer. */
  ghost predicate Nearer(c: Config, s: State, s': State, p: nat)
    requires c.cap > 0 && IsBusy(s, p)
  {
    if IsIdle(s', p) then s'.producers[p] == Idle(Decided(c, s, p))
    else IsBusy(s', p) && Decided(c, s', p) == Decided(c, s, p) && StepsLeft(s', p) < StepsLeft(s, p)
  }

  lemma NobodyBetween(c: Config, s: State, p: nat)
    requires Inv(c, s) && OthersPublished(s, p) && p in s.producers && !s.producers[p].Filling?
    ensures s.write == s.reserve
  {
    hide Inv;
    if s.write != s.reserve { var q := SomebodyUnpublished(c, s); }
  }

  lemma LoadsNearer(c: Config, s: State, p: nat)
    requires Inv(c, s) && ValidCapacity(c.layout, c.cap) && IsBusy(s, p) && OthersPublished(s, p)
    requires s.producers[p].LoadWrite? || s.producers[p].LoadRead?
    ensures Nearer(c, s, ProducerStep(c, s, p), p)
  {
    hide Inv, PlanPush, Payload, Claim, FillStep;
    NobodyBetween(c, s, p);
    if s.producers[p].LoadRead? {
      var LoadRead(parts, w) := s.producers[p];
      QueueFullExactly(c, s, p);
      LoadedFits(c, s, p);
      PlanStartsThere(c, |Payload(parts)|, w, s.read);
      ClaimGrows(c, |Payload(parts)|, w, s.write);
    } else {
      PositionsOf(c, s);
    }
  }

  lemma PositionsOf(c: Config, s: State)
    requires Inv(c, s)
    ensures s.read <= s.write <= s.reserve <= s.read + c.cap
  {
  }

  lemma LoadedFits(c: Config, s: State, p: nat)
    requires Inv(c, s) && p in s.producers && s.producers[p].LoadRead?
    ensures s.producers[p].writePos <= s.write
    ensures AlignUp(c.layout, c.layout.Word() + |Payload(s.producers[p].parts)|) <= c.cap
  {
    hide History, Memory, Owners, ConsumerOk, PlanFits, Payload;
    assert ProducerOk(c, s, p);
    EmptyRingAcceptsMaxRecord(c.layout, c.cap, |Payload(s.producers[p].parts)|, 0);
  }

  lemma PlanStartsThere(c: Config, size: nat, w: nat, read: nat)
    requires c.cap > 0
    ensures var plan := PlanPush(c.layout, c.cap, size, w, read); plan.Some? ==> plan.value.start == w
  {
  }

  lemma SwapsNearer(c: Config, s: State, p: nat)
    requires Inv(c, s) && ValidCapacity(c.layout, c.cap) && IsBusy(s, p) && OthersPublished(s, p)
    requires s.producers[p].Reserve?
    ensures Nearer(c, s, ProducerStep(c, s, p), p)
  {
    hide Inv, PlanPush, Payload, Claim, FillStep;
  }

  lemma FillsNearer(c: Config, s: State, p: nat)
    requires Inv(c, s) && ValidCapacity(c.layout, c.cap) && IsBusy(s, p) && OthersPublished(s, p)
    requires s.producers[p].Filling?
    ensures Nearer(c, s, ProducerStep(c, s, p), p)
  {
    hide PutHeader, StorePart, PlanPush, Payload, Claim, History, Memory, Owners, ConsumerOk, PlanFits;
    assert ProducerOk(c, s, p);
  }

  lemma OthersSame(s: State, s': State, p: nat, q: nat)
    requires p in s.producers && p in s'.producers && s'.producers == s.producers[p := s'.producers[p]]
    ensures q != p ==> (Unpublished(s', q) <==> Unpublished(s, q))
  {
  }

  lemma OthersStayPublished(c: Config, s: State, p: nat)
    requires Inv(c, s) && ValidCapacity(c.layout, c.cap) && p in s.producers && OthersPublished(s, p)
    ensures OthersPublished(Step(c, s, StepProducer(p)), p)
  {
    hide Inv, Step;
    OnlyOwnState(c, s, p);
    var s' := Step(c, s, StepProducer(p));
    forall q | Unpublished(s', q)
      ensures q == p
    {
      OthersSame(s, s', p, q);
    }
  }

  lemma LoneStepNearer(c: Config, s: State, p: nat)
    requires Inv(c, s) && ValidCapacity(c.layout, c.cap) && IsBusy(s, p) && OthersPublished(s, p)
    ensures Nearer(c, s, Step(c, s, StepProducer(p)), p) && OthersPublished(Step(c, s, StepProducer(p)), p)
  {
    hide Inv, ProducerStep, Nearer, Payload;
    OthersStayPublished(c, s, p);
    match s.producers[p] {
      case LoadWrite(_) => LoadsNearer(c, s, p);
      case LoadRead(_, _) => LoadsNearer(c, s, p);
      case Reserve(_, _) => SwapsNearer(c, s, p);
      case Filling(_, _, _, _) => FillsNearer(c, s, p);
    }
  }

  /**
   Once its competitors are published and rest, a push returns by its own steps, whatever it has lost before: NS_OK if
   it will swap at the end of the ring or there is room for its record, QUEUE_FULL otherwise.
   */
  lemma {:induction false} PushReturns(c: Config, s: State, p: nat) returns (steps: seq<Action>)
    requires Inv(c, s) && ValidCapacity(c.layout, c.cap) && IsBusy(s, p) && OthersPublished(s, p)
    ensures forall a :: a in steps ==> a == StepProducer(p)
    ensures var s' := Run(c, s, steps); IsIdle(s', p) && s'.producers[p] == Idle(Decided(c, s, p))
    decreases StepsLeft(s, p)
  {
    hide Inv, Step, Decided, OthersPublished, StepsLeft;
    var a := StepProducer(p);
    LoneStepNearer(c, s, p);
    StepKeeps(c, s, a);
    RunOne(c, s, a);
    var s1 := Step(c, s, a);
    if IsIdle(s1, p) {
      steps := [a];
    } else {
      var rest := PushReturns(c, s1, p);
      steps := [a] + rest;
      RunConcat(c, s, [a], rest);
    }
  }

  // ---- what an acquire answers ----

  predicate Acquires(s: State) {
    s.consumer.AcquireRead? || s.consumer.AcquireWrite? || s.consumer.AcquireHeader?
    || s.consumer.SkipClear? || s.consumer.SkipAdvance?
  }

  /** An acquire ends with NS_OK if and only if a record is on loan then, and with EMPTY if and only if none is. */
  lemma AcquireAnswers(c: Config, s: State)
    requires Inv(c, s) && ValidCapacity(c.layout, c.cap) && Acquires(s) && !Acquires(Step(c, s, StepConsumer))
    ensures var s' := Step(c, s, StepConsumer);
            && (s'.lastAcquire == Ok <==> s'.consumer.Loan?)
            && (s'.lastAcquire == Empty <==> s'.consumer.Ready?)
  {
    hide Inv, PutHeader, HeaderAt, MetaIsValid, MetaIsFake, MetaStride, PayloadSize;
    StepKeeps(c, s, StepConsumer);
    StatusesOf(c, Step(c, s, StepConsumer));
  }

  lemma StatusesOf(c: Config, s: State)
    requires Inv(c, s)
    ensures s.lastAcquire == Ok || s.lastAcquire == Empty
  {
  }
}
