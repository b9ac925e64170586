/** What the record ring promises over every run of any number of producers and one consumer. */
module RecordRingTheorems {
  import opened Arithmetic
  import opened RecordWords
  import opened RecordFormat
  import opened RecordRing
  import opened RecordRingInvariant
  import opened RecordRingSteps

  // ---- every reachable state ----

  lemma InitKeeps(c: Config, pids: set<nat>)
    requires ValidCapacity(c.layout, c.cap)
    ensures Inv(c, Init(c, pids))
  {
  }

  /** Safety over whole runs: any interleaving of any actions of any producers and the consumer. */
  lemma {:induction false} RunKeeps(c: Config, pids: set<nat>, actions: seq<Action>)
    requires ValidCapacity(c.layout, c.cap)
    ensures Inv(c, Run(c, Init(c, pids), actions))
    decreases |actions|
  {
    hide Inv, Step, Init;
    if actions == [] {
      InitKeeps(c, pids);
    } else {
      RunKeeps(c, pids, actions[..|actions| - 1]);
      StepKeeps(c, Run(c, Init(c, pids), actions[..|actions| - 1]), actions[|actions| - 1]);
    }
  }

  /** The pushed payloads in the order of the winning compare-and-swaps. */
  function Pushed(s: State): seq<seq<byte>> { seq(|s.records|, i requires 0 <= i < |s.records| => s.records[i].data) }

  /** First in, first out, nothing lost, doubled or torn: the consumer has seen a prefix of the pushed payloads. */
  lemma DeliveredIsPrefix(c: Config, pids: set<nat>, actions: seq<Action>)
    requires ValidCapacity(c.layout, c.cap)
    ensures var s := Run(c, Init(c, pids), actions); s.delivered <= Pushed(s)
  {
    RunKeeps(c, pids, actions);
    PrefixOf(c, Run(c, Init(c, pids), actions));
  }

  lemma PrefixOf(c: Config, s: State)
    requires Inv(c, s)
    ensures s.delivered <= Pushed(s)
  {
  }

  /** No acquire or release ever reports corruption or a damaged header, and the loaned record is always releasable. */
  lemma NeverCorrupt(c: Config, pids: set<nat>, actions: seq<Action>)
    requires ValidCapacity(c.layout, c.cap)
    ensures var s := Run(c, Init(c, pids), actions);
            && (s.lastAcquire == Ok || s.lastAcquire == Empty)
            && s.lastRelease == Ok
  {
    RunKeeps(c, pids, actions);
  }

  /** Producer p has won its compare-and-swap and not yet stored write_pos. */
  predicate Unpublished(s: State, p: nat) {
    p in s.producers && s.producers[p].Filling? && !s.producers[p].stage.CopyPart?
  }

  /** Between a swap and its publication there is a producer. */
  lemma SomebodyUnpublished(c: Config, s: State) returns (q: nat)
    requires Inv(c, s) && s.write != s.reserve
    ensures Unpublished(s, q)
  {
    hide Memory, ConsumerOk, PlanFits, Payload;
    q := s.records[|s.records| - 1].owner;
    assert ProducerOk(c, s, q);
  }

  lemma OneUnpublished(c: Config, s: State, p: nat, q: nat)
    requires Inv(c, s) && Unpublished(s, p) && Unpublished(s, q)
    ensures p == q
  {
    if p != q { LastRecordOwner(c, s, p, q); }
  }

  /** The positions stay ordered and at most one producer is between its reservation and its publication. */
  lemma PositionsOrdered(c: Config, pids: set<nat>, actions: seq<Action>)
    requires ValidCapacity(c.layout, c.cap)
    ensures var s := Run(c, Init(c, pids), actions);
            && s.read <= s.write <= s.reserve <= s.read + c.cap
            && forall p, q :: Unpublished(s, p) && Unpublished(s, q) ==> p == q
  {
    var s := Run(c, Init(c, pids), actions);
    RunKeeps(c, pids, actions);
    forall p, q | Unpublished(s, p) && Unpublished(s, q)
      ensures p == q
    {
      OneUnpublished(c, s, p, q);
    }
  }

  /** A loaned record stays intact under everything the producers do: it reads as the oldest unreleased payload. */
  lemma LoanIsIntact(c: Config, pids: set<nat>, actions: seq<Action>)
    requires ValidCapacity(c.layout, c.cap)
    requires Run(c, Init(c, pids), actions).consumer.Loan?
    ensures var s := Run(c, Init(c, pids), actions);
            && s.consumer.off + s.consumer.size <= |s.mem|
            && |s.delivered| < |s.records|
            && Load(s.mem, s.consumer.off, s.consumer.size) == Pushed(s)[|s.delivered|]
  {
    var s := Run(c, Init(c, pids), actions);
    RunKeeps(c, pids, actions);
    LoanIsRecord(c, s);
  }

  /** Two stretches of storage share no byte. */
  predicate NoOverlap(p: nat, n: nat, q: nat, m: nat) { p + n <= q || q + m <= p }

  /**
   Unreleased reservations, the one on loan included, never share a byte of storage: not their records, and not a
   record with a marker still unread.
   */
  lemma FillersAreDisjoint(c: Config, s: State, i: nat, j: nat)
    requires Inv(c, s) && |s.delivered| <= i < j < |s.records|
    ensures var a, b := s.records[i].plan, s.records[j].plan;
            var ra, rb := Offset(c, a.RecordPos()), Offset(c, b.RecordPos());
            && ra + a.total <= c.cap && rb + b.total <= c.cap
            && NoOverlap(ra, a.total, rb, b.total)
            && (b.fake != 0 ==> NoOverlap(ra, a.total, Offset(c, b.start), b.fake))
            && (a.fake != 0 && s.read <= a.start ==> b.fake == 0 && NoOverlap(Offset(c, a.start), a.fake, rb, b.total))
  {
    hide Inv, RecordMemory;
    UnreadWindow(c, s, i);
    UnreadWindow(c, s, j);
    RecordsApart(c, s, i, j);
    InvParts(c, s);
    var a, b := s.records[i].plan, s.records[j].plan;
    Apart(c.cap, a.RecordPos(), a.total, b.RecordPos(), b.total);
    if b.fake != 0 { Apart(c.cap, a.RecordPos(), a.total, b.start, b.fake); }
    if a.fake != 0 && s.read <= a.start {
      Apart(c.cap, a.start, a.fake, b.RecordPos(), b.total);
      if b.fake != 0 { ModWindow(a.RecordPos(), b.RecordPos(), c.cap); }
    }
  }

  /** Cell k lies in the marker that the producer is about to store, or in the record that it fills. */
  predicate OwnCell(c: Config, prod: Producer, k: nat)
    requires prod.Filling? && c.cap > 0
  {
    var plan := prod.plan;
    if prod.stage.PutMarker? then plan.fake != 0 && Offset(c, plan.start) <= k < Offset(c, plan.start) + plan.fake
    else Offset(c, plan.RecordPos()) <= k < Offset(c, plan.RecordPos()) + plan.total
  }

  /** Cell k of storage differs after the step. */
  predicate Changed(mem: seq<byte>, mem': seq<byte>, k: nat) { k < |mem| && k < |mem'| && mem'[k] != mem[k] }

  /** A producer's step changes only bytes of its own reservation: its marker while it stores it, then its record. */
  lemma WritesStayInside(c: Config, s: State, p: nat, k: nat)
    requires Inv(c, s) && ValidCapacity(c.layout, c.cap) && p in s.producers
    requires Changed(s.mem, Step(c, s, StepProducer(p)).mem, k)
    ensures s.producers[p].Filling? && OwnCell(c, s.producers[p], k)
  {
    hide Inv, PlanPush, Payload, PutHeader, StorePart;
    if s.producers[p].Filling? { FillStaysInside(c, s, p, k); }
  }

  lemma FillStaysInside(c: Config, s: State, p: nat, k: nat)
    requires Inv(c, s) && ValidCapacity(c.layout, c.cap) && p in s.producers && s.producers[p].Filling?
    requires Changed(s.mem, FillStep(c, s, p).mem, k)
    ensures OwnCell(c, s.producers[p], k)
  {
    hide Inv, PlanFits, RecordMemory, FillingMemory, Payload, Flat, EncodeMeta, PutHeader, StorePart, Offset;
    FillingFacts(c, s, p);
    var Filling(parts, plan, idx, stage) := s.producers[p];
    PlanSizes(c, |Payload(parts)|, plan);
    match stage {
      case PutMarker => HeaderStaysInside(c, s.mem, plan.start, MarkerMeta(c, plan), k);
      case ClearHeader => HeaderStaysInside(c, s.mem, plan.RecordPos(), 0, k);
      case PublishWrite =>
      case CopyPart(next) =>
        if next < |parts| { CopyStaysInside(c, s.mem, plan, parts, next, k); }
        else { HeaderStaysInside(c, s.mem, plan.RecordPos(), ValidMeta(c, plan), k); }
    }
  }

  lemma HeaderStaysInside(c: Config, mem: seq<byte>, pos: nat, meta: nat, k: nat)
    requires c.cap > 0 && k < |mem| && PutHeader(c, mem, pos, meta)[k] != mem[k]
    ensures Offset(c, pos) <= k < Offset(c, pos) + c.layout.Word()
  {
  }

  lemma CopyStaysInside(c: Config, mem: seq<byte>, plan: Plan, parts: seq<seq<byte>>, next: nat, k: nat)
    requires c.cap > 0 && k < |mem| && next < |parts| && plan.total >= c.layout.Word() + |Payload(parts)|
    requires PlanFits(c.layout, c.cap, |Payload(parts)|, plan)
    requires StorePart(c, mem, plan.RecordPos() + c.layout.Word(), |Flat(parts, next)|, parts[next])[k] != mem[k]
    ensures Offset(c, plan.RecordPos()) <= k < Offset(c, plan.RecordPos()) + plan.total
  {
    FlatPrefix(parts, next + 1);
    DataOffsetInside(c, plan.RecordPos());
  }

  /** Cell k belongs to the record of the plan, or to its marker when that is still ahead of the reader. */
  predicate CellOf(c: Config, plan: Plan, read: nat, k: nat)
    requires c.cap > 0
  {
    || Offset(c, plan.RecordPos()) <= k < Offset(c, plan.RecordPos()) + plan.total
    || (plan.fake != 0 && read <= plan.start && Offset(c, plan.start) <= k < Offset(c, plan.start) + plan.fake)
  }

  /** So it never touches another producer's unreleased record or unread marker, nor the record on loan. */
  lemma OthersUntouched(c: Config, s: State, p: nat, j: nat, k: nat)
    requires Inv(c, s) && ValidCapacity(c.layout, c.cap) && p in s.producers
    requires |s.delivered| <= j < |s.records| && (s.producers[p].Filling? ==> s.producers[p].idx != j)
    requires CellOf(c, s.records[j].plan, s.read, k)
    ensures !Changed(s.mem, Step(c, s, StepProducer(p)).mem, k)
  {
    hide Inv, Step, PlanFits, RecordMemory, FillingMemory, Payload, Offset;
    if Changed(s.mem, Step(c, s, StepProducer(p)).mem, k) {
      WritesStayInside(c, s, p, k);
      FillingFacts(c, s, p);
      var i := s.producers[p].idx;
      if i < j { FillersAreDisjoint(c, s, i, j); } else { FillersAreDisjoint(c, s, j, i); }
      assert false;
    }
  }

  /** The history only ever grows, by exactly the record of the winning compare-and-swap. */
  lemma HistoryGrowsByWinners(c: Config, s: State, a: Action)
    requires Inv(c, s)
    ensures var s' := Step(c, s, a);
            Pushed(s') == if a.StepProducer? && a.p in s.producers && s.producers[a.p].Reserve?
                             && s.producers[a.p].plan.start == s.reserve
                          then Pushed(s) + [Payload(s.producers[a.p].parts)]
                          else Pushed(s)
  {
    hide Inv, PutHeader, StorePart, PlanPush, HeaderAt, MetaIsValid, MetaIsFake, PayloadSize;
    InvParts(c, s);
    var s' := Step(c, s, a);
    if |s'.records| == |s.records| {
      assert forall i :: 0 <= i < |s.records| ==> s'.records[i].data == s.records[i].data;
    }
  }

  // ---- draining ----

  predicate IsConsumerAction(a: Action) { a.StartAcquire? || a.StartRelease? || a.StepConsumer? }

  function NextConsumerAction(s: State): Action {
    if s.consumer.Ready? then StartAcquire else if s.consumer.Loan? then StartRelease else StepConsumer
  }

  /** Consumer steps left until the head record is released; a marker ahead costs one more round. */
  ghost function StepsToRelease(s: State): nat
    requires |s.delivered| < |s.records|
  {
    var plan := s.records[|s.delivered|].plan;
    var round := if plan.fake != 0 && s.read == plan.start then 10 else 0;
    match s.consumer
    case Ready => 11 + round
    case AcquireRead => 10 + round
    case AcquireWrite(_) => 9 + round
    case AcquireHeader(_, _) => 8 + round
    case SkipClear(_, _) => 17
    case SkipAdvance(_, _) => 16
    case Loan(_, _) => 7
    case ReleaseRead(_, _) => 6
    case ReleaseWrite(_, _, _) => 5
    case ReleaseHeader(_, _, _, _) => 4
    case ReleaseClear(_, _, _) => 3
    case ReleaseAdvance(_, _, _) => 2
  }

  ghost predicate Progress(c: Config, s: State, s': State)
    requires |s.delivered| < |s.records|
  {
    && s'.records == s.records && s'.producers == s.producers
    && if s.consumer.ReleaseAdvance? then s'.delivered == s.delivered + [s.records[|s.delivered|].data]
       else s'.delivered == s.delivered && StepsToRelease(s') < StepsToRelease(s)
  }

  /** With its head record committed, every consumer step brings the release closer, whatever state it is in. */
  lemma ConsumerProgress(c: Config, s: State)
    requires Inv(c, s) && |s.delivered| < |s.records| && s.records[|s.delivered|].done
    ensures Progress(c, s, Step(c, s, NextConsumerAction(s)))
  {
    hide Inv, Step, Progress;
    InvParts(c, s);
    if s.consumer.Ready? || s.consumer.AcquireRead? || s.consumer.AcquireWrite? || s.consumer.AcquireHeader?
       || s.consumer.SkipClear? || s.consumer.SkipAdvance? {
      AcquireProgress(c, s);
    } else {
      ReleaseProgress(c, s);
    }
  }

  lemma AcquireProgress(c: Config, s: State)
    requires Inv(c, s) && |s.delivered| < |s.records| && s.records[|s.delivered|].done
    requires s.consumer.Ready? || s.consumer.AcquireRead? || s.consumer.AcquireWrite? || s.consumer.AcquireHeader?
             || s.consumer.SkipClear? || s.consumer.SkipAdvance?
    ensures Progress(c, s, Step(c, s, NextConsumerAction(s)))
  {
    hide PlanFits, ProducerOk, Memory, Owners, EncodeMeta, HeaderAt, PutHeader, IsPow2, Positions,
      MetaIsValid, MetaIsFake;
    match s.consumer {
      case AcquireWrite(_) => DoneUnread(c, s);
      case AcquireHeader(_, _) => HeadIsReadable(c, s);
      case SkipAdvance(_, _) => SkipReaches(c, s);
      case _ =>
    }
  }

  lemma ReleaseProgress(c: Config, s: State)
    requires Inv(c, s) && |s.delivered| < |s.records| && s.records[|s.delivered|].done
    requires s.consumer.Loan? || s.consumer.ReleaseRead? || s.consumer.ReleaseWrite? || s.consumer.ReleaseHeader?
             || s.consumer.ReleaseClear? || s.consumer.ReleaseAdvance?
    ensures Progress(c, s, Step(c, s, NextConsumerAction(s)))
  {
    hide PlanFits, ProducerOk, Memory, Owners, EncodeMeta, HeaderAt, PutHeader, IsPow2, Positions, History,
      MetaIsValid, MetaIsFake;
    match s.consumer {
      case Loan(_, _) => LoanIsRecord(c, s);
      case ReleaseWrite(_, _, _) => DoneUnread(c, s); DataOffsetFits(c, s);
      case ReleaseHeader(_, _, _, _) => HeadIsReadable(c, s);
      case _ =>
    }
  }

  lemma DataOffsetFits(c: Config, s: State)
    requires Inv(c, s) && |s.delivered| < |s.records|
    ensures DataOffset(c, s.records[|s.delivered|].plan) <= c.cap
  {
    hide ProducerOk, Memory, Owners, ConsumerOk;
  }

  lemma DoneUnread(c: Config, s: State)
    requires Inv(c, s) && |s.delivered| < |s.records| && s.records[|s.delivered|].done
    ensures s.read < s.write <= s.read + c.cap
  {
    hide ProducerOk, Memory, Owners;
    DonePublished(c, s);
  }

  lemma SkipReaches(c: Config, s: State)
    requires Inv(c, s) && s.consumer.SkipAdvance?
    ensures s.read + s.consumer.stride != s.records[|s.delivered|].plan.start
  {
  }

  lemma HeadIsReadable(c: Config, s: State)
    requires Inv(c, s) && |s.delivered| < |s.records| && s.records[|s.delivered|].done
    requires s.consumer.AcquireHeader? || s.consumer.ReleaseHeader?
    ensures var r := s.records[|s.delivered|]; var meta := HeaderAt(c, s.mem, s.read);
            && MetaIsValid(c.layout, meta)
            && 0 < MetaStride(c.layout, meta) <= s.consumer.used && MetaStride(c.layout, meta) <= c.cap
            && (MetaIsFake(c.layout, meta) <==> r.plan.fake != 0 && s.read == r.plan.start)
            && (!MetaIsFake(c.layout, meta) ==> PayloadSize(c.layout, meta) == Some(|r.data|))
  {
    hide ProducerOk, Memory, RecordMemory, Owners, EncodeMeta, FromBytes;
    var r := s.records[|s.delivered|];
    DonePublished(c, s);
    HeadHeader(c, s);
    HeaderWords(c, |r.data|, r.plan);
  }

  /** Consumer actions alone deliver the committed head record. */
  lemma {:induction false} DeliverHead(c: Config, s: State) returns (actions: seq<Action>)
    requires Inv(c, s) && |s.delivered| < |s.records| && s.records[|s.delivered|].done
    ensures forall a :: a in actions ==> IsConsumerAction(a)
    ensures ValidCapacity(c.layout, c.cap)
    ensures var s' := Run(c, s, actions);
            && Inv(c, s') && s'.records == s.records && s'.producers == s.producers
            && s'.delivered == s.delivered + [s.records[|s.delivered|].data]
    decreases StepsToRelease(s)
  {
    hide Inv, Step;
    InvParts(c, s);
    var a := NextConsumerAction(s);
    var s1 := Step(c, s, a);
    ConsumerProgress(c, s);
    StepKeeps(c, s, a);
    RunOne(c, s, a);
    if s.consumer.ReleaseAdvance? {
      actions := [a];
    } else {
      var rest := DeliverHead(c, s1);
      actions := [a] + rest;
      RunConcat(c, s, [a], rest);
    }
  }

  lemma RunOne(c: Config, s: State, a: Action)
    requires ValidCapacity(c.layout, c.cap)
    ensures Run(c, s, [a]) == Step(c, s, a)
  {
  }

  lemma {:induction false} RunConcat(c: Config, s: State, xs: seq<Action>, ys: seq<Action>)
    requires ValidCapacity(c.layout, c.cap)
    ensures Run(c, s, xs + ys) == Run(c, Run(c, s, xs), ys)
    decreases |ys|
  {
    hide Step;
    if ys == [] {
      assert xs + ys == xs;
    } else {
      var front := ys[..|ys| - 1];
      assert (xs + ys)[..|xs + ys| - 1] == xs + front;
      RunConcat(c, s, xs, front);
    }
  }

  /** No push is between its reservation and its commit. */
  predicate NoneInFlight(s: State) {
    forall p :: p in s.producers ==> !s.producers[p].Filling?
  }

  /** When no push is in flight, the consumer alone drains every record that was ever pushed. */
  lemma {:induction false} DrainDeliversAll(c: Config, s: State) returns (actions: seq<Action>)
    requires Inv(c, s) && NoneInFlight(s)
    ensures forall a :: a in actions ==> IsConsumerAction(a)
    ensures ValidCapacity(c.layout, c.cap)
    ensures var s' := Run(c, s, actions);
            s'.delivered == Pushed(s) && s'.records == s.records && s'.producers == s.producers && Inv(c, s')
    decreases |s.records| - |s.delivered|
  {
    hide Inv, Step;
    InvParts(c, s);
    PrefixOf(c, s);
    if |s.delivered| == |s.records| {
      actions := [];
    } else {
      AllDone(c, s, |s.delivered|);
      var one := DeliverHead(c, s);
      var rest := DrainDeliversAll(c, Run(c, s, one));
      actions := one + rest;
      RunConcat(c, s, one, rest);
    }
  }

  lemma AllDone(c: Config, s: State, i: nat)
    requires Inv(c, s) && NoneInFlight(s) && i < |s.records|
    ensures s.records[i].done
  {
    hide PlanFits, ProducerOk, Memory, ConsumerOk, Positions;
  }

  // ---- a producer on its own ----

  /** Steps of producer p left until its push returns, when nobody else moves. */
  ghost function StepsToReturn(s: State, p: nat): nat
    requires p in s.producers
  {
    match s.producers[p]
    case Idle(_) => 0
    case LoadWrite(parts) => |parts| + 8
    case LoadRead(parts, _) => |parts| + 7
    case Reserve(parts, _) => |parts| + 6
    case Filling(parts, _, _, stage) =>
      match stage
      case PutMarker => |parts| + 5
      case ClearHeader => |parts| + 4
      case PublishWrite => |parts| + 3
      case CopyPart(n) => if n <= |parts| then |parts| - n + 1 else 1
  }

  /** Producer p pushes `data` undisturbed into a ring that was empty in the state `quiet`, with nobody else filling. */
  ghost predicate PushingAlone(c: Config, s: State, p: nat, data: seq<byte>, quiet: State)
    requires ValidCapacity(c.layout, c.cap)
  {
    && p in s.producers
    && (forall q :: q in s.producers && q != p ==> !s.producers[q].Filling?)
    && |data| <= MaxRecordSize(c.layout, c.cap)
    && match s.producers[p]
       case Idle(st) => false
       case LoadWrite(parts) =>
         s.records == quiet.records && Payload(parts) == data && s.read == s.write == s.reserve == quiet.reserve
       case LoadRead(parts, w) =>
         s.records == quiet.records && Payload(parts) == data && s.read == s.write == s.reserve == w == quiet.reserve
       case Reserve(parts, plan) =>
         && s.records == quiet.records && Payload(parts) == data && s.read == s.reserve == plan.start == quiet.reserve
         && plan.End() == plan.start + Claim(c, |data|, plan.start)
       case Filling(parts, plan, idx, _) =>
         s.records == quiet.records + [RecordOf(plan, parts, p)] && idx == |quiet.records| && Payload(parts) == data
         && plan.start == quiet.reserve && plan.End() == plan.start + Claim(c, |data|, plan.start)
  }

  /** One record was pushed since the quiet state, with this payload and no longer, where the ring ended then. */
  predicate PushedNext(c: Config, s: State, data: seq<byte>, quiet: State)
    requires c.cap > 0
  {
    var n := |quiet.records|;
    && |s.records| == n + 1 && s.records[..n] == quiet.records && s.records[n].data == data
    && s.records[n].plan.start == quiet.reserve
    && s.records[n].plan.End() == quiet.reserve + Claim(c, |data|, quiet.reserve)
  }

  /** Where a step of the lone producer leads: its push has returned with its record pushed last, or is nearer to it. */
  ghost predicate AloneAfter(c: Config, s: State, s': State, p: nat, data: seq<byte>, quiet: State)
    requires ValidCapacity(c.layout, c.cap) && p in s.producers
  {
    && p in s'.producers
    && if s'.producers[p].Idle?
       then s'.producers[p] == Idle(Ok) && Pushed(s') == Pushed(s) && PushedNext(c, s', data, quiet) && NoneInFlight(s')
       else PushingAlone(c, s', p, data, quiet) && StepsToReturn(s', p) < StepsToReturn(s, p)
  }

  lemma AloneProgress(c: Config, s: State, p: nat, data: seq<byte>, quiet: State)
    requires Inv(c, s) && ValidCapacity(c.layout, c.cap) && PushingAlone(c, s, p, data, quiet)
    ensures AloneAfter(c, s, Step(c, s, StepProducer(p)), p, data, quiet)
  {
    hide Inv, ProducerStep, FillStep, AloneAfter, PlanFits;
    match s.producers[p] {
      case LoadWrite(_) => AlonePlans(c, s, p, data, quiet);
      case LoadRead(_, _) => AlonePlans(c, s, p, data, quiet);
      case Reserve(_, _) => AloneReserves(c, s, p, data, quiet);
      case Filling(_, _, _, _) => AloneFills(c, s, p, data, quiet);
    }
  }

  lemma AlonePlans(c: Config, s: State, p: nat, data: seq<byte>, quiet: State)
    requires Inv(c, s) && ValidCapacity(c.layout, c.cap) && PushingAlone(c, s, p, data, quiet)
    requires s.producers[p].LoadWrite? || s.producers[p].LoadRead?
    ensures AloneAfter(c, s, ProducerStep(c, s, p), p, data, quiet)
  {
    hide PlanFits, Memory, ConsumerOk, Owners, IsPow2, FillStep, History;
    assert ProducerOk(c, s, p);
    if s.producers[p].LoadRead? {
      EmptyRingAcceptsMaxRecord(c.layout, c.cap, |data|, s.write);
    }
  }

  lemma AloneReserves(c: Config, s: State, p: nat, data: seq<byte>, quiet: State)
    requires Inv(c, s) && ValidCapacity(c.layout, c.cap) && PushingAlone(c, s, p, data, quiet)
    requires s.producers[p].Reserve?
    ensures AloneAfter(c, s, ProducerStep(c, s, p), p, data, quiet)
  {
    hide PlanFits, IsPow2, FillStep, PlanPush, History, Memory, Owners, ConsumerOk;
    assert ProducerOk(c, s, p);
  }

  lemma AloneFills(c: Config, s: State, p: nat, data: seq<byte>, quiet: State)
    requires Inv(c, s) && ValidCapacity(c.layout, c.cap) && PushingAlone(c, s, p, data, quiet)
    requires s.producers[p].Filling?
    ensures AloneAfter(c, s, ProducerStep(c, s, p), p, data, quiet)
  {
    hide PlanFits, Memory, ConsumerOk, Owners, IsPow2, PutHeader, StorePart, History;
    assert ProducerOk(c, s, p);
  }

  lemma OnlyOwnState(c: Config, s: State, p: nat)
    requires Inv(c, s) && ValidCapacity(c.layout, c.cap) && p in s.producers
    ensures var s' := Step(c, s, StepProducer(p));
            p in s'.producers && s'.producers == s.producers[p := s'.producers[p]]
  {
    hide Inv, PutHeader, StorePart, PlanPush, Payload;
  }

  /** Any admitted record is accepted by an empty ring at every wrap offset when no other producer runs. */
  lemma {:induction false} PushAloneReturnsOk(c: Config, s: State, p: nat, data: seq<byte>, quiet: State)
      returns (steps: seq<Action>)
    requires Inv(c, s) && ValidCapacity(c.layout, c.cap) && p in s.producers && PushingAlone(c, s, p, data, quiet)
    ensures forall a :: a in steps ==> a == StepProducer(p)
    ensures var s' := Run(c, s, steps);
            && Inv(c, s') && NoneInFlight(s') && s'.producers == s.producers[p := Idle(Ok)]
            && PushedNext(c, s', data, quiet)
    decreases StepsToReturn(s, p)
  {
    hide Inv, Step, PushingAlone;
    var a := StepProducer(p);
    var s1 := Step(c, s, a);
    AloneProgress(c, s, p, data, quiet);
    OnlyOwnState(c, s, p);
    StepKeeps(c, s, a);
    RunOne(c, s, a);
    if s1.producers[p].Idle? {
      steps := [a];
    } else {
      var rest := PushAloneReturnsOk(c, s1, p, data, quiet);
      steps := [a] + rest;
      RunConcat(c, s, [a], rest);
    }
  }

  /**
   Round trip: what one producer pushes into an empty quiet ring, by its own steps, comes out as the next delivered
   record, by the consumer's.
   */
  lemma PushThenDrain(c: Config, s: State, p: nat, parts: seq<seq<byte>>)
      returns (push: seq<Action>, drain: seq<Action>)
    requires Inv(c, s) && NoneInFlight(s) && p in s.producers && s.producers[p].Idle?
    requires s.read == s.write && parts != []
    requires ValidCapacity(c.layout, c.cap) && |Payload(parts)| <= MaxRecordSize(c.layout, c.cap)
    ensures forall a :: a in push ==> a == StepProducer(p)
    ensures forall a :: a in drain ==> IsConsumerAction(a)
    ensures PushingAlone(c, Step(c, s, StartPush(p, parts)), p, Payload(parts), s)
    ensures var s' := Run(c, s, [StartPush(p, parts)] + push + drain);
            && s'.delivered == Pushed(s) + [Payload(parts)]
            && Inv(c, s') && |s'.records| == |s'.delivered| && s'.producers == s.producers[p := Idle(Ok)]
            && PushedNext(c, s', Payload(parts), s)
  {
    hide Inv, Step, RecordOf;
    var start := StartPush(p, parts);
    StepKeeps(c, s, start);
    RunOne(c, s, start);
    StartsAlone(c, s, p, parts);
    var s1 := Step(c, s, start);
    push := PushAloneReturnsOk(c, s1, p, Payload(parts), s);
    var s2 := Run(c, s1, push);
    assert s1.producers == s.producers[p := s1.producers[p]];
    drain := DrainDeliversAll(c, s2);
    RunConcat(c, s, [start], push);
    RunConcat(c, s, [start] + push, drain);
    assert Pushed(s2) == Pushed(s) + [Payload(parts)] by {
      assert forall i :: 0 <= i < |s.records| ==> s2.records[i] == s2.records[..|s.records|][i];
    }
  }

  lemma StartsAlone(c: Config, s: State, p: nat, parts: seq<seq<byte>>)
    requires Inv(c, s) && NoneInFlight(s) && p in s.producers && s.producers[p].Idle?
    requires s.read == s.write && parts != []
    requires ValidCapacity(c.layout, c.cap) && |Payload(parts)| <= MaxRecordSize(c.layout, c.cap)
    ensures PushingAlone(c, Step(c, s, StartPush(p, parts)), p, Payload(parts), s)
    ensures var s' := Step(c, s, StartPush(p, parts));
            p in s'.producers && s'.producers == s.producers[p := s'.producers[p]]
  {
  }

  // ---- what QUEUE_FULL means ----

  /** The bytes a record needs at a write position: its own, and the marker when it does not fit before the end. */
  function Claim(c: Config, size: nat, writePos: nat): nat
    requires c.cap > 0
  {
    var total, tail := AlignUp(c.layout, c.layout.Word() + size), c.cap - writePos % c.cap;
    total + if writePos % c.cap != 0 && total > tail then tail else 0
  }

  /** The ring has room for the record at its current write position. */
  predicate Room(c: Config, s: State, size: nat)
    requires c.cap > 0
  {
    s.write + Claim(c, size, s.write) <= s.read + c.cap
  }

  /** A later write position never ends an equal record earlier. */
  lemma ClaimGrows(c: Config, size: nat, w: nat, v: nat)
    requires c.cap > 0 && w <= v && AlignUp(c.layout, c.layout.Word() + size) <= c.cap
    ensures w + Claim(c, size, w) <= v + Claim(c, size, v)
  {
    if v < w + c.cap {
      ModWindow(w, v, c.cap);
    }
  }

  /**
   A push reports QUEUE_FULL exactly when the consumer has overtaken the write position it loaded, whatever the
   room, or when the room between that position and the reader is really too small. In the second case the answer is
   right: there is no room at the current write position either. So the answer is wrong, given although the record
   has room, exactly when the consumer has overtaken the loaded position and there is room.
   */
  lemma QueueFullExactly(c: Config, s: State, p: nat)
    requires Inv(c, s) && ValidCapacity(c.layout, c.cap) && p in s.producers && s.producers[p].LoadRead?
    ensures var LoadRead(parts, w) := s.producers[p];
            var size := |Payload(parts)|;
            var full := Step(c, s, StepProducer(p)).producers[p] == Idle(QueueFull);
            && (full <==> w < s.read || w + Claim(c, size, w) > s.read + c.cap)
            && (full && w >= s.read ==> !Room(c, s, size))
            && (full && Room(c, s, size) <==> w < s.read && Room(c, s, size))
  {
    hide History, Memory, Owners, ConsumerOk, IsPow2, PlanFits, Payload;
    assert ProducerOk(c, s, p);
    var LoadRead(parts, w) := s.producers[p];
    EmptyRingAcceptsMaxRecord(c.layout, c.cap, |Payload(parts)|, 0);
    ClaimGrows(c, |Payload(parts)|, w, s.write);
  }

  /** So QUEUE_FULL does not mean full: a producer slow between its two loads gets it from an empty ring. */
  lemma FullOnEmptyRing(c: Config) returns (actions: seq<Action>)
    requires ValidCapacity(c.layout, c.cap)
    ensures var s := Run(c, Init(c, {0, 1}), actions);
            0 in s.producers && s.producers[0] == Idle(QueueFull) && s.read == s.write == s.reserve
  {
    hide Inv, Step, Init;
    var slow := [StartPush(0, [[]]), StepProducer(0)];
    var s := SlowStart(c);
    RunKeeps(c, {0, 1}, slow);
    var push, drain := PushThenDrain(c, s, 1, [[]]);
    var quick := [StartPush(1, [[]])] + push + drain;
    var s1 := Run(c, s, quick);
    EmptyAfter(c, s1);
    QueueFullExactly(c, s1, 0);
    OnlyStatusChanges(c, s1);
    RunOne(c, s1, StepProducer(0));
    RunConcat(c, Init(c, {0, 1}), slow, quick);
    RunConcat(c, Init(c, {0, 1}), slow + quick, [StepProducer(0)]);
    actions := slow + quick + [StepProducer(0)];
  }

  /** Producer 0 has loaded the write position of a fresh ring and not yet the read position. */
  lemma SlowStart(c: Config) returns (s: State)
    requires ValidCapacity(c.layout, c.cap)
    ensures s == Run(c, Init(c, {0, 1}), [StartPush(0, [[]]), StepProducer(0)])
    ensures NoneInFlight(s) && s.read == s.write == 0 && s.records == [] && s.producers.Keys == {0, 1}
    ensures s.producers[0] == LoadRead([[]], 0) && s.producers[1].Idle?
    ensures |Payload([[]])| <= MaxRecordSize(c.layout, c.cap)
  {
    var s0 := Init(c, {0, 1});
    var a, b := StartPush(0, [[]]), StepProducer(0);
    CapacityFacts(c.layout, c.cap);
    assert Payload([[]]) == [] by { assert Flat([[]], 0) == []; }
    RunOne(c, s0, a);
    RunOne(c, Step(c, s0, a), b);
    RunConcat(c, s0, [a], [b]);
    assert [a] + [b] == [a, b];
    s := Step(c, Step(c, s0, a), b);
  }

  lemma EmptyAfter(c: Config, s: State)
    requires Inv(c, s) && |s.records| == |s.delivered| > 0
    ensures s.read == s.write == s.reserve > 0
  {
    hide Memory, ProducerOk, Owners, ConsumerOk;
  }

  lemma OnlyStatusChanges(c: Config, s: State)
    requires ValidCapacity(c.layout, c.cap) && 0 in s.producers && s.producers[0].LoadRead?
    ensures var s' := Step(c, s, StepProducer(0));
            0 in s'.producers && s'.read == s.read && s'.write == s.write && s'.reserve == s.reserve
  {
  }
}
