/**
 The record ring on the counters it really has: `size_t` words that wrap at SIZE_MAX + 1. Every step of this machine
 is the step of `RecordRing` seen through the words, so its theorems hold for the words too.
 */
module RecordRingWrapped {
  import opened Arithmetic
  import opened RecordWords
  import opened RecordFormat
  import opened RecordRing
  import opened RecordRingInvariant
  import opened RecordRingSteps
  import opened RecordRingTheorems

  /** The word that holds a position. */
  function Wrap(l: Layout, pos: nat): nat { Slot(pos, l.SizeMod()) }

  // ---- a state seen through its words ----

  function WrapPlan(l: Layout, plan: Plan): Plan { plan.(start := Wrap(l, plan.start)) }

  function WrapProducer(l: Layout, prod: Producer): Producer {
    match prod
    case LoadRead(parts, writePos) => LoadRead(parts, Wrap(l, writePos))
    case Reserve(parts, plan) => Reserve(parts, WrapPlan(l, plan))
    case Filling(parts, plan, idx, stage) => Filling(parts, WrapPlan(l, plan), idx, stage)
    case _ => prod
  }

  function WrapConsumer(l: Layout, cons: Consumer): Consumer {
    match cons
    case AcquireWrite(readPos) => AcquireWrite(Wrap(l, readPos))
    case AcquireHeader(readPos, used) => AcquireHeader(Wrap(l, readPos), used)
    case SkipClear(readPos, stride) => SkipClear(Wrap(l, readPos), stride)
    case SkipAdvance(readPos, stride) => SkipAdvance(Wrap(l, readPos), stride)
    case ReleaseWrite(off, seen, readPos) => ReleaseWrite(off, seen, Wrap(l, readPos))
    case ReleaseHeader(off, seen, readPos, used) => ReleaseHeader(off, seen, Wrap(l, readPos), used)
    case ReleaseClear(seen, readPos, stride) => ReleaseClear(seen, Wrap(l, readPos), stride)
    case ReleaseAdvance(seen, readPos, stride) => ReleaseAdvance(seen, Wrap(l, readPos), stride)
    case _ => cons
  }

  function WrapProducers(l: Layout, producers: map<nat, Producer>): map<nat, Producer> {
    map p | p in producers :: WrapProducer(l, producers[p])
  }

  function WrapRecords(l: Layout, records: seq<Record>): seq<Record> {
    seq(|records|, i requires 0 <= i < |records| => records[i].(plan := WrapPlan(l, records[i].plan)))
  }

  function Wrapped(l: Layout, s: State): State {
    State(s.mem, Wrap(l, s.reserve), Wrap(l, s.write), Wrap(l, s.read), WrapProducers(l, s.producers),
          WrapConsumer(l, s.consumer), s.lastAcquire, s.lastRelease, WrapRecords(l, s.records), s.delivered)
  }

  // ---- the steps on words ----

  /** A stored sum keeps its low bits. */
  function Reduced(l: Layout, s: State): State {
    s.(reserve := Wrap(l, s.reserve), write := Wrap(l, s.write), read := Wrap(l, s.read))
  }

  function Used(l: Layout, writePos: nat, readPos: nat): nat { Slot(writePos - readPos, l.SizeMod()) }

  /** Planning subtracts words; everything else compares, stores and adds them. */
  function WordProducerStep(c: Config, w: State, p: nat): State
    requires ValidCapacity(c.layout, c.cap) && p in w.producers
  {
    match w.producers[p]
    case LoadRead(parts, writePos) =>
      (match WrappedPlanPush(c.layout, c.cap, |Payload(parts)|, writePos, w.read)
       case None => w.(producers := w.producers[p := Idle(QueueFull)])
       case Some(plan) => w.(producers := w.producers[p := Reserve(parts, plan)]))
    case _ => Reduced(c.layout, ProducerStep(c, w, p))
  }

  /** Both checks of `used` subtract words; the stride checks, the header stores and the advances follow. */
  function WordConsumerStep(c: Config, w: State): State
    requires ValidCapacity(c.layout, c.cap)
  {
    match w.consumer
    case AcquireWrite(readPos) =>
      var used := Used(c.layout, w.write, readPos);
      if used > c.cap then FinishAcquire(w, Corrupt)
      else if used == 0 then FinishAcquire(w, Empty)
      else w.(consumer := AcquireHeader(readPos, used))
    case ReleaseWrite(off, seen, readPos) =>
      var used := Used(c.layout, w.write, readPos);
      if used > c.cap then FinishRelease(w, Corrupt)
      else if used == 0 then FinishRelease(w, Invalid)
      else if off < c.layout.Word() || off > c.cap || off - c.layout.Word() != Offset(c, readPos)
        then FinishRelease(w, Invalid)
      else w.(consumer := ReleaseHeader(off, seen, readPos, used))
    case _ => Reduced(c.layout, ConsumerStep(c, w))
  }

  function WordStep(c: Config, w: State, a: Action): State
    requires ValidCapacity(c.layout, c.cap)
  {
    match a
    case StepProducer(p) => if p in w.producers then WordProducerStep(c, w, p) else w
    case StepConsumer => WordConsumerStep(c, w)
    case _ => Step(c, w, a)
  }

  function WordRun(c: Config, w: State, actions: seq<Action>): State
    requires ValidCapacity(c.layout, c.cap)
    decreases |actions|
  {
    if actions == [] then w else WordStep(c, WordRun(c, w, actions[..|actions| - 1]), actions[|actions| - 1])
  }

  // ---- words and positions ----

  lemma WrappedOffset(c: Config, pos: nat)
    requires ValidCapacity(c.layout, c.cap)
    ensures Offset(c, Wrap(c.layout, pos)) == Offset(c, pos)
  {
    CapacityFacts(c.layout, c.cap);
    ModMod(pos, c.layout.SizeMod(), c.cap);
  }

  lemma SumOfSlot(pos: nat, n: nat, m: nat)
    requires m > 0
    ensures Slot(Slot(pos, m) + n, m) == Slot(pos + n, m)
  {
    var z := pos % m + n;
    ModUnique(pos + n, m, pos / m + z / m, z % m);
  }

  /** A sum of a word is the word of the sum, and lies in the same cell. */
  lemma WrappedSum(c: Config, pos: nat, n: nat)
    requires ValidCapacity(c.layout, c.cap)
    ensures Wrap(c.layout, Wrap(c.layout, pos) + n) == Wrap(c.layout, pos + n)
    ensures Offset(c, Wrap(c.layout, pos) + n) == Offset(c, pos + n)
  {
    hide Slot, Offset;
    SumOfSlot(pos, n, c.layout.SizeMod());
    WrappedOffset(c, pos + n);
    WrappedOffset(c, Wrap(c.layout, pos) + n);
  }

  lemma WrapTwice(l: Layout, pos: nat)
    ensures Wrap(l, Wrap(l, pos)) == Wrap(l, pos)
  {
    ModMod(pos, l.SizeMod(), l.SizeMod());
  }

  /** Words are equal exactly for positions that are whole wraps apart. */
  lemma WrapEqual(l: Layout, a: nat, b: nat)
    requires a <= b
    ensures Wrap(l, a) == Wrap(l, b) <==> Slot(b - a, l.SizeMod()) == 0
  {
    var m := l.SizeMod();
    var z := b % m - a % m;
    ModUnique(b - a, m, b / m - a / m + z / m, z % m);
    if z == 0 { ModUnique(z, m, 0, 0); } else if z > 0 { ModUnique(z, m, 0, z); } else { ModUnique(z, m, -1, z + m); }
  }

  lemma UsedIsTrue(c: Config, writePos: nat, readPos: nat)
    requires ValidCapacity(c.layout, c.cap) && readPos <= writePos <= readPos + c.cap
    ensures Used(c.layout, Wrap(c.layout, writePos), Wrap(c.layout, readPos)) == writePos - readPos
  {
    WrappedDifference(writePos, readPos, c.layout.SizeMod());
  }

  // ---- every step is the step of the ring on positions ----

  lemma WrapUpdate(l: Layout, producers: map<nat, Producer>, p: nat, prod: Producer)
    ensures WrapProducers(l, producers[p := prod]) == WrapProducers(l, producers)[p := WrapProducer(l, prod)]
  {
  }

  lemma WrapAppend(l: Layout, records: seq<Record>, r: Record)
    ensures WrapRecords(l, records + [r]) == WrapRecords(l, records) + [r.(plan := WrapPlan(l, r.plan))]
  {
  }

  lemma WrapDone(l: Layout, records: seq<Record>, i: nat)
    requires i < |records|
    ensures WrapRecords(l, records[i := records[i].(done := true)])
            == WrapRecords(l, records)[i := WrapRecords(l, records)[i].(done := true)]
  {
  }

  /**
   The words deceive a producer whose position is a full wrap old: it plans with a read position that has overtaken
   its write position and takes the wrapped difference for a distance with room, or its swap finds a reserve position
   that has come round to the same word.
   */
  predicate Deceived(c: Config, s: State, p: nat)
    requires p in s.producers && c.cap > 0
  {
    match s.producers[p]
    case LoadRead(parts, writePos) =>
      writePos < s.read && Used(c.layout, writePos, s.read) + Claim(c, |Payload(parts)|, writePos) <= c.cap
    case Reserve(_, plan) => s.reserve != plan.start && Slot(s.reserve - plan.start, c.layout.SizeMod()) == 0
    case _ => false
  }

  /** A producer whose position is younger than a wrap, less one capacity, is not deceived. */
  lemma RecentIsEnough(c: Config, s: State, p: nat)
    requires Inv(c, s) && p in s.producers
    requires s.producers[p].LoadRead? ==> s.read - s.producers[p].writePos < c.layout.SizeMod() - c.cap
    requires s.producers[p].Reserve? ==> s.reserve - s.producers[p].plan.start < c.layout.SizeMod()
    ensures !Deceived(c, s, p)
  {
    hide History, Memory, Owners, ConsumerOk, Claim, Payload;
    assert ProducerOk(c, s, p);
    var m := c.layout.SizeMod();
    match s.producers[p] {
      case LoadRead(_, writePos) =>
        if writePos < s.read { ModUnique(writePos - s.read, m, -1, m + writePos - s.read); }
      case Reserve(_, plan) =>
        ModUnique(s.reserve - plan.start, m, 0, s.reserve - plan.start);
      case _ =>
    }
  }

  /** Subtracting words loses nothing but whole wraps. */
  lemma WordDifference(l: Layout, a: nat, b: nat)
    ensures Used(l, Wrap(l, a), Wrap(l, b)) == Used(l, a, b)
  {
    var m := l.SizeMod();
    var z := a % m - b % m;
    ModUnique(a - b, m, a / m - b / m + z / m, z % m);
  }

  /** Planning with an overtaken pair finds room exactly when the wrapped difference pretends it. */
  lemma OvertakenPlan(c: Config, size: nat, writePos: nat, readPos: nat)
    requires ValidCapacity(c.layout, c.cap) && size <= MaxRecordSize(c.layout, c.cap)
    ensures var l := c.layout;
            WrappedPlanPush(l, c.cap, size, Wrap(l, writePos), Wrap(l, readPos)).Some?
            <==> Used(l, writePos, readPos) + Claim(c, size, writePos) <= c.cap
  {
    hide IsPow2;
    var l := c.layout;
    CapacityFacts(l, c.cap);
    WordDifference(l, writePos, readPos);
    WrappedOffset(c, writePos);
    EmptyRingAcceptsMaxRecord(l, c.cap, size, 0);
    WrappedPublish(l.SizeMod(), c.cap, writePos % c.cap, AlignUp(l, l.Word() + size));
  }

  lemma PlansOnWords(c: Config, s: State, p: nat)
    requires Inv(c, s) && ValidCapacity(c.layout, c.cap) && p in s.producers && s.producers[p].LoadRead?
    ensures WordProducerStep(c, Wrapped(c.layout, s), p) == Wrapped(c.layout, ProducerStep(c, s, p))
            <==> !Deceived(c, s, p)
  {
    hide History, Memory, Owners, ConsumerOk, WrapProducers, WrapRecords, WrappedPlanPush, Payload, Used, Wrap, Claim;
    assert ProducerOk(c, s, p);
    var LoadRead(parts, writePos) := s.producers[p];
    if writePos < s.read {
      OvertakenPlan(c, |Payload(parts)|, writePos, s.read);
    } else {
      PlansTruly(c, |Payload(parts)|, writePos, s.read);
    }
    WrappedMember(c.layout, s.producers, p);
    var s' := ProducerStep(c, s, p);
    assert s'.producers == s.producers[p := s'.producers[p]];
    WrapUpdate(c.layout, s.producers, p, s'.producers[p]);
    WrappedMember(c.layout, s'.producers, p);
  }

  lemma PlansTruly(c: Config, size: nat, writePos: nat, readPos: nat)
    requires ValidCapacity(c.layout, c.cap) && readPos <= writePos < readPos + c.layout.SizeMod()
    ensures var l := c.layout;
            WrappedPlanPush(l, c.cap, size, Wrap(l, writePos), Wrap(l, readPos))
            == match PlanPush(l, c.cap, size, writePos, readPos)
               case None => None
               case Some(plan) => Some(WrapPlan(l, plan))
  {
    WrappedPlanAgrees(c.layout, c.cap, size, writePos, readPos);
  }

  lemma WrappedMember(l: Layout, producers: map<nat, Producer>, p: nat)
    requires p in producers
    ensures p in WrapProducers(l, producers) && WrapProducers(l, producers)[p] == WrapProducer(l, producers[p])
  {
  }

  lemma LoadsOnWords(c: Config, s: State, p: nat)
    requires ValidCapacity(c.layout, c.cap) && p in s.producers
    requires s.producers[p].Idle? || s.producers[p].LoadWrite?
    ensures WordProducerStep(c, Wrapped(c.layout, s), p) == Wrapped(c.layout, ProducerStep(c, s, p))
  {
    hide WrapProducers, WrapRecords, FillStep, PlanPush, WrappedPlanPush, Payload, Wrap;
    WrapsTwice(c.layout, s);
    WrappedMember(c.layout, s.producers, p);
    var s' := ProducerStep(c, s, p);
    assert s'.producers == s.producers[p := s'.producers[p]];
    WrapUpdate(c.layout, s.producers, p, s'.producers[p]);
  }

  lemma WrapsTwice(l: Layout, s: State)
    ensures Wrap(l, Wrap(l, s.reserve)) == Wrap(l, s.reserve) && Wrap(l, Wrap(l, s.write)) == Wrap(l, s.write)
    ensures Wrap(l, Wrap(l, s.read)) == Wrap(l, s.read)
  {
    WrapTwice(l, s.reserve);
    WrapTwice(l, s.write);
    WrapTwice(l, s.read);
  }

  lemma SwapsOnWords(c: Config, s: State, p: nat)
    requires ValidCapacity(c.layout, c.cap) && p in s.producers && s.producers[p].Reserve?
    requires s.producers[p].plan.start <= s.reserve
    ensures WordProducerStep(c, Wrapped(c.layout, s), p) == Wrapped(c.layout, ProducerStep(c, s, p))
            <==> !Deceived(c, s, p)
  {
    hide WrapProducers, WrapRecords, FillStep, PlanPush, WrappedPlanPush, Payload, Wrap;
    var Reserve(parts, plan) := s.producers[p];
    WrapEqual(c.layout, plan.start, s.reserve);
    WrapsTwice(c.layout, s);
    WrappedSum(c, plan.start, plan.fake + plan.total);
    WrappedMember(c.layout, s.producers, p);
    var s' := ProducerStep(c, s, p);
    assert s'.producers == s.producers[p := s'.producers[p]];
    WrapUpdate(c.layout, s.producers, p, s'.producers[p]);
    WrapAppend(c.layout, s.records, RecordOf(plan, parts, p));
    WrapLength(c.layout, s.records);
    WrapLength(c.layout, s'.records);
  }

  lemma WrapLength(l: Layout, records: seq<Record>)
    ensures |WrapRecords(l, records)| == |records|
  {
  }

  /** Storage is addressed by cells. */
  lemma SameCell(c: Config, mem: seq<byte>, pos: nat, pos': nat, meta: nat)
    requires c.cap > 0 && Offset(c, pos) == Offset(c, pos')
    ensures PutHeader(c, mem, pos, meta) == PutHeader(c, mem, pos', meta)
    ensures HeaderAt(c, mem, pos) == HeaderAt(c, mem, pos')
  {
  }

  lemma SameCopy(c: Config, mem: seq<byte>, pos: nat, pos': nat, at: nat, part: seq<byte>)
    requires c.cap > 0 && Offset(c, pos) == Offset(c, pos')
    ensures StorePart(c, mem, pos, at, part) == StorePart(c, mem, pos', at, part)
  {
  }

  lemma FillsOnWords(c: Config, s: State, p: nat)
    requires ValidCapacity(c.layout, c.cap) && p in s.producers && s.producers[p].Filling?
    ensures WordProducerStep(c, Wrapped(c.layout, s), p) == Wrapped(c.layout, ProducerStep(c, s, p))
  {
    hide WrapProducers, WrapRecords, PlanPush, WrappedPlanPush, Payload, Wrap, Offset, PutHeader, StorePart, Flat,
      EncodeMeta;
    var l, plan := c.layout, s.producers[p].plan;
    WrapsTwice(l, s);
    WrappedMember(l, s.producers, p);
    var s' := ProducerStep(c, s, p);
    assert s'.producers == s.producers[p := s'.producers[p]];
    WrapUpdate(l, s.producers, p, s'.producers[p]);
    match s.producers[p].stage {
      case PutMarker =>
        WrappedOffset(c, plan.start);
        SameCell(c, s.mem, Wrap(l, plan.start), plan.start, MarkerMeta(c, plan));
      case ClearHeader =>
        WrappedSum(c, plan.start, plan.fake);
        SameCell(c, s.mem, Wrap(l, plan.start) + plan.fake, plan.RecordPos(), 0);
      case PublishWrite => WrappedSum(c, plan.start, plan.fake + plan.total);
      case CopyPart(next) => CopiesOnWords(c, s, p);
    }
  }

  lemma CopiesOnWords(c: Config, s: State, p: nat)
    requires ValidCapacity(c.layout, c.cap) && p in s.producers
    requires s.producers[p].Filling? && s.producers[p].stage.CopyPart?
    ensures WordProducerStep(c, Wrapped(c.layout, s), p) == Wrapped(c.layout, ProducerStep(c, s, p))
  {
    hide WrapProducers, WrapRecords, PlanPush, WrappedPlanPush, Payload, Wrap, Offset, PutHeader, StorePart, Flat,
      EncodeMeta;
    var l := c.layout;
    var Filling(parts, plan, idx, stage) := s.producers[p];
    WrapsTwice(l, s);
    WrappedMember(l, s.producers, p);
    var s' := ProducerStep(c, s, p);
    assert s'.producers == s.producers[p := s'.producers[p]];
    WrapUpdate(l, s.producers, p, s'.producers[p]);
    if stage.next < |parts| {
      WrappedSum(c, plan.start, plan.fake + l.Word());
      SameCopy(c, s.mem, Wrap(l, plan.start) + plan.fake + l.Word(), plan.RecordPos() + l.Word(),
               |Flat(parts, stage.next)|, parts[stage.next]);
    } else {
      WrappedSum(c, plan.start, plan.fake);
      SameCell(c, s.mem, Wrap(l, plan.start) + plan.fake, plan.RecordPos(), ValidMeta(c, plan));
      WrapLength(l, s.records);
      if idx < |s.records| { WrapDone(l, s.records, idx); }
    }
  }

  lemma ConsumesOnWords(c: Config, s: State)
    requires Inv(c, s) && ValidCapacity(c.layout, c.cap)
    ensures WordConsumerStep(c, Wrapped(c.layout, s)) == Wrapped(c.layout, ConsumerStep(c, s))
  {
    hide Inv, WordConsumerStep, ConsumerStep, Wrapped;
    match s.consumer {
      case AcquireWrite(_) => ChecksOnWords(c, s);
      case ReleaseWrite(_, _, _) => ChecksOnWords(c, s);
      case AcquireHeader(_, _) => DecodesOnWords(c, s);
      case ReleaseHeader(_, _, _, _) => DecodesOnWords(c, s);
      case _ => AdvancesOnWords(c, s);
    }
  }

  lemma ChecksOnWords(c: Config, s: State)
    requires Inv(c, s) && ValidCapacity(c.layout, c.cap) && (s.consumer.AcquireWrite? || s.consumer.ReleaseWrite?)
    ensures WordConsumerStep(c, Wrapped(c.layout, s)) == Wrapped(c.layout, ConsumerStep(c, s))
  {
    hide Inv, WrapProducers, WrapRecords, Wrap, Offset, Used;
    UsedOnWords(c, s, s.consumer.readPos);
    WrappedOffset(c, s.consumer.readPos);
  }

  lemma DecodesOnWords(c: Config, s: State)
    requires ValidCapacity(c.layout, c.cap) && (s.consumer.AcquireHeader? || s.consumer.ReleaseHeader?)
    ensures WordConsumerStep(c, Wrapped(c.layout, s)) == Wrapped(c.layout, ConsumerStep(c, s))
  {
    hide WrapProducers, WrapRecords, Wrap, Offset, Slot, HeaderAt, MetaIsValid, MetaIsFake, MetaStride, PayloadSize,
      PutHeader, ProducerStep, FillStep;
    WrapsTwice(c.layout, s);
    ReadsSameHeader(c, s, s.consumer.readPos);
  }

  lemma AdvancesOnWords(c: Config, s: State)
    requires ValidCapacity(c.layout, c.cap)
    requires !s.consumer.AcquireWrite? && !s.consumer.ReleaseWrite?
             && !s.consumer.AcquireHeader? && !s.consumer.ReleaseHeader?
    ensures WordConsumerStep(c, Wrapped(c.layout, s)) == Wrapped(c.layout, ConsumerStep(c, s))
  {
    hide WrapProducers, WrapRecords, Wrap, PutHeader;
    WrapsTwice(c.layout, s);
    match s.consumer {
      case SkipClear(readPos, _) => ReadsSameHeader(c, s, readPos);
      case ReleaseClear(_, readPos, _) => ReadsSameHeader(c, s, readPos);
      case SkipAdvance(readPos, stride) => WrappedSum(c, readPos, stride);
      case ReleaseAdvance(_, readPos, stride) => WrappedSum(c, readPos, stride);
      case _ =>
    }
  }

  lemma ReadsSameHeader(c: Config, s: State, readPos: nat)
    requires ValidCapacity(c.layout, c.cap)
    ensures Offset(c, Wrap(c.layout, readPos)) == Offset(c, readPos)
    ensures PutHeader(c, s.mem, Wrap(c.layout, readPos), 0) == PutHeader(c, s.mem, readPos, 0)
    ensures HeaderAt(c, s.mem, Wrap(c.layout, readPos)) == HeaderAt(c, s.mem, readPos)
  {
    hide Wrap, Offset;
    WrappedOffset(c, readPos);
    SameCell(c, s.mem, Wrap(c.layout, readPos), readPos, 0);
  }

  /** Both checks of `used` find the true distance: no reachable pair is apart by more than the capacity. */
  lemma UsedOnWords(c: Config, s: State, readPos: nat)
    requires Inv(c, s) && (s.consumer.AcquireWrite? || s.consumer.ReleaseWrite?) && readPos == s.consumer.readPos
    ensures readPos <= s.write <= readPos + c.cap
    ensures Used(c.layout, Wrap(c.layout, s.write), Wrap(c.layout, readPos)) == s.write - readPos
  {
    hide History, Memory, Owners, ProducerOk, Wrap, Used;
    UsedIsTrue(c, s.write, readPos);
  }

  lemma StartsOnWords(c: Config, s: State, a: Action)
    requires ValidCapacity(c.layout, c.cap) && !a.StepProducer? && !a.StepConsumer?
    ensures WordStep(c, Wrapped(c.layout, s), a) == Wrapped(c.layout, Step(c, s, a))
  {
    hide WrapProducers, WrapRecords, Wrap, BeginPush;
    if a.StartPush? && a.p in s.producers {
      WrappedMember(c.layout, s.producers, a.p);
      WrapUpdate(c.layout, s.producers, a.p, BeginPush(c, a.parts));
      BeginsWithoutPosition(c, a.parts);
    } else if a.FailSwap? && a.p in s.producers {
      WrappedMember(c.layout, s.producers, a.p);
      if s.producers[a.p].Reserve? {
        WrapUpdate(c.layout, s.producers, a.p, LoadWrite(s.producers[a.p].parts));
      }
    }
    if (a.StartPush? || a.FailSwap?) && a.p !in s.producers { WrapNoMember(c.layout, s.producers, a.p); }
  }

  lemma WrapNoMember(l: Layout, producers: map<nat, Producer>, p: nat)
    requires p !in producers
    ensures p !in WrapProducers(l, producers)
  {
  }

  lemma BeginsWithoutPosition(c: Config, parts: seq<seq<byte>>)
    requires ValidCapacity(c.layout, c.cap)
    ensures BeginPush(c, parts).Idle? || BeginPush(c, parts).LoadWrite?
  {
  }

  lemma StartsBehind(c: Config, s: State, p: nat)
    requires Inv(c, s) && p in s.producers && s.producers[p].Reserve?
    ensures s.producers[p].plan.start <= s.write <= s.reserve
  {
    hide History, Memory, Owners, ConsumerOk, PlanFits, Payload;
    assert ProducerOk(c, s, p);
  }

  lemma ProducesOnWords(c: Config, s: State, p: nat)
    requires Inv(c, s) && ValidCapacity(c.layout, c.cap) && p in s.producers
    ensures WordProducerStep(c, Wrapped(c.layout, s), p) == Wrapped(c.layout, ProducerStep(c, s, p))
            <==> !Deceived(c, s, p)
  {
    hide Inv, WordProducerStep, ProducerStep, Wrapped;
    match s.producers[p] {
      case LoadRead(_, _) => PlansOnWords(c, s, p);
      case Reserve(_, _) => StartsBehind(c, s, p); SwapsOnWords(c, s, p);
      case Filling(_, _, _, _) => FillsOnWords(c, s, p);
      case _ => LoadsOnWords(c, s, p);
    }
  }

  predicate DeceivedBy(c: Config, s: State, a: Action)
    requires c.cap > 0
  {
    a.StepProducer? && a.p in s.producers && Deceived(c, s, a.p)
  }

  /** Every step on words is the step on positions seen through the words, unless the words deceive its producer. */
  lemma StepOnWords(c: Config, s: State, a: Action)
    requires Inv(c, s) && ValidCapacity(c.layout, c.cap)
    ensures WordStep(c, Wrapped(c.layout, s), a) == Wrapped(c.layout, Step(c, s, a)) <==> !DeceivedBy(c, s, a)
  {
    hide Inv, Deceived, WordProducerStep, ProducerStep, WordConsumerStep, ConsumerStep, WrapProducers,
      WrapRecords, Wrap;
    match a {
      case StepProducer(p) =>
        if p in s.producers {
          WrappedMember(c.layout, s.producers, p);
          ProducesOnWords(c, s, p);
        } else {
          WrapNoMember(c.layout, s.producers, p);
        }
      case StepConsumer => ConsumesOnWords(c, s);
      case _ => StartsOnWords(c, s, a);
    }
  }

  // ---- runs ----

  /** In the whole run no producer was deceived. */
  predicate NeverDeceived(c: Config, s: State, actions: seq<Action>)
    requires ValidCapacity(c.layout, c.cap)
    decreases |actions|
  {
    actions != [] ==>
      var n := |actions| - 1;
      NeverDeceived(c, s, actions[..n]) && !DeceivedBy(c, Run(c, s, actions[..n]), actions[n])
  }

  lemma InitOnWords(c: Config, pids: set<nat>)
    requires ValidCapacity(c.layout, c.cap)
    ensures Wrapped(c.layout, Init(c, pids)) == Init(c, pids)
  {
    assert WrapRecords(c.layout, []) == [];
  }

  /** The ring on its wrapping counters runs exactly as the ring on positions, seen through the words. */
  lemma {:induction false} RunsOnWords(c: Config, pids: set<nat>, actions: seq<Action>)
    requires ValidCapacity(c.layout, c.cap) && NeverDeceived(c, Init(c, pids), actions)
    ensures WordRun(c, Init(c, pids), actions) == Wrapped(c.layout, Run(c, Init(c, pids), actions))
    decreases |actions|
  {
    hide Inv, DeceivedBy, Init, Wrapped, WordStep, Step;
    if actions == [] {
      InitOnWords(c, pids);
    } else {
      var n := |actions| - 1;
      RunsOnWords(c, pids, actions[..n]);
      RunKeeps(c, pids, actions[..n]);
      StepOnWords(c, Run(c, Init(c, pids), actions[..n]), actions[n]);
    }
  }
}
