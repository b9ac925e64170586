/** Every step of every thread keeps the invariant of the record ring. */
module RecordRingSteps {
  import opened Arithmetic
  import opened RecordWords
  import opened RecordFormat
  import opened RecordRing
  import opened RecordRingInvariant

  // ---- steps that write no storage ----

  /** All records keep their memory facts when storage does not change. */
  lemma KeepAllMemory(c: Config, s: State, s': State)
    requires Inv(c, s) && s'.mem == s.mem && s'.records == s.records && s.read <= s'.read
    requires |s.delivered| <= |s'.delivered|
    requires forall i :: |s'.delivered| <= i < |s.records| && !s.records[i].done ==>
                           var p := s.records[i].owner;
                           p in s.producers && p in s'.producers && s.producers[p] == s'.producers[p]
    requires |s.delivered| == |s'.delivered| ==>
               (s.consumer.SkipAdvance? ==> s'.consumer.SkipAdvance? || s'.read > s.read)
               && (s.consumer.ReleaseAdvance? ==> s'.consumer.ReleaseAdvance?)
    ensures Memory(c, s')
  {
    hide PlanFits;
    forall i {:trigger RecordMemory(c, s', i)} | |s'.delivered| <= i < |s'.records|
      ensures RecordMemory(c, s', i)
    {
      assert RecordMemory(c, s, i);
      if !s.records[i].done {
        var p := s.records[i].owner;
        assert ProducerOk(c, s, p);
      }
      KeepRecordMemory(c, s, s', i);
    }
  }

  lemma StartPushKeeps(c: Config, s: State, p: nat, parts: seq<seq<byte>>)
    requires Inv(c, s)
    ensures Inv(c, Step(c, s, StartPush(p, parts)))
  {
    var s' := Step(c, s, StartPush(p, parts));
    if s' != s {
      LocalProducerKeeps(c, s, p, BeginPush(c, parts));
    }
  }

  /** A producer that is not filling a record moves to another such state. */
  lemma LocalProducerKeeps(c: Config, s: State, p: nat, next: Producer)
    requires Inv(c, s) && p in s.producers && !s.producers[p].Filling? && !next.Filling?
    requires var s' := s.(producers := s.producers[p := next]); ProducerOk(c, s', p)
    ensures Inv(c, s.(producers := s.producers[p := next]))
  {
    hide IsPow2, PlanFits, Memory, ProducerOk;
    LocalKeepsProducers(c, s, p, next);
    LocalKeepsMemory(c, s, p, next);
  }

  lemma LocalKeepsProducers(c: Config, s: State, p: nat, next: Producer)
    requires Inv(c, s) && p in s.producers && !s.producers[p].Filling? && !next.Filling?
    requires var s' := s.(producers := s.producers[p := next]); ProducerOk(c, s', p)
    ensures var s' := s.(producers := s.producers[p := next]);
            forall q {:trigger ProducerOk(c, s', q)} :: q in s'.producers ==> ProducerOk(c, s', q)
  {
    hide IsPow2, PlanFits, Memory, History, Positions, ConsumerOk;
    var s' := s.(producers := s.producers[p := next]);
    forall q {:trigger ProducerOk(c, s', q)} | q in s'.producers ensures ProducerOk(c, s', q) {
      if q != p { assert ProducerOk(c, s, q); }
    }
  }

  lemma LocalKeepsMemory(c: Config, s: State, p: nat, next: Producer)
    requires Inv(c, s) && p in s.producers && !s.producers[p].Filling? && !next.Filling?
    ensures Memory(c, s.(producers := s.producers[p := next]))
  {
    hide IsPow2, PlanFits, Memory, History, Positions, ConsumerOk, ProducerOk;
    KeepAllMemory(c, s, s.(producers := s.producers[p := next]));
  }

  lemma PlanningKeeps(c: Config, s: State, p: nat)
    requires Inv(c, s) && p in s.producers
    requires s.producers[p].LoadWrite? || s.producers[p].LoadRead?
    ensures Inv(c, ProducerStep(c, s, p))
  {
    assert ProducerOk(c, s, p);
    match s.producers[p] {
      case LoadWrite(parts) => LocalProducerKeeps(c, s, p, LoadRead(parts, s.write));
      case LoadRead(parts, writePos) =>
        var plan := PlanPush(c.layout, c.cap, |Payload(parts)|, writePos, s.read);
        if plan.Some? {
          PlanPushFits(c.layout, c.cap, |Payload(parts)|, writePos, s.read);
          LocalProducerKeeps(c, s, p, Reserve(parts, plan.value));
        } else {
          LocalProducerKeeps(c, s, p, Idle(QueueFull));
        }
    }
  }

  /** A compare-and-swap can only win while no other producer is between its own win and its publication. */
  lemma WinnerIsAlone(c: Config, s: State, p: nat)
    requires Inv(c, s) && p in s.producers && s.producers[p].Reserve? && s.reserve == s.producers[p].plan.start
    ensures s.write == s.reserve
    ensures forall q :: q in s.producers && s.producers[q].Filling? ==> s.producers[q].stage.CopyPart?
  {
    assert ProducerOk(c, s, p);
    forall q | q in s.producers && s.producers[q].Filling? ensures s.producers[q].stage.CopyPart? {
      assert ProducerOk(c, s, q);
    }
  }

  lemma ReserveKeeps(c: Config, s: State, p: nat)
    requires Inv(c, s) && p in s.producers && s.producers[p].Reserve?
    ensures Inv(c, ProducerStep(c, s, p))
  {
    assert ProducerOk(c, s, p);
    var Reserve(parts, plan) := s.producers[p];
    if s.reserve != plan.start {
      LocalProducerKeeps(c, s, p, LoadWrite(parts));
    } else {
      hide Positions, History, ProducerOk, Owners, ConsumerOk, Memory, PlanPush, IsPow2;
      ReserveHistory(c, s, p);
      ReserveProducers(c, s, p);
      ReserveMemory(c, s, p);
    }
  }

  lemma ReserveProducers(c: Config, s: State, p: nat)
    requires Inv(c, s) && p in s.producers && s.producers[p].Reserve? && s.reserve == s.producers[p].plan.start
    ensures var s' := ProducerStep(c, s, p);
            forall q {:trigger ProducerOk(c, s', q)} :: q in s'.producers ==> ProducerOk(c, s', q)
  {
    hide IsPow2, PlanPush, PlanFits, Memory, ConsumerOk, Owners, FillStep;
    WinnerIsAlone(c, s, p);
    var s' := ProducerStep(c, s, p);
    assert ProducerOk(c, s, p);
    forall q {:trigger ProducerOk(c, s', q)} | q in s'.producers ensures ProducerOk(c, s', q) {
      assert ProducerOk(c, s, q);
    }
  }

  lemma ReserveMemory(c: Config, s: State, p: nat)
    requires Inv(c, s) && p in s.producers && s.producers[p].Reserve? && s.reserve == s.producers[p].plan.start
    ensures Memory(c, ProducerStep(c, s, p))
  {
    hide IsPow2, FromBytes, ToBytes, EncodeMeta, PlanPush, PlanFits, FillStep, Positions, ConsumerOk, RecordMemory;
    var s' := ProducerStep(c, s, p);
    ReservedMemory(c, s, p);
    forall i {:trigger RecordMemory(c, s', i)} | |s'.delivered| <= i < |s'.records| ensures RecordMemory(c, s', i) {
      if i < |s.records| {
        assert RecordMemory(c, s, i);
        if !s.records[i].done { assert ProducerOk(c, s, s.records[i].owner); }
        KeepRecordMemory(c, s, s', i);
      }
    }
  }

  /** The new record has no bytes in memory yet. */
  lemma ReservedMemory(c: Config, s: State, p: nat)
    requires Inv(c, s) && p in s.producers && s.producers[p].Reserve? && s.reserve == s.producers[p].plan.start
    ensures RecordMemory(c, ProducerStep(c, s, p), |s.records|)
  {
    hide Inv, IsPow2, HeaderAt, PlanPush, FillStep;
  }

  lemma ReserveHistory(c: Config, s: State, p: nat)
    requires Inv(c, s) && p in s.producers && s.producers[p].Reserve? && s.reserve == s.producers[p].plan.start
    ensures var s' := ProducerStep(c, s, p);
            Positions(c, s') && History(c, s') && Owners(s') && ConsumerOk(c, s')
  {
    hide IsPow2, PlanFits, Memory, PlanPush;
    WinnerIsAlone(c, s, p);
    assert ProducerOk(c, s, p);
    var Reserve(parts, plan) := s.producers[p];
    var s' := ProducerStep(c, s, p);
    EndAligned(c, |Payload(parts)|, plan);
    AppendRecord(c, s, s', RecordOf(plan, parts, p));
  }

  /** Every record ends before each later one starts. */
  ghost predicate Ascending(records: seq<Record>) {
    forall i, j :: 0 <= i < j < |records| ==> records[i].plan.End() <= records[j].plan.start
  }

  lemma AppendOrder(records: seq<Record>, r: Record)
    requires Ascending(records)
    requires records != [] ==> records[|records| - 1].plan.End() == r.plan.start
    ensures Ascending(records + [r])
  {
    var n, all := |records|, records + [r];
    forall i, j | 0 <= i < j < |all|
      ensures all[i].plan.End() <= all[j].plan.start
    {
      if j == n && i < n - 1 { assert records[i].plan.End() <= records[n - 1].plan.start; }
    }
  }

  lemma AppendRecord(c: Config, s: State, s': State, r: Record)
    requires Positions(c, s) && History(c, s) && s.write == s.reserve == r.plan.start && !r.done
    requires PlanFits(c.layout, c.cap, |r.data|, r.plan)
    requires s'.records == s.records + [r] && s'.reserve == r.plan.End()
    requires s'.write == s.write && s'.read == s.read && s'.delivered == s.delivered
    ensures History(c, s')
  {
    hide PlanFits;
    AppendOrder(s.records, r);
  }

  lemma EndAligned(c: Config, size: nat, plan: Plan)
    requires PlanFits(c.layout, c.cap, size, plan)
    ensures plan.RecordPos() % c.layout.Word() == 0 && plan.End() % c.layout.Word() == 0
  {
    AddMod(plan.start, plan.fake, c.layout.Word());
    AddMod(plan.RecordPos(), plan.total, c.layout.Word());
  }

  // ---- the winner fills its record ----

  /** The filling producer p, its record, and where it lies. */
  lemma FillingFacts(c: Config, s: State, p: nat)
    requires Inv(c, s) && p in s.producers && s.producers[p].Filling?
    ensures var Filling(parts, plan, idx, stage) := s.producers[p];
            && |s.delivered| <= idx < |s.records| && s.records[idx] == RecordOf(plan, parts, p)
            && PlanFits(c.layout, c.cap, |Payload(parts)|, plan)
            && s.read <= plan.RecordPos() && plan.End() <= s.read + c.cap
            && (stage.CopyPart?
                || (s.read <= plan.start == s.write && idx == |s.records| - 1 && s.reserve == plan.End()))
            && FillingMemory(c, s, idx) && RecordMemory(c, s, idx) && ProducerOk(c, s, p)
            && plan.total >= c.layout.Word() + |Payload(parts)|
  {
    hide ConsumerOk, Owners, CommittedMemory, DataStored, MarkerStored, HeaderAt, IsPow2;
    assert ProducerOk(c, s, p);
    var Filling(parts, plan, idx, stage) := s.producers[p];
    assert RecordMemory(c, s, idx);
    var k, n := |s.delivered|, |s.records|;
    if k < idx { assert s.records[k].plan.End() <= plan.start; }
    if idx < n - 1 { assert plan.End() <= s.records[n - 1].plan.start; }
  }

  /** The bytes of record j from the head on lie in the window of one capacity behind the read position. */
  lemma UnreadWindow(c: Config, s: State, j: nat)
    requires Inv(c, s) && |s.delivered| <= j < |s.records|
    ensures s.read <= s.records[j].plan.RecordPos() && s.records[j].plan.End() <= s.read + c.cap
    ensures j > |s.delivered| || s.read == s.records[j].plan.start ==> s.read <= s.records[j].plan.start
    ensures PlanFits(c.layout, c.cap, |s.records[j].data|, s.records[j].plan)
    ensures RecordMemory(c, s, j)
  {
    hide IsPow2, ProducerOk, Owners, ConsumerOk, FillingMemory, CommittedMemory, MarkerDue, FromBytes, EncodeMeta;
    var k, n := |s.delivered|, |s.records|;
    if k < j { assert s.records[k].plan.End() <= s.records[j].plan.start; }
    if j < n - 1 { assert s.records[j].plan.End() <= s.records[n - 1].plan.start; }
    assert RecordMemory(c, s, j);
  }

  lemma RecordsApart(c: Config, s: State, i: nat, j: nat)
    requires Inv(c, s) && i < j < |s.records|
    ensures s.records[i].plan.End() <= s.records[j].plan.start
  {
  }

  /** A store inside the marker or the body of record i leaves the bytes of every other unreleased record alone. */
  lemma StoreInRecord(c: Config, s: State, i: nat, j: nat, off: nat, bs: seq<byte>)
    requires Inv(c, s) && |s.delivered| <= i < |s.records| && |s.delivered| <= j < |s.records| && i != j
    requires var q := s.records[i].plan;
             || (q.fake != 0 && s.read <= q.start
                 && Offset(c, q.start) <= off && off + |bs| <= Offset(c, q.start) + q.fake)
             || (Offset(c, q.RecordPos()) <= off && off + |bs| <= Offset(c, q.RecordPos()) + q.total)
    ensures PlanFits(c.layout, c.cap, |s.records[j].data|, s.records[j].plan)
    ensures off + |bs| <= |s.mem|
    ensures SameRecordBytes(c, s.mem, Store(s.mem, off, bs), s.records[j].plan, s.read <= s.records[j].plan.start)
  {
    hide Inv, PlanFits, RecordMemory, IsPow2;
    InvParts(c, s);
    UnreadWindow(c, s, i);
    UnreadWindow(c, s, j);
    var q, r := s.records[i].plan, s.records[j].plan;
    RecordsApart(c, s, if i < j then i else j, if i < j then j else i);
    PlanSizes(c, |s.records[i].data|, q);
    if Offset(c, q.RecordPos()) <= off && off + |bs| <= Offset(c, q.RecordPos()) + q.total {
      StoreElsewhere(c, s.mem, off, bs, q.RecordPos(), q.total, r, |s.records[j].data|, s.read);
    } else {
      StoreElsewhere(c, s.mem, off, bs, q.start, q.fake, r, |s.records[j].data|, s.read);
    }
  }

  lemma PlanSizes(c: Config, size: nat, plan: Plan)
    requires PlanFits(c.layout, c.cap, size, plan)
    ensures plan.total >= c.layout.Word() + size
    ensures Offset(c, plan.RecordPos()) + plan.total <= c.cap
    ensures plan.fake != 0 ==> plan.fake >= c.layout.Word() && Offset(c, plan.start) + plan.fake <= c.cap
  {
  }

  /**
   A store inside record i by its producer or by the consumer: all other records keep their memory facts.
   Nothing else about the other records changes in such a step.
   */
  lemma KeepOtherMemory(c: Config, s: State, s': State, i: nat, off: nat, bs: seq<byte>)
    requires Inv(c, s) && |s.delivered| <= i < |s.records|
    requires var q := s.records[i].plan;
             || (q.fake != 0 && s.read <= q.start
                 && Offset(c, q.start) <= off && off + |bs| <= Offset(c, q.start) + q.fake)
             || (Offset(c, q.RecordPos()) <= off && off + |bs| <= Offset(c, q.RecordPos()) + q.total)
    requires off + |bs| <= |s.mem| && s'.mem == Store(s.mem, off, bs)
    requires |s'.records| == |s.records| && s'.delivered == s.delivered && s'.read == s.read
    requires forall j :: 0 <= j < |s.records| && j != i ==> s'.records[j] == s.records[j]
    requires forall j :: |s.delivered| <= j < |s.records| && j != i && !s.records[j].done ==>
                           var p := s.records[j].owner;
                           p in s.producers && p in s'.producers && s.producers[p] == s'.producers[p]
    requires i != |s.delivered| ==> s'.consumer == s.consumer
    ensures forall j :: |s.delivered| <= j < |s'.records| && j != i ==> RecordMemory(c, s', j)
  {
    hide Inv, PlanFits, RecordMemory, IsPow2;
    InvParts(c, s);
    forall j | |s.delivered| <= j < |s'.records| && j != i
      ensures RecordMemory(c, s', j)
    {
      UnreadWindow(c, s, j);
      StoreInRecord(c, s, i, j, off, bs);
      if !s.records[j].done { OwnerFills(c, s, j); }
      KeepRecordMemory(c, s, s', j);
    }
  }

  lemma OwnerFills(c: Config, s: State, j: nat)
    requires Inv(c, s) && |s.delivered| <= j < |s.records| && !s.records[j].done
    ensures var p := s.records[j].owner;
            && p in s.producers && s.producers[p].Filling? && s.producers[p].idx == j
            && s.records[j].data == Payload(s.producers[p].parts)
  {
    assert ProducerOk(c, s, s.records[j].owner);
  }

  /** Header store of one word: what is read back, and that it is a store of one word at the header's offset. */
  lemma HeaderStore(c: Config, mem: seq<byte>, pos: nat, meta: nat)
    requires ValidCapacity(c.layout, c.cap) && |mem| == c.cap
    requires Offset(c, pos) + c.layout.Word() <= c.cap && meta < c.layout.SizeMod()
    ensures var bs := ToBytes(meta, c.layout.Word());
            && PutHeader(c, mem, pos, meta) == Store(mem, Offset(c, pos), bs)
            && |bs| == c.layout.Word()
    ensures HeaderAt(c, PutHeader(c, mem, pos, meta), pos) == meta
  {
    var bs := ToBytes(meta, c.layout.Word());
    LoadStoreSame(mem, Offset(c, pos), bs);
    WordSize(c.layout);
    WordRoundTrip(meta, c.layout.Word());
  }

  lemma WordSize(l: Layout)
    ensures Pow256(l.Word()) == l.SizeMod()
  {
    assert Pow256(2) == 0x1_0000;
    assert Pow256(4) == 0x1_0000_0000;
    assert Pow256(6) == 0x1_0000_0000_0000;
  }

  /** The three header words a record ever holds, and how the consumer decodes them. */
  lemma HeaderWords(c: Config, size: nat, plan: Plan)
    requires PlanFits(c.layout, c.cap, size, plan) && ValidCapacity(c.layout, c.cap)
    ensures var m := ValidMeta(c, plan);
            && m < c.layout.SizeMod() && MetaIsValid(c.layout, m) && !MetaIsFake(c.layout, m)
            && MetaStride(c.layout, m) == plan.total && PayloadSize(c.layout, m) == Some(size)
    ensures var m := MarkerMeta(c, plan);
            && m < c.layout.SizeMod() && MetaIsValid(c.layout, m) && MetaIsFake(c.layout, m)
            && MetaStride(c.layout, m) == plan.fake
    ensures !MetaIsValid(c.layout, 0)
  {
    MetaRoundTrip(c.layout, plan.total, plan.padding, false);
    MetaRoundTrip(c.layout, plan.fake, 0, true);
  }

  /** Steps that leave positions, history and consumer as they are. */
  lemma SameBookkeeping(c: Config, s: State, s': State)
    requires c.cap > 0 && Positions(c, s) && History(c, s) && ConsumerOk(c, s)
    requires s'.records == s.records && s'.delivered == s.delivered && s'.consumer == s.consumer
    requires s'.reserve == s.reserve && s'.write == s.write && s'.read == s.read
    ensures Positions(c, s') && History(c, s') && ConsumerOk(c, s')
  {
    hide PlanFits;
  }

  /** The filling steps that neither publish nor commit. */
  lemma FillFrame(c: Config, s: State, s': State, p: nat, stage': Stage)
    requires Inv(c, s) && p in s.producers && s.producers[p].Filling? && |s'.mem| == c.cap
    requires var Filling(parts, plan, idx, stage) := s.producers[p];
             && !stage'.PutMarker?
             && s' == s.(mem := s'.mem, producers := s.producers[p := Filling(parts, plan, idx, stage')])
             && !stage.PublishWrite? && stage.CopyPart? == stage'.CopyPart?
             && (stage'.CopyPart? ==> stage'.next <= |parts|)
    requires Memory(c, s')
    ensures Inv(c, s')
  {
    hide IsPow2, FromBytes, ToBytes, EncodeMeta, PlanPush, PlanFits, Memory, ConsumerOk, History, Positions;
    assert ProducerOk(c, s, p);
    SameBookkeeping(c, s, s');
    assert ProducerOk(c, s', p);
    forall q {:trigger ProducerOk(c, s', q)} | q in s'.producers ensures ProducerOk(c, s', q) {
      if q != p { assert ProducerOk(c, s, q); }
    }
  }

  lemma FillMarkerKeeps(c: Config, s: State, p: nat)
    requires Inv(c, s) && p in s.producers && s.producers[p].Filling? && s.producers[p].stage.PutMarker?
    ensures Inv(c, FillStep(c, s, p))
  {
    hide IsPow2, FromBytes, ToBytes, EncodeMeta, PlanPush, PlanFits, ConsumerOk, History;
    var s' := FillStep(c, s, p);
    var Filling(parts, plan, idx, stage) := s.producers[p];
    FillingFacts(c, s, p);
    assert ProducerOk(c, s, p);
    HeaderWords(c, |Payload(parts)|, plan);
    PlanSizes(c, |Payload(parts)|, plan);
    HeaderStore(c, s.mem, plan.start, MarkerMeta(c, plan));
    OthersKeep(c, s, s', p, Offset(c, plan.start), ToBytes(MarkerMeta(c, plan), c.layout.Word()));
    assert RecordMemory(c, s', idx);
    FillFrame(c, s, s', p, ClearHeader);
  }

  /** KeepOtherMemory for a store by the filling producer p into its own record. */
  lemma OthersKeep(c: Config, s: State, s': State, p: nat, off: nat, bs: seq<byte>)
    requires Inv(c, s) && p in s.producers && s.producers[p].Filling? && p in s'.producers
    requires var Filling(parts, plan, idx, stage) := s.producers[p];
             || (plan.fake != 0 && !stage.CopyPart?
                 && Offset(c, plan.start) <= off && off + |bs| <= Offset(c, plan.start) + plan.fake)
             || (Offset(c, plan.RecordPos()) <= off && off + |bs| <= Offset(c, plan.RecordPos()) + plan.total)
    requires off + |bs| <= |s.mem|
    requires s' == s.(mem := Store(s.mem, off, bs), producers := s.producers[p := s'.producers[p]],
                      records := s'.records)
    requires var idx := s.producers[p].idx;
             && |s'.records| == |s.records|
             && (forall j :: 0 <= j < |s.records| && j != idx ==> s'.records[j] == s.records[j])
    ensures forall j :: |s.delivered| <= j < |s'.records| && j != s.producers[p].idx ==> RecordMemory(c, s', j)
  {
    FillingFacts(c, s, p);
    KeepOtherMemory(c, s, s', s.producers[p].idx, off, bs);
  }

  lemma FillClearKeeps(c: Config, s: State, p: nat)
    requires Inv(c, s) && p in s.producers && s.producers[p].Filling? && s.producers[p].stage.ClearHeader?
    ensures Inv(c, FillStep(c, s, p))
  {
    hide IsPow2, FromBytes, ToBytes, EncodeMeta, PlanPush, PlanFits, ConsumerOk, History;
    var s' := FillStep(c, s, p);
    var Filling(parts, plan, idx, stage) := s.producers[p];
    FillingFacts(c, s, p);
    PlanSizes(c, |Payload(parts)|, plan);
    HeaderStore(c, s.mem, plan.RecordPos(), 0);
    var bs := ToBytes(0, c.layout.Word());
    OthersKeep(c, s, s', p, Offset(c, plan.RecordPos()), bs);
    if plan.fake != 0 { StoreInOtherHalf(c, s.mem, Offset(c, plan.RecordPos()), bs, plan, |Payload(parts)|); }
    assert RecordMemory(c, s, idx);
    assert MarkerStored(c, s.mem, plan) ==> MarkerStored(c, s'.mem, plan) by {
      if plan.fake != 0 {
        SubLoad(s.mem, s'.mem, Offset(c, plan.start), plan.fake, Offset(c, plan.start), c.layout.Word());
      }
    }
    assert RecordMemory(c, s', idx);
    FillFrame(c, s, s', p, PublishWrite);
  }

  lemma FillPublishKeeps(c: Config, s: State, p: nat)
    requires Inv(c, s) && p in s.producers && s.producers[p].Filling? && s.producers[p].stage.PublishWrite?
    ensures Inv(c, FillStep(c, s, p))
  {
    hide PlanFits, Memory, FillingMemory, RecordMemory, MarkerDue, History, ConsumerOk, Positions,
      IsPow2, FromBytes, ToBytes, EncodeMeta, PlanPush;
    var s' := FillStep(c, s, p);
    PublishMemory(c, s, s', p);
    FillingFacts(c, s, p);
    PublishPositions(c, s, s', s.producers[p].plan);
    forall q {:trigger ProducerOk(c, s', q)} | q in s'.producers ensures ProducerOk(c, s', q) {
      if q != p {
        assert ProducerOk(c, s, q);
        LastRecordOwner(c, s, p, q);
      }
    }
  }

  /** At most one producer is between its winning compare-and-swap and its publication. */
  lemma LastRecordOwner(c: Config, s: State, p: nat, q: nat)
    requires Inv(c, s) && p in s.producers && q in s.producers && p != q
    requires s.producers[p].Filling? && !s.producers[p].stage.CopyPart?
    ensures s.producers[q].Filling? ==> s.producers[q].stage.CopyPart?
  {
    hide PlanFits, Memory, History, ConsumerOk, Positions;
    assert ProducerOk(c, s, p) && ProducerOk(c, s, q);
  }

  lemma PublishPositions(c: Config, s: State, s': State, plan: Plan)
    requires c.cap > 0 && Positions(c, s) && History(c, s) && ConsumerOk(c, s)
    requires |s.delivered| < |s.records| && s.records[|s.records| - 1].plan == plan
    requires s.write == plan.start <= plan.End() == s.reserve
    requires s'.records == s.records && s'.delivered == s.delivered && s'.consumer == s.consumer
    requires s'.reserve == s.reserve && s'.write == s.reserve && s'.read == s.read
    ensures Positions(c, s') && History(c, s') && ConsumerOk(c, s')
  {
    hide PlanFits;
  }

  lemma PublishMemory(c: Config, s: State, s': State, p: nat)
    requires Inv(c, s) && p in s.producers && s.producers[p].Filling? && s.producers[p].stage.PublishWrite?
    requires s' == FillStep(c, s, p)
    ensures Memory(c, s')
  {
    hide Inv, PlanFits, FromBytes, ToBytes, EncodeMeta, IsPow2;
    var Filling(parts, plan, idx, stage) := s.producers[p];
    FillingFacts(c, s, p);
    PlanSizes(c, |Payload(parts)|, plan);
    InvParts(c, s);
    SameMemElsewhere(c, s, s', idx);
    assert DataStored(c, s'.mem, plan, []);
    assert RecordMemory(c, s', idx);
  }

  lemma InvParts(c: Config, s: State)
    requires Inv(c, s)
    ensures ValidCapacity(c.layout, c.cap) && |s.mem| == c.cap
  {
  }

  /** KeepAllMemory for a step of the filling producer of record i that stores nothing. */
  lemma SameMemElsewhere(c: Config, s: State, s': State, i: nat)
    requires Inv(c, s) && |s.delivered| <= i < |s.records| && !s.records[i].done
    requires s'.mem == s.mem && s'.records == s.records && s'.delivered == s.delivered && s'.read == s.read
    requires s'.consumer == s.consumer
    requires forall q :: q in s.producers && q != s.records[i].owner ==>
                           q in s'.producers && s'.producers[q] == s.producers[q]
    ensures forall j :: |s.delivered| <= j < |s.records| && j != i ==> RecordMemory(c, s', j)
  {
    hide PlanFits;
    forall j | |s.delivered| <= j < |s.records| && j != i
      ensures RecordMemory(c, s', j)
    {
      assert RecordMemory(c, s, j);
      if !s.records[j].done { assert ProducerOk(c, s, s.records[j].owner); }
      assert PlanFits(c.layout, c.cap, |s.records[j].data|, s.records[j].plan);
      PlanSizes(c, |s.records[j].data|, s.records[j].plan);
      KeepRecordMemory(c, s, s', j);
    }
  }

  /** memcpy of the next part: right behind the parts already copied. */
  lemma FillCopyKeeps(c: Config, s: State, p: nat)
    requires Inv(c, s) && p in s.producers && s.producers[p].Filling? && s.producers[p].stage.CopyPart?
    requires s.producers[p].stage.next < |s.producers[p].parts|
    ensures Inv(c, FillStep(c, s, p))
  {
    hide PlanFits, Memory, FromBytes, ToBytes, EncodeMeta, Offset, History, ConsumerOk, Positions, ProducerOk, Owners;
    var s' := FillStep(c, s, p);
    CopyKeepsMemory(c, s, s', p);
    FillFrame(c, s, s', p, CopyPart(s.producers[p].stage.next + 1));
  }

  lemma CopyKeepsMemory(c: Config, s: State, s': State, p: nat)
    requires Inv(c, s) && p in s.producers && s.producers[p].Filling? && s.producers[p].stage.CopyPart?
    requires s.producers[p].stage.next < |s.producers[p].parts|
    requires s' == FillStep(c, s, p)
    ensures |s'.mem| == c.cap && Memory(c, s')
  {
    hide Inv, PlanFits, FromBytes, ToBytes, EncodeMeta, IsPow2, StorePart;
    var Filling(parts, plan, idx, stage) := s.producers[p];
    FillingFacts(c, s, p);
    InvParts(c, s);
    CopyOthers(c, s, s', p);
    CopyMemory(c, s.mem, plan, parts, stage.next);
    assert RecordMemory(c, s', idx);
  }

  lemma CopyOthers(c: Config, s: State, s': State, p: nat)
    requires Inv(c, s) && p in s.producers && s.producers[p].Filling? && s.producers[p].stage.CopyPart?
    requires s.producers[p].stage.next < |s.producers[p].parts|
    requires s' == FillStep(c, s, p)
    ensures forall j :: |s.delivered| <= j < |s'.records| && j != s.producers[p].idx ==> RecordMemory(c, s', j)
  {
    hide Inv, PlanFits, FromBytes, ToBytes, EncodeMeta, IsPow2, RecordMemory, FillingMemory, StorePart, Offset;
    var Filling(parts, plan, idx, stage) := s.producers[p];
    var part := parts[stage.next];
    FillingFacts(c, s, p);
    InvParts(c, s);
    if part == [] {
      EmptyStore(c, s.mem, plan.RecordPos() + c.layout.Word(), |Flat(parts, stage.next)|);
      SameMemElsewhere(c, s, s', idx);
    } else {
      PartPlace(c, s.mem, plan, parts, stage.next);
      OthersKeep(c, s, s', p, DataOffset(c, plan) + |Flat(parts, stage.next)|, part);
    }
  }

  /** A part that is not empty is stored inside its record, behind the parts before it. */
  lemma PartPlace(c: Config, mem: seq<byte>, plan: Plan, parts: seq<seq<byte>>, next: nat)
    requires c.cap > 0 && |mem| == c.cap && PlanFits(c.layout, c.cap, |Payload(parts)|, plan)
    requires next < |parts| && parts[next] != []
    ensures var off := DataOffset(c, plan) + |Flat(parts, next)|;
            && Offset(c, plan.RecordPos()) <= off
            && off + |parts[next]| <= Offset(c, plan.RecordPos()) + plan.total <= |mem|
            && StorePart(c, mem, plan.RecordPos() + c.layout.Word(), |Flat(parts, next)|, parts[next])
               == Store(mem, off, parts[next])
  {
    hide PlanFits, Offset, Store, Payload;
    PlanSizes(c, |Payload(parts)|, plan);
    FlatPrefix(parts, next + 1);
    DataOffsetInside(c, plan.RecordPos());
  }

  lemma EmptyStore(c: Config, mem: seq<byte>, dst: nat, at: nat)
    requires c.cap > 0
    ensures StorePart(c, mem, dst, at, []) == mem
  {
  }

  /** One word behind a record header does not wrap when the record has payload there. */
  lemma DataOffsetInside(c: Config, pos: nat)
    requires c.cap > 0
    ensures Offset(c, pos) + c.layout.Word() < c.cap ==>
              Offset(c, pos + c.layout.Word()) == Offset(c, pos) + c.layout.Word()
  {
    if Offset(c, pos) + c.layout.Word() < c.cap {
      ModUnique(pos + c.layout.Word(), c.cap, pos / c.cap, Offset(c, pos) + c.layout.Word());
    }
  }

  /** One copied part on memory alone. */
  lemma CopyMemory(c: Config, mem: seq<byte>, plan: Plan, parts: seq<seq<byte>>, next: nat)
    requires ValidCapacity(c.layout, c.cap) && |mem| == c.cap
    requires PlanFits(c.layout, c.cap, |Payload(parts)|, plan) && next < |parts|
    requires HeaderAt(c, mem, plan.RecordPos()) == 0 && DataStored(c, mem, plan, Flat(parts, next))
    ensures var mem' := StorePart(c, mem, plan.RecordPos() + c.layout.Word(), |Flat(parts, next)|, parts[next]);
            && HeaderAt(c, mem', plan.RecordPos()) == 0
            && DataStored(c, mem', plan, Flat(parts, next + 1))
            && (plan.End() <= plan.start + c.cap && MarkerStored(c, mem, plan) ==> MarkerStored(c, mem', plan))
  {
    hide FromBytes, EncodeMeta, IsPow2, PlanFits;
    var part := parts[next];
    FlatPrefix(parts, next + 1);
    PlanSizes(c, |Payload(parts)|, plan);
    if part == [] {
      EmptyStore(c, mem, plan.RecordPos() + c.layout.Word(), |Flat(parts, next)|);
      assert Flat(parts, next + 1) == Flat(parts, next);
    } else {
      DataOffsetInside(c, plan.RecordPos());
      CopyBytes(c, mem, plan, Flat(parts, next), part, |Payload(parts)|);
    }
  }

  lemma CopyBytes(c: Config, mem: seq<byte>, plan: Plan, done: seq<byte>, part: seq<byte>, size: nat)
    requires ValidCapacity(c.layout, c.cap) && |mem| == c.cap
    requires PlanFits(c.layout, c.cap, size, plan) && |done| + |part| <= size && part != []
    requires DataStored(c, mem, plan, done)
    ensures DataOffset(c, plan) + |done| + |part| <= c.cap
    ensures var mem' := Store(mem, DataOffset(c, plan) + |done|, part);
            && HeaderAt(c, mem', plan.RecordPos()) == HeaderAt(c, mem, plan.RecordPos())
            && DataStored(c, mem', plan, done + part)
            && (plan.End() <= plan.start + c.cap && MarkerStored(c, mem, plan) ==> MarkerStored(c, mem', plan))
  {
    hide FromBytes, EncodeMeta, IsPow2, PlanFits;
    PlanSizes(c, size, plan);
    var off := DataOffset(c, plan) + |done|;
    var mem' := Store(mem, off, part);
    if plan.fake != 0 && plan.End() <= plan.start + c.cap {
      StoreInOtherHalf(c, mem, off, part, plan, size);
      SubLoad(mem, mem', Offset(c, plan.start), plan.fake, Offset(c, plan.start), c.layout.Word());
    }
    LoadStoreOther(mem, off, part, Offset(c, plan.RecordPos()), c.layout.Word());
    LoadStoreAppend(mem, DataOffset(c, plan), |done|, part);
  }

  /** The committing header store: the record is complete and changes from filling to done. */
  lemma FillCommitKeeps(c: Config, s: State, p: nat)
    requires Inv(c, s) && p in s.producers && s.producers[p].Filling? && s.producers[p].stage.CopyPart?
    requires s.producers[p].stage.next == |s.producers[p].parts|
    ensures Inv(c, FillStep(c, s, p))
  {
    hide PlanFits, Memory, FromBytes, ToBytes, EncodeMeta, Offset, History, ConsumerOk, Positions, ProducerOk, Owners;
    var s' := FillStep(c, s, p);
    CommitKeepsMemory(c, s, s', p);
    CommitBookkeeping(c, s, s', p);
  }

  lemma CommitKeepsMemory(c: Config, s: State, s': State, p: nat)
    requires Inv(c, s) && p in s.producers && s.producers[p].Filling? && s.producers[p].stage.CopyPart?
    requires s.producers[p].stage.next == |s.producers[p].parts|
    requires s' == FillStep(c, s, p)
    ensures |s'.mem| == c.cap && Memory(c, s')
  {
    hide Inv, PlanFits, FromBytes, ToBytes, EncodeMeta, IsPow2;
    var Filling(parts, plan, idx, stage) := s.producers[p];
    FillingFacts(c, s, p);
    InvParts(c, s);
    PlanSizes(c, |Payload(parts)|, plan);
    HeaderWords(c, |Payload(parts)|, plan);
    HeaderStore(c, s.mem, plan.RecordPos(), ValidMeta(c, plan));
    CommitNotClearing(c, s, p);
    OthersKeep(c, s, s', p, Offset(c, plan.RecordPos()), ToBytes(ValidMeta(c, plan), c.layout.Word()));
    CommitMemory(c, s.mem, plan, Payload(parts));
    assert RecordMemory(c, s', idx);
  }

  /** The committing store on memory alone. */
  lemma CommitMemory(c: Config, mem: seq<byte>, plan: Plan, data: seq<byte>)
    requires ValidCapacity(c.layout, c.cap) && |mem| == c.cap
    requires PlanFits(c.layout, c.cap, |data|, plan) && DataStored(c, mem, plan, data)
    ensures var mem' := PutHeader(c, mem, plan.RecordPos(), ValidMeta(c, plan));
            && HeaderAt(c, mem', plan.RecordPos()) == ValidMeta(c, plan)
            && DataStored(c, mem', plan, data)
            && (plan.End() <= plan.start + c.cap && MarkerStored(c, mem, plan) ==> MarkerStored(c, mem', plan))
  {
    PlanSizes(c, |data|, plan);
    HeaderWords(c, |data|, plan);
    var bs := ToBytes(ValidMeta(c, plan), c.layout.Word());
    HeaderStore(c, mem, plan.RecordPos(), ValidMeta(c, plan));
    var mem' := Store(mem, Offset(c, plan.RecordPos()), bs);
    if plan.fake != 0 && plan.End() <= plan.start + c.cap {
      StoreInOtherHalf(c, mem, Offset(c, plan.RecordPos()), bs, plan, |data|);
      SubLoad(mem, mem', Offset(c, plan.start), plan.fake, Offset(c, plan.start), c.layout.Word());
    }
    LoadStoreOther(mem, Offset(c, plan.RecordPos()), bs, DataOffset(c, plan), |data|);
  }

  /** The consumer is not in the middle of releasing a record that is not committed yet. */
  lemma CommitNotClearing(c: Config, s: State, p: nat)
    requires Inv(c, s) && p in s.producers && s.producers[p].Filling?
    ensures s.producers[p].idx == |s.delivered| ==> !s.consumer.ReleaseAdvance?
  {
    hide PlanFits, Memory, History, Positions, Owners, Payload, IsPow2;
    assert ProducerOk(c, s, p);
  }

  lemma CommitBookkeeping(c: Config, s: State, s': State, p: nat)
    requires Inv(c, s) && p in s.producers && s.producers[p].Filling? && s.producers[p].stage.CopyPart?
    requires s.producers[p].stage.next == |s.producers[p].parts|
    requires s' == FillStep(c, s, p)
    ensures Positions(c, s') && History(c, s') && Owners(s') && ConsumerOk(c, s')
    ensures forall q :: q in s'.producers ==> ProducerOk(c, s', q)
  {
    hide IsPow2, FromBytes, ToBytes, EncodeMeta, PlanPush, PlanFits, Memory, PutHeader, StorePart,
      FillingMemory, RecordMemory, MarkerDue, ConsumerOk, Positions, History;
    FillingFacts(c, s, p);
    MarkDone(c, s, s', s.producers[p].idx);
    forall q | q in s'.producers ensures ProducerOk(c, s', q) {
      if q != p { assert ProducerOk(c, s, q); }
    }
  }

  lemma MarkDone(c: Config, s: State, s': State, i: nat)
    requires c.cap > 0 && Positions(c, s) && History(c, s) && ConsumerOk(c, s)
    requires |s.delivered| <= i < |s.records| && s.records[i].plan.End() <= s.write
    requires s.records[i].plan.total > 0
    requires s'.records == s.records[i := s.records[i].(done := true)]
    requires s'.delivered == s.delivered && s'.consumer == s.consumer
    requires s'.reserve == s.reserve && s'.write == s.write && s'.read == s.read
    ensures Positions(c, s') && History(c, s') && ConsumerOk(c, s')
  {
    hide IsPow2, FromBytes, ToBytes, EncodeMeta, PlanPush, PlanFits, ConsumerOk;
    assert forall j :: 0 <= j < |s.records| ==> s'.records[j].plan == s.records[j].plan;
    assert forall j :: 0 <= j < |s.records| ==> s'.records[j].data == s.records[j].data;
    MarkDoneConsumer(c, s, s', i);
  }

  lemma MarkDoneConsumer(c: Config, s: State, s': State, i: nat)
    requires c.cap > 0 && ConsumerOk(c, s) && i < |s.records|
    requires s'.records == s.records[i := s.records[i].(done := true)]
    requires s'.delivered == s.delivered && s'.consumer == s.consumer && s'.write == s.write && s'.read == s.read
    ensures ConsumerOk(c, s')
  {
    hide Offset;
  }

  // ---- the consumer ----

  /** Consumer steps that change nothing but its own state. */
  lemma LocalConsumerKeeps(c: Config, s: State, s': State)
    requires Inv(c, s) && !s.consumer.SkipAdvance? && !s.consumer.ReleaseAdvance?
    requires s' == s.(consumer := s'.consumer, lastAcquire := s'.lastAcquire, lastRelease := s'.lastRelease)
    requires s'.lastAcquire in {Ok, Empty} && s'.lastRelease == Ok
    requires c.cap > 0 && ConsumerOk(c, s')
    ensures Inv(c, s')
  {
    hide PlanFits, IsPow2, RecordMemory, ConsumerOk;
    KeepAllMemory(c, s, s');
    forall q {:trigger ProducerOk(c, s', q)} | q in s'.producers ensures ProducerOk(c, s', q) {
      assert ProducerOk(c, s, q);
    }
  }

  /** Behind the read position there is always a whole published record, or nothing published at all. */
  lemma HeadPublished(c: Config, s: State)
    requires Inv(c, s) && s.read < s.write
    ensures var k := |s.delivered|;
            && k < |s.records| && s.records[k].plan.End() <= s.write
            && (s.read == s.records[k].plan.start || s.read == s.records[k].plan.RecordPos())
  {
    hide PlanFits, IsPow2, Memory, ConsumerOk, ProducerOk, Owners;
    var k, n := |s.delivered|, |s.records|;
    if k < n - 1 { assert s.records[k].plan.End() <= s.records[n - 1].plan.start; }
  }

  /**
   What the consumer finds at the read position of a published head record: the marker, the header of the
   committed record, or zero while its producer is still copying; never stale payload.
   */
  lemma HeadHeader(c: Config, s: State)
    requires Inv(c, s) && |s.delivered| < |s.records| && s.records[|s.delivered|].plan.End() <= s.write
    requires !s.consumer.SkipAdvance? && !s.consumer.ReleaseAdvance?
    ensures var r := s.records[|s.delivered|];
            HeaderAt(c, s.mem, s.read) ==
            if s.read == r.plan.start && r.plan.fake != 0 then MarkerMeta(c, r.plan)
            else if r.done then ValidMeta(c, r.plan) else 0
    ensures var r := s.records[|s.delivered|];
            && PlanFits(c.layout, c.cap, |r.data|, r.plan)
            && (r.plan.fake == 0 || s.read == r.plan.RecordPos() || s.read == r.plan.start)
            && (r.plan.fake == 0 ==> s.read == r.plan.RecordPos())
  {
    hide IsPow2, FromBytes, EncodeMeta;
    var k := |s.delivered|;
    assert RecordMemory(c, s, k);
    if !s.records[k].done { assert ProducerOk(c, s, s.records[k].owner); }
  }

  /** No acquire ends with a corruption or invalid-stride error, and a loan always names the head record. */
  lemma AcquireKeeps(c: Config, s: State)
    requires Inv(c, s) && (s.consumer.AcquireRead? || s.consumer.AcquireWrite? || s.consumer.AcquireHeader?)
    ensures Inv(c, ConsumerStep(c, s))
  {
    hide PlanFits, IsPow2, RecordMemory, Memory, Owners, EncodeMeta, FromBytes, ProducerOk;
    var s' := ConsumerStep(c, s);
    match s.consumer {
      case AcquireRead => LocalConsumerKeeps(c, s, s');
      case AcquireWrite(readPos) =>
        if s.read < s.write { HeadPublished(c, s); }
        LocalConsumerKeeps(c, s, s');
      case AcquireHeader(readPos, used) =>
        var r := s.records[|s.delivered|];
        HeadHeader(c, s);
        HeaderWords(c, |r.data|, r.plan);
        PlanSizes(c, |r.data|, r.plan);
        LocalConsumerKeeps(c, s, s');
    }
  }

  /** Releasing the loaned record never fails. */
  lemma ReleaseKeeps(c: Config, s: State)
    requires Inv(c, s) && (s.consumer.ReleaseRead? || s.consumer.ReleaseWrite? || s.consumer.ReleaseHeader?)
    ensures Inv(c, ConsumerStep(c, s))
  {
    hide PlanFits, IsPow2, RecordMemory, Memory, Owners, EncodeMeta, HeaderAt, ProducerOk, MetaIsValid, MetaIsFake,
      Offset;
    var s' := ConsumerStep(c, s);
    var r := s.records[|s.delivered|];
    DonePublished(c, s);
    HeadHeader(c, s);
    HeaderWords(c, |r.data|, r.plan);
    PlanSizes(c, |r.data|, r.plan);
    LocalConsumerKeeps(c, s, s');
  }

  lemma DonePublished(c: Config, s: State)
    requires Inv(c, s) && |s.delivered| < |s.records| && s.records[|s.delivered|].done
    ensures s.records[|s.delivered|].plan.End() <= s.write
  {
    hide PlanFits, IsPow2, Memory, ConsumerOk, ProducerOk, Owners;
    var k, n := |s.delivered|, |s.records|;
    if k < n - 1 { assert s.records[k].plan.End() <= s.records[n - 1].plan.start; }
  }

  /** The consumer clears the header it is about to step over, inside the head record. */
  lemma ClearKeeps(c: Config, s: State)
    requires Inv(c, s) && (s.consumer.SkipClear? || s.consumer.ReleaseClear?)
    ensures Inv(c, ConsumerStep(c, s))
  {
    hide PlanFits, IsPow2, RecordMemory, Memory, ConsumerStep, PutHeader, ProducerOk, History, Positions, ConsumerOk;
    var s' := ConsumerStep(c, s);
    ClearMemory(c, s, s');
    ClearStep(c, s);
    SameHistory(c, s, s');
    forall q {:trigger ProducerOk(c, s', q)} | q in s'.producers ensures ProducerOk(c, s', q) {
      SameProducer(c, s, s', q);
    }
  }

  lemma SameHistory(c: Config, s: State, s': State)
    requires c.cap > 0 && Positions(c, s) && History(c, s)
    requires s'.records == s.records && s'.delivered == s.delivered
    requires s'.reserve == s.reserve && s'.write == s.write && s'.read == s.read
    ensures Positions(c, s') && History(c, s')
  {
    hide PlanFits;
  }

  lemma SameProducer(c: Config, s: State, s': State, q: nat)
    requires ValidCapacity(c.layout, c.cap) && q in s.producers && q in s'.producers
    requires s.producers[q] == s'.producers[q] && ProducerOk(c, s, q)
    requires s'.records == s.records && s'.delivered == s.delivered && s'.write == s.write && s'.read == s.read
    ensures ProducerOk(c, s', q)
  {
  }

  lemma ClearMemory(c: Config, s: State, s': State)
    requires Inv(c, s) && (s.consumer.SkipClear? || s.consumer.ReleaseClear?) && s' == ConsumerStep(c, s)
    ensures |s'.mem| == c.cap && Memory(c, s')
  {
    hide Inv, PlanFits, IsPow2, EncodeMeta, FromBytes, ToBytes, RecordMemory, ConsumerStep, PutHeader;
    InvParts(c, s);
    ClearStep(c, s);
    ClearOthers(c, s, s');
    if s.consumer.SkipClear? { SkipClearMemory(c, s, s'); } else { ReleaseClearMemory(c, s, s'); }
  }

  lemma ClearStep(c: Config, s: State)
    requires Inv(c, s) && (s.consumer.SkipClear? || s.consumer.ReleaseClear?)
    ensures var s' := ConsumerStep(c, s);
            && s' == s.(mem := PutHeader(c, s.mem, s.read, 0), consumer := s'.consumer)
            && (s.consumer.SkipClear? ==> s'.consumer.SkipAdvance?)
            && (s.consumer.ReleaseClear? ==> s'.consumer.ReleaseAdvance?)
            && ConsumerOk(c, s')
  {
    hide PlanFits, IsPow2, Memory, PutHeader;
  }

  lemma ClearOthers(c: Config, s: State, s': State)
    requires Inv(c, s) && (s.consumer.SkipClear? || s.consumer.ReleaseClear?)
    requires s' == s.(mem := PutHeader(c, s.mem, s.read, 0), consumer := s'.consumer)
    ensures forall j :: |s.delivered| <= j < |s'.records| && j != |s.delivered| ==> RecordMemory(c, s', j)
  {
    hide Inv, PlanFits, IsPow2, EncodeMeta, FromBytes, ToBytes, RecordMemory, PutHeader, Offset, Store;
    var k := |s.delivered|;
    InvParts(c, s);
    ConsumerAtHead(c, s);
    var r := s.records[k];
    UnreadWindow(c, s, k);
    PlanSizes(c, |r.data|, r.plan);
    HeaderStore(c, s.mem, s.read, 0);
    forall j | |s.delivered| <= j < |s.records| && !s.records[j].done
      ensures s.records[j].owner in s.producers
    {
      OwnerFills(c, s, j);
    }
    KeepOtherMemory(c, s, s', k, Offset(c, s.read), ToBytes(0, c.layout.Word()));
  }

  lemma ConsumerAtHead(c: Config, s: State)
    requires Inv(c, s) && (s.consumer.SkipClear? || s.consumer.ReleaseClear?)
    ensures |s.delivered| < |s.records| && s.consumer.readPos == s.read
    ensures var r := s.records[|s.delivered|];
            if s.consumer.SkipClear? then s.read == r.plan.start && r.plan.fake != 0
            else s.read == r.plan.RecordPos() && r.done && (r.plan.fake != 0 ==> s.read > r.plan.start)
  {
  }

  lemma SkipClearMemory(c: Config, s: State, s': State)
    requires Inv(c, s) && s.consumer.SkipClear? && s' == ConsumerStep(c, s)
    ensures |s.delivered| < |s'.records| && RecordMemory(c, s', |s.delivered|)
  {
    hide Inv, PlanFits, IsPow2, EncodeMeta, FromBytes;
    var k := |s.delivered|;
    InvParts(c, s);
    ConsumerAtHead(c, s);
    var r := s.records[k];
    UnreadWindow(c, s, k);
    PlanSizes(c, |r.data|, r.plan);
    HeaderStore(c, s.mem, s.read, 0);
    StoreInOtherHalf(c, s.mem, Offset(c, s.read), ToBytes(0, c.layout.Word()), r.plan, |r.data|);
    SameRecordFacts(c, s.mem, s'.mem, r.plan, |r.data|, false);
    if !r.done {
      OwnerFills(c, s, k);
      var owner := s.producers[r.owner];
      if owner.stage.CopyPart? { FlatPrefix(owner.parts, owner.stage.next); }
    }
  }

  lemma ReleaseClearMemory(c: Config, s: State, s': State)
    requires Inv(c, s) && s.consumer.ReleaseClear? && s' == ConsumerStep(c, s)
    ensures |s.delivered| < |s'.records| && RecordMemory(c, s', |s.delivered|)
  {
    hide Inv, PlanFits, IsPow2, EncodeMeta, FromBytes;
    var k := |s.delivered|;
    InvParts(c, s);
    ConsumerAtHead(c, s);
    var r := s.records[k];
    UnreadWindow(c, s, k);
    PlanSizes(c, |r.data|, r.plan);
    HeaderStore(c, s.mem, s.read, 0);
    LoadStoreOther(s.mem, Offset(c, s.read), ToBytes(0, c.layout.Word()), DataOffset(c, r.plan), |r.data|);
  }

  lemma SkipAdvanceKeeps(c: Config, s: State)
    requires Inv(c, s) && s.consumer.SkipAdvance?
    ensures Inv(c, ConsumerStep(c, s))
  {
    hide PlanFits, IsPow2, RecordMemory, Memory, EncodeMeta, FromBytes;
    var s' := ConsumerStep(c, s);
    var k := |s.delivered|;
    UnreadWindow(c, s, k);
    KeepAllMemory(c, s, s');
    forall q {:trigger ProducerOk(c, s', q)} | q in s'.producers ensures ProducerOk(c, s', q) {
      assert ProducerOk(c, s, q);
    }
  }

  lemma ReleaseAdvanceKeeps(c: Config, s: State)
    requires Inv(c, s) && s.consumer.ReleaseAdvance?
    ensures Inv(c, ConsumerStep(c, s))
  {
    hide PlanFits, IsPow2, RecordMemory, Memory, EncodeMeta, FromBytes;
    var s' := ConsumerStep(c, s);
    DonePublished(c, s);
    KeepAllMemory(c, s, s');
    ReleaseHistory(c, s, s');
    forall q {:trigger ProducerOk(c, s', q)} | q in s'.producers ensures ProducerOk(c, s', q) {
      assert ProducerOk(c, s, q);
    }
  }

  lemma ReleaseHistory(c: Config, s: State, s': State)
    requires Inv(c, s) && s.consumer.ReleaseAdvance? && s' == ConsumerStep(c, s)
    ensures History(c, s') && Positions(c, s')
  {
    hide PlanFits, IsPow2, RecordMemory, Memory, EncodeMeta, FromBytes, ProducerOk, Owners;
    DonePublished(c, s);
    var k, n := |s.delivered|, |s.records|;
    assert s'.delivered[..k] == s.delivered;
    if k + 1 < n { assert s.records[k + 1].plan.start == s.records[k].plan.End(); }
  }

  lemma StartConsumerKeeps(c: Config, s: State, a: Action)
    requires Inv(c, s) && (a.StartAcquire? || a.StartRelease?)
    ensures Inv(c, Step(c, s, a))
  {
    hide PlanFits, IsPow2, Memory, EncodeMeta, FromBytes, ProducerOk, Owners, Positions;
    var s' := Step(c, s, a);
    if s' != s {
      if a.StartRelease? { LoanIsRecord(c, s); }
      LocalConsumerKeeps(c, s, s');
    }
  }

  /** While a record is on loan its bytes in storage are the bytes that were pushed. */
  lemma LoanIsRecord(c: Config, s: State)
    requires Inv(c, s) && s.consumer.Loan?
    ensures s.consumer.off + s.consumer.size <= |s.mem|
    ensures Load(s.mem, s.consumer.off, s.consumer.size) == s.records[|s.delivered|].data
  {
    assert RecordMemory(c, s, |s.delivered|);
  }

  // ---- all steps ----

  lemma StepKeeps(c: Config, s: State, a: Action)
    requires Inv(c, s)
    ensures Inv(c, Step(c, s, a))
  {
    hide Inv;
    InvParts(c, s);
    match a {
      case StartPush(p, parts) => StartPushKeeps(c, s, p, parts);
      case StepProducer(p) => if p in s.producers { ProducerKeeps(c, s, p); }
      case FailSwap(p) =>
        if p in s.producers && s.producers[p].Reserve? { RetryKeeps(c, s, p); }
      case StartAcquire => StartConsumerKeeps(c, s, a);
      case StartRelease => StartConsumerKeeps(c, s, a);
      case StepConsumer => ConsumerKeeps(c, s);
    }
  }

  lemma RetryKeeps(c: Config, s: State, p: nat)
    requires Inv(c, s) && p in s.producers && s.producers[p].Reserve?
    ensures Inv(c, Step(c, s, FailSwap(p)))
  {
    assert ProducerOk(c, s, p);
    LocalProducerKeeps(c, s, p, LoadWrite(s.producers[p].parts));
  }

  lemma ProducerKeeps(c: Config, s: State, p: nat)
    requires Inv(c, s) && p in s.producers
    ensures ValidCapacity(c.layout, c.cap) && Inv(c, ProducerStep(c, s, p))
  {
    hide Inv, FillStep;
    InvParts(c, s);
    match s.producers[p] {
      case Idle(_) =>
      case LoadWrite(_) => PlanningKeeps(c, s, p);
      case LoadRead(_, _) => PlanningKeeps(c, s, p);
      case Reserve(_, _) => ReserveKeeps(c, s, p);
      case Filling(parts, plan, idx, stage) =>
        match stage {
          case PutMarker => FillMarkerKeeps(c, s, p);
          case ClearHeader => FillClearKeeps(c, s, p);
          case PublishWrite => FillPublishKeeps(c, s, p);
          case CopyPart(next) =>
            FillingFacts(c, s, p);
            if next < |parts| { FillCopyKeeps(c, s, p); } else { FillCommitKeeps(c, s, p); }
        }
    }
  }

  lemma ConsumerKeeps(c: Config, s: State)
    requires Inv(c, s)
    ensures ValidCapacity(c.layout, c.cap) && Inv(c, ConsumerStep(c, s))
  {
    hide Inv;
    InvParts(c, s);
    match s.consumer {
      case Ready => case Loan(_, _) =>
      case AcquireRead => AcquireKeeps(c, s);
      case AcquireWrite(_) => AcquireKeeps(c, s);
      case AcquireHeader(_, _) => AcquireKeeps(c, s);
      case SkipClear(_, _) => ClearKeeps(c, s);
      case SkipAdvance(_, _) => SkipAdvanceKeeps(c, s);
      case ReleaseRead(_, _) => ReleaseKeeps(c, s);
      case ReleaseWrite(_, _, _) => ReleaseKeeps(c, s);
      case ReleaseHeader(_, _, _, _) => ReleaseKeeps(c, s);
      case ReleaseClear(_, _, _) => ClearKeeps(c, s);
      case ReleaseAdvance(_, _, _) => ReleaseAdvanceKeeps(c, s);
    }
  }
}
