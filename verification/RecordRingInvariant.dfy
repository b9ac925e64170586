/** The inductive invariant of the record ring and the proof that every step of every thread keeps it. */
module RecordRingInvariant {
  import opened Arithmetic
  import opened RecordWords
  import opened RecordFormat
  import opened RecordRing

  // ---- what memory holds for one record ----

  function DataOffset(c: Config, plan: Plan): nat
    requires c.cap > 0
  {
    Offset(c, plan.RecordPos()) + c.layout.Word()
  }

  ghost predicate MarkerStored(c: Config, mem: seq<byte>, plan: Plan)
    requires c.cap > 0
  {
    plan.fake != 0 ==> HeaderAt(c, mem, plan.start) == MarkerMeta(c, plan)
  }

  ghost predicate DataStored(c: Config, mem: seq<byte>, plan: Plan, data: seq<byte>)
    requires c.cap > 0
  {
    DataOffset(c, plan) + |data| <= |mem| && Load(mem, DataOffset(c, plan), |data|) == data
  }

  /** A record that no longer waits for its producer. */
  ghost predicate CommittedMemory(c: Config, s: State, i: nat)
    requires c.cap > 0 && i < |s.records|
  {
    var r := s.records[i];
    && DataStored(c, s.mem, r.plan, r.data)
    && (!(i == |s.delivered| && s.consumer.ReleaseAdvance?)
        ==> HeaderAt(c, s.mem, r.plan.RecordPos()) == ValidMeta(c, r.plan))
  }

  /** The bytes of a record its producer is still filling. */
  ghost predicate FillingMemory(c: Config, s: State, i: nat)
    requires c.cap > 0 && i < |s.records|
  {
    var r := s.records[i];
    && r.owner in s.producers && s.producers[r.owner].Filling?
    && match s.producers[r.owner].stage
       case PutMarker => true
       case ClearHeader => true
       case PublishWrite => HeaderAt(c, s.mem, r.plan.RecordPos()) == 0
       case CopyPart(n) =>
         && HeaderAt(c, s.mem, r.plan.RecordPos()) == 0
         && n <= |s.producers[r.owner].parts|
         && DataStored(c, s.mem, r.plan, Flat(s.producers[r.owner].parts, n))
  }

  /** The marker is in memory from its store until the consumer clears it. */
  ghost predicate MarkerDue(s: State, i: nat)
    requires i < |s.records|
  {
    var r := s.records[i];
    && s.read <= r.plan.start
    && !(i == |s.delivered| && s.consumer.SkipAdvance?)
    && (r.done || (r.owner in s.producers && s.producers[r.owner].Filling? && !s.producers[r.owner].stage.PutMarker?))
  }

  ghost predicate RecordMemory(c: Config, s: State, i: nat)
    requires c.cap > 0 && i < |s.records|
  {
    && (MarkerDue(s, i) ==> MarkerStored(c, s.mem, s.records[i].plan))
    && (if s.records[i].done then CommittedMemory(c, s, i) else FillingMemory(c, s, i))
  }

  // ---- positions and history ----

  /** read_pos <= write_pos <= reserve_pos <= read_pos + capacity, in whole records. */
  ghost predicate Positions(c: Config, s: State) {
    && s.read <= s.write <= s.reserve <= s.read + c.cap
    && s.write % c.layout.Word() == 0 && s.reserve % c.layout.Word() == 0
  }

  ghost predicate History(c: Config, s: State) {
    var n, k := |s.records|, |s.delivered|;
    && (forall i :: 0 <= i < n ==> PlanFits(c.layout, c.cap, |s.records[i].data|, s.records[i].plan))
    && (forall i, j :: 0 <= i < j < n ==> s.records[i].plan.End() <= s.records[j].plan.start)
    && (forall i :: 0 < i < n ==> s.records[i].plan.start == s.records[i - 1].plan.End())
    && s.reserve == (if n == 0 then 0 else s.records[n - 1].plan.End())
    && k <= n
    && (if k == n then s.read == s.reserve
        else s.read == s.records[k].plan.start || s.read == s.records[k].plan.RecordPos())
    && (s.write == s.reserve || (k < n && s.write == s.records[n - 1].plan.start && !s.records[n - 1].done))
    && (forall i :: 0 <= i < k ==> s.records[i].done && s.delivered[i] == s.records[i].data)
  }

  ghost predicate ProducerOk(c: Config, s: State, p: nat)
    requires p in s.producers && ValidCapacity(c.layout, c.cap)
  {
    match s.producers[p]
    case Idle(_) => true
    case LoadWrite(parts) => |Payload(parts)| <= MaxRecordSize(c.layout, c.cap)
    case LoadRead(parts, writePos) =>
      |Payload(parts)| <= MaxRecordSize(c.layout, c.cap) && writePos <= s.write && writePos % c.layout.Word() == 0
    case Reserve(parts, plan) =>
      && |Payload(parts)| <= MaxRecordSize(c.layout, c.cap)
      && PlanFits(c.layout, c.cap, |Payload(parts)|, plan)
      && plan.start <= s.write && plan.End() <= s.read + c.cap
    case Filling(parts, plan, idx, stage) =>
      && |s.delivered| <= idx < |s.records|
      && s.records[idx] == RecordOf(plan, parts, p)
      && (if stage.CopyPart? then stage.next <= |parts| && plan.End() <= s.write
          else idx == |s.records| - 1 && s.write == plan.start && (stage.PutMarker? ==> plan.fake != 0))
  }

  ghost predicate Owners(s: State) {
    forall i :: |s.delivered| <= i < |s.records| && !s.records[i].done ==>
      var p := s.records[i].owner;
      p in s.producers && s.producers[p].Filling? && s.producers[p].idx == i
  }

  // ---- the consumer ----

  /** The head record is published and the read position is at its header, past any marker. */
  ghost predicate AtRecord(c: Config, s: State)
    requires c.cap > 0
  {
    var k := |s.delivered|;
    && k < |s.records| && s.records[k].done
    && s.read == s.records[k].plan.RecordPos()
  }

  ghost predicate LoanOk(c: Config, s: State, off: nat)
    requires c.cap > 0
  {
    AtRecord(c, s) && off == DataOffset(c, s.records[|s.delivered|].plan)
  }

  ghost predicate ConsumerOk(c: Config, s: State)
    requires c.cap > 0
  {
    var k := |s.delivered|;
    match s.consumer
    case Ready => true
    case AcquireRead => true
    case AcquireWrite(readPos) => readPos == s.read
    case AcquireHeader(readPos, used) =>
      && readPos == s.read && k < |s.records|
      && s.records[k].plan.End() <= readPos + used <= s.write
    case SkipClear(readPos, stride) => AtMarker(s, readPos, stride)
    case SkipAdvance(readPos, stride) => AtMarker(s, readPos, stride)
    case Loan(off, size) => LoanOk(c, s, off) && size == |s.records[k].data|
    case ReleaseRead(off, seen) => LoanOk(c, s, off) && seen == s.records[k].data
    case ReleaseWrite(off, seen, readPos) =>
      LoanOk(c, s, off) && seen == s.records[k].data && readPos == s.read
    case ReleaseHeader(off, seen, readPos, used) =>
      && LoanOk(c, s, off) && seen == s.records[k].data && readPos == s.read
      && s.records[k].plan.End() <= readPos + used <= s.write
    case ReleaseClear(seen, readPos, stride) =>
      AtRecord(c, s) && seen == s.records[k].data && readPos == s.read && stride == s.records[k].plan.total
    case ReleaseAdvance(seen, readPos, stride) =>
      AtRecord(c, s) && seen == s.records[k].data && readPos == s.read && stride == s.records[k].plan.total
  }

  ghost predicate AtMarker(s: State, readPos: nat, stride: nat) {
    var k := |s.delivered|;
    && k < |s.records| && s.records[k].plan.fake != 0
    && readPos == s.read == s.records[k].plan.start
    && stride == s.records[k].plan.fake
    && s.records[k].plan.End() <= s.write
  }

  ghost predicate Memory(c: Config, s: State)
    requires c.cap > 0
  {
    forall i {:trigger RecordMemory(c, s, i)} :: |s.delivered| <= i < |s.records| ==> RecordMemory(c, s, i)
  }

  ghost predicate Inv(c: Config, s: State) {
    && ValidCapacity(c.layout, c.cap)
    && |s.mem| == c.cap
    && Positions(c, s)
    && History(c, s)
    && (forall p {:trigger ProducerOk(c, s, p)} :: p in s.producers ==> ProducerOk(c, s, p))
    && Owners(s)
    && ConsumerOk(c, s)
    && Memory(c, s)
    && s.lastAcquire in {Ok, Empty} && s.lastRelease == Ok
  }

  // ---- disjointness of the bytes of different records ----

  /** Two runs of positions inside one window of `cap` positions occupy different bytes of storage. */
  lemma Apart(cap: nat, p: nat, n: nat, q: nat, m: nat)
    requires cap > 0 && m > 0
    requires p + n <= q && q + m <= p + cap
    requires p % cap + n <= cap && q % cap + m <= cap
    ensures p % cap + n <= q % cap || q % cap + m <= p % cap
  {
    ModWindow(p, q, cap);
  }

  /** The body of the record, and its marker when that is still ahead of the reader, read the same from mem and mem'. */
  ghost predicate SameRecordBytes(c: Config, mem: seq<byte>, mem': seq<byte>, plan: Plan, markerAhead: bool)
    requires c.cap > 0 && |mem| == |mem'| == c.cap
    requires Offset(c, plan.start) + plan.fake <= c.cap && Offset(c, plan.RecordPos()) + plan.total <= c.cap
  {
    && (markerAhead ==>
          Load(mem, Offset(c, plan.start), plan.fake) == Load(mem', Offset(c, plan.start), plan.fake))
    && Load(mem, Offset(c, plan.RecordPos()), plan.total) == Load(mem', Offset(c, plan.RecordPos()), plan.total)
  }

  lemma SubLoad(mem: seq<byte>, mem': seq<byte>, off: nat, n: nat, o: nat, m: nat)
    requires |mem| == |mem'| && off + n <= |mem| && off <= o && o + m <= off + n
    requires Load(mem, off, n) == Load(mem', off, n)
    ensures Load(mem, o, m) == Load(mem', o, m)
  {
    SliceOfSlice(mem, off, n, o - off, m);
    SliceOfSlice(mem', off, n, o - off, m);
  }

  lemma SliceOfSlice(mem: seq<byte>, off: nat, n: nat, a: nat, m: nat)
    requires off + n <= |mem| && a + m <= n
    ensures Load(mem, off, n)[a..a + m] == Load(mem, off + a, m)
  {
    var x, y := Load(mem, off, n)[a..a + m], Load(mem, off + a, m);
    assert forall t :: 0 <= t < m ==> x[t] == y[t];
  }

  lemma SameRecordFacts(c: Config, mem: seq<byte>, mem': seq<byte>, plan: Plan, size: nat, markerAhead: bool)
    requires ValidCapacity(c.layout, c.cap) && |mem| == |mem'| == c.cap
    requires PlanFits(c.layout, c.cap, size, plan)
    requires SameRecordBytes(c, mem, mem', plan, markerAhead)
    ensures markerAhead ==> (MarkerStored(c, mem, plan) <==> MarkerStored(c, mem', plan))
    ensures HeaderAt(c, mem, plan.RecordPos()) == HeaderAt(c, mem', plan.RecordPos())
    ensures forall d: seq<byte> :: |d| <= size ==> (DataStored(c, mem, plan, d) <==> DataStored(c, mem', plan, d))
  {
    var w := c.layout.Word();
    if markerAhead && plan.fake != 0 {
      SubLoad(mem, mem', Offset(c, plan.start), plan.fake, Offset(c, plan.start), w);
    }
    SubLoad(mem, mem', Offset(c, plan.RecordPos()), plan.total, Offset(c, plan.RecordPos()), w);
    forall d: seq<byte> | |d| <= size
      ensures DataStored(c, mem, plan, d) <==> DataStored(c, mem', plan, d)
    {
      SubLoad(mem, mem', Offset(c, plan.RecordPos()), plan.total, DataOffset(c, plan), |d|);
    }
  }

  /** A store inside a run of positions claimed by one record leaves the unread bytes of another record alone. */
  lemma StoreElsewhere(c: Config, mem: seq<byte>, off: nat, bs: seq<byte>, p: nat, n: nat,
      plan: Plan, size: nat, base: nat)
    requires ValidCapacity(c.layout, c.cap) && |mem| == c.cap
    requires PlanFits(c.layout, c.cap, size, plan)
    requires p % c.cap + n <= c.cap && n > 0
    requires p % c.cap <= off && off + |bs| <= p % c.cap + n
    requires base <= p && p + n <= base + c.cap && base <= plan.RecordPos() && plan.End() <= base + c.cap
    requires p + n <= plan.start || plan.End() <= p
    ensures SameRecordBytes(c, mem, Store(mem, off, bs), plan, base <= plan.start)
  {
    var rp := plan.RecordPos();
    if p + n <= plan.start {
      Apart(c.cap, p, n, rp, plan.total);
      if plan.fake != 0 { Apart(c.cap, p, n, plan.start, plan.fake); }
    } else {
      Apart(c.cap, rp, plan.total, p, n);
      if plan.fake != 0 && base <= plan.start { Apart(c.cap, plan.start, plan.fake, p, n); }
    }
    LoadStoreOther(mem, off, bs, Offset(c, rp), plan.total);
    if plan.fake != 0 && base <= plan.start { LoadStoreOther(mem, off, bs, Offset(c, plan.start), plan.fake); }
  }

  /** A store inside the marker of a record leaves its body alone, and the other way round. */
  lemma StoreInOtherHalf(c: Config, mem: seq<byte>, off: nat, bs: seq<byte>, plan: Plan, size: nat)
    requires ValidCapacity(c.layout, c.cap) && |mem| == c.cap && |bs| > 0
    requires PlanFits(c.layout, c.cap, size, plan) && plan.fake != 0
    requires plan.End() <= plan.start + c.cap
    ensures Offset(c, plan.start) <= off && off + |bs| <= Offset(c, plan.start) + plan.fake ==>
              Load(mem, Offset(c, plan.RecordPos()), plan.total)
              == Load(Store(mem, off, bs), Offset(c, plan.RecordPos()), plan.total)
    ensures Offset(c, plan.RecordPos()) <= off && off + |bs| <= Offset(c, plan.RecordPos()) + plan.total ==>
              Load(mem, Offset(c, plan.start), plan.fake)
              == Load(Store(mem, off, bs), Offset(c, plan.start), plan.fake)
  {
    var rp := plan.RecordPos();
    Apart(c.cap, plan.start, plan.fake, rp, plan.total);
    if Offset(c, plan.start) <= off && off + |bs| <= Offset(c, plan.start) + plan.fake {
      LoadStoreOther(mem, off, bs, Offset(c, rp), plan.total);
    }
    if Offset(c, rp) <= off && off + |bs| <= Offset(c, rp) + plan.total {
      LoadStoreOther(mem, off, bs, Offset(c, plan.start), plan.fake);
    }
  }

  /** Memory facts of record i carry over when its bytes, its producer and the consumer's clearing state stay. */
  lemma KeepRecordMemory(c: Config, s: State, s': State, i: nat)
    requires ValidCapacity(c.layout, c.cap) && |s.mem| == |s'.mem| == c.cap
    requires i < |s.records| && i < |s'.records| && s.records[i] == s'.records[i]
    requires PlanFits(c.layout, c.cap, |s.records[i].data|, s.records[i].plan)
    requires SameRecordBytes(c, s.mem, s'.mem, s.records[i].plan, s.read <= s.records[i].plan.start)
    requires s.read <= s'.read
    requires !s.records[i].done ==>
               var p := s.records[i].owner;
               && p in s.producers && p in s'.producers
               && s.producers[p] == s'.producers[p]
               && s.producers[p].Filling? && s.records[i].data == Payload(s.producers[p].parts)
    requires i == |s.delivered| ==> i == |s'.delivered|
    requires i == |s'.delivered| ==>
               (s.consumer.SkipAdvance? && i == |s.delivered| ==>
                  s'.consumer.SkipAdvance? || s'.read > s.records[i].plan.start)
    requires i == |s'.delivered| && s.consumer.ReleaseAdvance? && i == |s.delivered| ==> s'.consumer.ReleaseAdvance?
    requires RecordMemory(c, s, i)
    ensures RecordMemory(c, s', i)
  {
    var r := s.records[i];
    SameRecordFacts(c, s.mem, s'.mem, r.plan, |r.data|, s.read <= r.plan.start);
    if !r.done && s.producers[r.owner].stage.CopyPart? {
      FlatPrefix(s.producers[r.owner].parts, s.producers[r.owner].stage.next);
    }
  }

  lemma {:induction false} FlatPrefix(parts: seq<seq<byte>>, n: nat)
    requires n <= |parts|
    ensures |Flat(parts, n)| <= |Payload(parts)|
    decreases |parts| - n
  {
    if n < |parts| { FlatPrefix(parts, n + 1); }
  }
}
