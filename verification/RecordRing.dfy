/**
 The multi-producer, single-consumer record ring as a state machine: one step per atomic load, store or
 compare-and-swap and one per copied part, interleaved in any order (sequential consistency).
 Positions are unbounded; RecordFormat relates them to the wrapped counters.
 */
module RecordRing {
  import opened Arithmetic
  import opened RecordWords
  import opened RecordFormat

  datatype Config = Config(layout: Layout, cap: nat)

  datatype Status = Ok | Invalid | QueueFull | Empty | Corrupt

  // ---- local state of the threads ----

  datatype Stage = PutMarker | ClearHeader | PublishWrite | CopyPart(next: nat)

  datatype Producer =
    | Idle(last: Status)
    | LoadWrite(parts: seq<seq<byte>>)
    | LoadRead(parts: seq<seq<byte>>, writePos: nat)
    | Reserve(parts: seq<seq<byte>>, plan: Plan)
      // after the winning compare-and-swap; idx names the record in the history
    | Filling(parts: seq<seq<byte>>, plan: Plan, idx: nat, stage: Stage)

  datatype Consumer =
    | Ready
    | AcquireRead
    | AcquireWrite(readPos: nat)
    | AcquireHeader(readPos: nat, used: nat)
    | SkipClear(readPos: nat, stride: nat)
    | SkipAdvance(readPos: nat, stride: nat)
    | Loan(off: nat, size: nat)
    | ReleaseRead(off: nat, seen: seq<byte>)
    | ReleaseWrite(off: nat, seen: seq<byte>, readPos: nat)
    | ReleaseHeader(off: nat, seen: seq<byte>, readPos: nat, used: nat)
    | ReleaseClear(seen: seq<byte>, readPos: nat, stride: nat)
    | ReleaseAdvance(seen: seq<byte>, readPos: nat, stride: nat)

  /** A record of the history, in the order of the winning compare-and-swaps. */
  datatype Record = Record(plan: Plan, data: seq<byte>, owner: nat, done: bool)

  /**
   `mem`, the three positions and the thread-local states are the program's; `records` (every reservation so
   far) and `delivered` (what the consumer saw in each record it released) only observe.
   */
  datatype State = State(
    mem: seq<byte>,
    reserve: nat, write: nat, read: nat,
    producers: map<nat, Producer>,
    consumer: Consumer,
    lastAcquire: Status,
    lastRelease: Status,
    records: seq<Record>,
    delivered: seq<seq<byte>>)

  datatype Action =
    | StartPush(p: nat, parts: seq<seq<byte>>)
    | StepProducer(p: nat)
    | FailSwap(p: nat)              // the weak compare-and-swap may fail spuriously
    | StartAcquire
    | StartRelease
    | StepConsumer

  // ---- storage ----

  function Offset(c: Config, pos: nat): nat
    requires c.cap > 0
  {
    Slot(pos, c.cap)
  }

  /** The n bytes stored from position pos on; nothing when they would cross the end of storage. */
  function BytesAt(c: Config, mem: seq<byte>, pos: nat, n: nat): seq<byte>
    requires c.cap > 0
  {
    if Offset(c, pos) + n <= |mem| then Load(mem, Offset(c, pos), n) else []
  }

  function HeaderAt(c: Config, mem: seq<byte>, pos: nat): nat
    requires c.cap > 0
  {
    FromBytes(BytesAt(c, mem, pos, c.layout.Word()))
  }

  function PutBytes(c: Config, mem: seq<byte>, pos: nat, bs: seq<byte>): (r: seq<byte>)
    requires c.cap > 0
    ensures |r| == |mem|
  {
    if Offset(c, pos) + |bs| <= |mem| then Store(mem, Offset(c, pos), bs) else mem
  }

  function PutHeader(c: Config, mem: seq<byte>, pos: nat, meta: nat): (r: seq<byte>)
    requires c.cap > 0
    ensures |r| == |mem|
  {
    PutBytes(c, mem, pos, ToBytes(meta, c.layout.Word()))
  }

  /** The first n parts, concatenated. */
  function Flat(parts: seq<seq<byte>>, n: nat): seq<byte>
    requires n <= |parts|
  {
    if n == 0 then [] else Flat(parts, n - 1) + parts[n - 1]
  }

  function Payload(parts: seq<seq<byte>>): seq<byte> { Flat(parts, |parts|) }

  function RecordOf(plan: Plan, parts: seq<seq<byte>>, p: nat): Record {
    Record(plan, Payload(parts), p, false)
  }

  function ValidMeta(c: Config, plan: Plan): nat { EncodeMeta(c.layout, plan.total, plan.padding, false) }

  function MarkerMeta(c: Config, plan: Plan): nat { EncodeMeta(c.layout, plan.fake, 0, true) }

  // ---- steps ----

  function Init(c: Config, pids: set<nat>): State {
    State(seq(c.cap, _ => 0), 0, 0, 0, map p | p in pids :: Idle(Ok), Ready, Ok, Ok, [], [])
  }

  /** Argument checks of `try_pushv`; no part at all means one empty part. */
  function BeginPush(c: Config, parts: seq<seq<byte>>): Producer
    requires ValidCapacity(c.layout, c.cap)
  {
    var ps := if parts == [] then [[]] else parts;
    if |Payload(ps)| > MaxRecordSize(c.layout, c.cap) then Idle(Invalid) else LoadWrite(ps)
  }

  function ProducerStep(c: Config, s: State, p: nat): State
    requires ValidCapacity(c.layout, c.cap) && p in s.producers
  {
    match s.producers[p]
    case Idle(_) => s
    case LoadWrite(parts) =>
      s.(producers := s.producers[p := LoadRead(parts, s.write)])
    case LoadRead(parts, writePos) =>
      (match PlanPush(c.layout, c.cap, |Payload(parts)|, writePos, s.read)
       case None => s.(producers := s.producers[p := Idle(QueueFull)])
       case Some(plan) => s.(producers := s.producers[p := Reserve(parts, plan)]))
    case Reserve(parts, plan) =>
      if s.reserve == plan.start then
        var stage := if plan.fake != 0 then PutMarker else ClearHeader;
        s.(reserve := plan.End(),
           records := s.records + [RecordOf(plan, parts, p)],
           producers := s.producers[p := Filling(parts, plan, |s.records|, stage)])
      else
        s.(producers := s.producers[p := LoadWrite(parts)])
    case Filling(parts, plan, idx, stage) => FillStep(c, s, p)
  }

  /** Steps of the winner: marker, cleared header, publication, parts in order, and the committing header last. */
  function FillStep(c: Config, s: State, p: nat): State
    requires ValidCapacity(c.layout, c.cap) && p in s.producers && s.producers[p].Filling?
  {
    var Filling(parts, plan, idx, stage) := s.producers[p];
    match stage
    case PutMarker =>
      s.(mem := PutHeader(c, s.mem, plan.start, MarkerMeta(c, plan)),
         producers := s.producers[p := Filling(parts, plan, idx, ClearHeader)])
    case ClearHeader =>
      s.(mem := PutHeader(c, s.mem, plan.RecordPos(), 0),
         producers := s.producers[p := Filling(parts, plan, idx, PublishWrite)])
    case PublishWrite =>
      s.(write := plan.End(),
         producers := s.producers[p := Filling(parts, plan, idx, CopyPart(0))])
    case CopyPart(next) =>
      if next < |parts| then
        var dst := plan.RecordPos() + c.layout.Word();
        s.(mem := StorePart(c, s.mem, dst, |Flat(parts, next)|, parts[next]),
           producers := s.producers[p := Filling(parts, plan, idx, CopyPart(next + 1))])
      else
        s.(mem := PutHeader(c, s.mem, plan.RecordPos(), ValidMeta(c, plan)),
           records := if idx < |s.records| then s.records[idx := s.records[idx].(done := true)] else s.records,
           producers := s.producers[p := Idle(Ok)])
  }

  /** memcpy of one part, `at` bytes behind the offset of dst: one segment, no wrap inside a record. */
  function StorePart(c: Config, mem: seq<byte>, dst: nat, at: nat, part: seq<byte>): (r: seq<byte>)
    requires c.cap > 0
    ensures |r| == |mem|
  {
    var off := Offset(c, dst) + at;
    if off + |part| <= |mem| then Store(mem, off, part) else mem
  }

  /** Payload size decoded from a header; None is the `payload_size` failure. */
  function PayloadSize(l: Layout, meta: nat): Option<nat> {
    var stride, padding := MetaStride(l, meta), MetaPadding(l, meta);
    if stride < l.Word() || padding > stride - l.Word() then None
    else Some(stride - l.Word() - padding)
  }

  function FinishAcquire(s: State, st: Status): State { s.(consumer := Ready, lastAcquire := st) }

  function FinishRelease(s: State, st: Status): State { s.(consumer := Ready, lastRelease := st) }

  function ConsumerStep(c: Config, s: State): State
    requires ValidCapacity(c.layout, c.cap)
  {
    match s.consumer
    case Ready => s
    case AcquireRead => s.(consumer := AcquireWrite(s.read))
    case AcquireWrite(readPos) =>
      if s.write < readPos || s.write - readPos > c.cap then FinishAcquire(s, Corrupt)
      else if s.write == readPos then FinishAcquire(s, Empty)
      else s.(consumer := AcquireHeader(readPos, s.write - readPos))
    case AcquireHeader(readPos, used) =>
      var meta := HeaderAt(c, s.mem, readPos);
      var stride := MetaStride(c.layout, meta);
      if !MetaIsValid(c.layout, meta) then FinishAcquire(s, Empty)
      else if stride == 0 || stride > used || stride > c.cap then FinishAcquire(s, Invalid)
      else if MetaIsFake(c.layout, meta) then s.(consumer := SkipClear(readPos, stride))
      else (match PayloadSize(c.layout, meta)
            case None => FinishAcquire(s, Invalid)
            case Some(size) =>
              s.(consumer := Loan(Offset(c, readPos) + c.layout.Word(), size), lastAcquire := Ok))
    case SkipClear(readPos, stride) =>
      s.(mem := PutHeader(c, s.mem, readPos, 0), consumer := SkipAdvance(readPos, stride))
    case SkipAdvance(readPos, stride) =>
      s.(read := readPos + stride, consumer := AcquireRead)
    case Loan(_, _) => s
    case ReleaseRead(off, seen) => s.(consumer := ReleaseWrite(off, seen, s.read))
    case ReleaseWrite(off, seen, readPos) =>
      if s.write < readPos || s.write - readPos > c.cap then FinishRelease(s, Corrupt)
      else if s.write == readPos then FinishRelease(s, Invalid)
      else if off < c.layout.Word() || off > c.cap || off - c.layout.Word() != Offset(c, readPos)
        then FinishRelease(s, Invalid)
      else s.(consumer := ReleaseHeader(off, seen, readPos, s.write - readPos))
    case ReleaseHeader(off, seen, readPos, used) =>
      var meta := HeaderAt(c, s.mem, readPos);
      var stride := MetaStride(c.layout, meta);
      if !MetaIsValid(c.layout, meta) || MetaIsFake(c.layout, meta) then FinishRelease(s, Invalid)
      else if stride == 0 || stride > used || stride > c.cap then FinishRelease(s, Invalid)
      else if PayloadSize(c.layout, meta).None? then FinishRelease(s, Invalid)
      else s.(consumer := ReleaseClear(seen, readPos, stride))
    case ReleaseClear(seen, readPos, stride) =>
      s.(mem := PutHeader(c, s.mem, readPos, 0), consumer := ReleaseAdvance(seen, readPos, stride))
    case ReleaseAdvance(seen, readPos, stride) =>
      s.(read := readPos + stride, consumer := Ready, lastRelease := Ok, delivered := s.delivered + [seen])
  }

  /** One step of one thread; a step that its thread cannot take changes nothing. */
  function Step(c: Config, s: State, a: Action): State
    requires ValidCapacity(c.layout, c.cap)
  {
    match a
    case StartPush(p, parts) =>
      if p in s.producers && s.producers[p].Idle?
      then s.(producers := s.producers[p := BeginPush(c, parts)]) else s
    case StepProducer(p) => if p in s.producers then ProducerStep(c, s, p) else s
    case FailSwap(p) =>
      if p in s.producers && s.producers[p].Reserve?
      then s.(producers := s.producers[p := LoadWrite(s.producers[p].parts)]) else s
    case StartAcquire => if s.consumer.Ready? then s.(consumer := AcquireRead) else s
    case StartRelease =>
      // the borrower has read the record by now; what it saw is remembered for the theorems
      if s.consumer.Loan? && s.consumer.off + s.consumer.size <= |s.mem|
      then s.(consumer := ReleaseRead(s.consumer.off, Load(s.mem, s.consumer.off, s.consumer.size))) else s
    case StepConsumer => ConsumerStep(c, s)
  }

  /** The state after a run of actions in the given order. */
  function Run(c: Config, s: State, actions: seq<Action>): State
    requires ValidCapacity(c.layout, c.cap)
    decreases |actions|
  {
    if actions == [] then s
    else Step(c, Run(c, s, actions[..|actions| - 1]), actions[|actions| - 1])
  }
}
