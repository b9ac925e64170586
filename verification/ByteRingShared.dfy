/**
 One writer thread and one reader thread on a byte ring, interleaved load by load, byte by byte and store by store.
 The mirrored positions are the program's; `written` and `consumed` only observe.
 */
module ByteRingShared {
  import opened Arithmetic
  import opened ByteRing

  datatype Writer =
    | Resting
    | LoadedW(data: seq<byte>, w: nat)
    | Copying(data: seq<byte>, w: nat, done: nat)

  datatype Reader =
    | Waiting
    | LoadedR(len: nat, r: nat)
    | Taking(r: nat, n: nat, out: seq<byte>)

  datatype State = State(
    mem: seq<byte>,
    w: nat, r: nat,
    writer: Writer, reader: Reader,
    written: seq<byte>, consumed: seq<byte>)

  datatype Action =
    | StartWrite(data: seq<byte>)
    | WriterStep
    | StartRead(len: nat)
    | ReaderStep

  function Init(size: nat): State { State(seq(size, _ => 0), 0, 0, Resting, Waiting, [], []) }

  /** A size the ring accepts, and positions in the mirrored range. */
  predicate InRange(s: State) { 0 < |s.mem| <= UINT32_MAX / 3 && s.w < 2 * |s.mem| && s.r < 2 * |s.mem| }

  function WriteStep(s: State): State
    requires InRange(s)
  {
    match s.writer
    case Resting => s
    case LoadedW(data, w) =>
      // r is loaded and the length settled
      var used := if w < 2 * |s.mem| then DataSize(|s.mem|, w, s.r) else 0;
      var n := if used <= |s.mem| then Min(|data|, |s.mem| - used) else 0;
      if n == 0 then s.(writer := Resting) else s.(writer := Copying(data[..n], w, 0))
    case Copying(data, w, done) =>
      if done < |data| then
        s.(mem := s.mem[Slot(w + done, |s.mem|) := data[done]], writer := Copying(data, w, done + 1))
      else
        s.(w := (w + |data|) % (2 * |s.mem|), writer := Resting, written := s.written + data)
  }

  function ReadStep(s: State): State
    requires InRange(s)
  {
    match s.reader
    case Waiting => s
    case LoadedR(len, r) =>
      var n := if r < 2 * |s.mem| then Min(len, DataSize(|s.mem|, s.w, r)) else 0;
      if n == 0 then s.(reader := Waiting) else s.(reader := Taking(r, n, []))
    case Taking(r, n, out) =>
      if |out| < n then s.(reader := Taking(r, n, out + [s.mem[Slot(r + |out|, |s.mem|)]]))
      else s.(r := (r + n) % (2 * |s.mem|), reader := Waiting, consumed := s.consumed + out)
  }

  function Step(s: State, a: Action): State
  {
    match a
    case StartWrite(data) => if s.writer.Resting? then s.(writer := LoadedW(data, s.w)) else s
    case WriterStep => if InRange(s) then WriteStep(s) else s
    case StartRead(len) => if s.reader.Waiting? then s.(reader := LoadedR(len, s.r)) else s
    case ReaderStep => if InRange(s) then ReadStep(s) else s
  }

  // ---- invariant: the mirrored positions stand for the totals ----

  ghost predicate Totals(s: State) {
    && 0 < |s.mem| <= UINT32_MAX / 3
    && |s.consumed| <= |s.written| <= |s.consumed| + |s.mem|
    && s.w == |s.written| % (2 * |s.mem|) && s.r == |s.consumed| % (2 * |s.mem|)
  }

  /** Slot of the i-th byte ever written. */
  function Home(s: State, i: nat): nat
    requires |s.mem| > 0
  {
    Slot(i, |s.mem|)
  }

  ghost predicate Stored(s: State)
    requires |s.mem| > 0
  {
    forall i :: |s.consumed| <= i < |s.written| ==> s.mem[Home(s, i)] == s.written[i]
  }

  ghost predicate WriterOk(s: State)
    requires |s.mem| > 0
  {
    match s.writer
    case Resting => true
    case LoadedW(_, w) => w == s.w
    case Copying(data, w, done) =>
      && w == s.w && done <= |data| && |s.written| + |data| <= |s.consumed| + |s.mem|
      && forall k :: 0 <= k < done ==> s.mem[Home(s, |s.written| + k)] == data[k]
  }

  ghost predicate ReaderOk(s: State) {
    match s.reader
    case Waiting => true
    case LoadedR(_, r) => r == s.r
    case Taking(r, n, out) =>
      && r == s.r && |out| <= n && |s.consumed| + n <= |s.written|
      && out == s.written[|s.consumed|..|s.consumed| + |out|]
  }

  ghost predicate Inv(s: State) {
    && Totals(s) && Stored(s) && WriterOk(s) && ReaderOk(s)
    && s.consumed <= s.written
  }

  /** The mirrored difference is the true one. */
  lemma TrueSize(s: State)
    requires Totals(s)
    ensures InRange(s) && DataSize(|s.mem|, s.w, s.r) == |s.written| - |s.consumed|
  {
    var d := |s.written| - |s.consumed|;
    ModAdd(|s.consumed|, d, 2 * |s.mem|);
    DataSizeIs(|s.mem|, s.w, s.r, d);
  }

  lemma HomeOfMirror(s: State, total: nat, k: nat)
    requires |s.mem| > 0
    ensures Slot(total % (2 * |s.mem|) + k, |s.mem|) == Home(s, total + k)
  {
    SlotOfMirror(total, k, |s.mem|);
  }

  /** The byte being written is nobody else's: not unread, and not yet written by this call. */
  lemma OwnSlot(s: State, i: nat, j: nat)
    requires |s.mem| > 0 && i < j < i + |s.mem|
    ensures Home(s, i) != Home(s, j)
  {
    ModWindow(i, j, |s.mem|);
  }

  /** A byte copied behind the published ones leaves those alone. */
  lemma CopyKeepsStored(s: State)
    requires Inv(s) && InRange(s) && s.writer.Copying? && s.writer.done < |s.writer.data|
    ensures Stored(WriteStep(s))
  {
    hide DataSize, Slot, ReaderOk;
    var s' := WriteStep(s);
    HomeOfMirror(s, |s.written|, s.writer.done);
    forall i | |s.consumed| <= i < |s.written|
      ensures s'.mem[Home(s', i)] == s'.written[i]
    {
      OwnSlot(s, i, |s.written| + s.writer.done);
    }
  }

  lemma CopyKeepsWriter(s: State)
    requires Inv(s) && InRange(s) && s.writer.Copying? && s.writer.done < |s.writer.data|
    ensures WriterOk(WriteStep(s))
  {
    hide DataSize, Slot, Stored, ReaderOk;
    var Copying(data, w, done) := s.writer;
    var s' := WriteStep(s);
    HomeOfMirror(s, |s.written|, done);
    forall k | 0 <= k < done + 1
      ensures s'.mem[Home(s', |s'.written| + k)] == data[k]
    {
      if k < done { OwnSlot(s, |s.written| + k, |s.written| + done); }
    }
  }

  lemma CopyKeeps(s: State)
    requires Inv(s) && s.writer.Copying? && s.writer.done < |s.writer.data|
    ensures InRange(s) && Inv(WriteStep(s))
  {
    hide DataSize, Slot, Stored, WriterOk;
    TrueSize(s);
    CopyKeepsStored(s);
    CopyKeepsWriter(s);
  }

  lemma PublishKeeps(s: State)
    requires Inv(s) && s.writer.Copying? && s.writer.done == |s.writer.data|
    ensures InRange(s) && Inv(WriteStep(s))
  {
    hide DataSize, Slot;
    TrueSize(s);
    var s' := WriteStep(s);
    ModAdd(|s.written|, |s.writer.data|, 2 * |s.mem|);
    forall i | |s'.consumed| <= i < |s'.written|
      ensures s'.mem[Home(s', i)] == s'.written[i]
    {
      if i >= |s.written| { assert s.mem[Home(s, |s.written| + (i - |s.written|))] == s.writer.data[i - |s.written|]; }
    }
  }

  lemma WriterKeeps(s: State)
    requires Inv(s)
    ensures InRange(s) && Inv(WriteStep(s))
  {
    hide DataSize, Slot;
    TrueSize(s);
    if s.writer.Copying? {
      if s.writer.done < |s.writer.data| { CopyKeeps(s); } else { PublishKeeps(s); }
    }
  }

  /** The byte that the reader takes next is the oldest that it has not taken. */
  lemma NextByte(s: State)
    requires Inv(s) && s.reader.Taking? && |s.reader.out| < s.reader.n
    ensures s.mem[Slot(s.r + |s.reader.out|, |s.mem|)] == s.written[|s.consumed| + |s.reader.out|]
  {
    hide Slot, WriterOk;
    HomeOfMirror(s, |s.consumed|, |s.reader.out|);
    assert s.mem[Home(s, |s.consumed| + |s.reader.out|)] == s.written[|s.consumed| + |s.reader.out|];
  }

  lemma ReaderKeeps(s: State)
    requires Inv(s)
    ensures InRange(s) && Inv(ReadStep(s))
  {
    hide DataSize, Slot, Stored, WriterOk;
    TrueSize(s);
    if s.reader.Taking? {
      if |s.reader.out| < s.reader.n { NextByte(s); }
      ModAdd(|s.consumed|, s.reader.n, 2 * |s.mem|);
    }
    MoreConsumed(s, ReadStep(s));
  }

  /** What the reader takes concerns neither the bytes still stored nor the writer. */
  lemma MoreConsumed(s: State, s': State)
    requires |s.mem| > 0 && Stored(s) && WriterOk(s) && |s.consumed| <= |s'.consumed|
    requires s' == s.(r := s'.r, reader := s'.reader, consumed := s'.consumed)
    ensures Stored(s') && WriterOk(s')
  {
    hide Slot;
  }

  lemma StepKeeps(s: State, a: Action)
    requires Inv(s)
    ensures Inv(Step(s, a)) && |Step(s, a).mem| == |s.mem|
  {
    hide DataSize, Slot;
    TrueSize(s);
    match a {
      case WriterStep => WriterKeeps(s);
      case ReaderStep => ReaderKeeps(s);
      case _ =>
    }
  }

  function Run(s: State, actions: seq<Action>): State
    decreases |actions|
  {
    if actions == [] then s else Step(Run(s, actions[..|actions| - 1]), actions[|actions| - 1])
  }

  lemma {:induction false} RunKeeps(size: nat, actions: seq<Action>)
    requires 0 < size <= UINT32_MAX / 3
    ensures Inv(Run(Init(size), actions)) && |Run(Init(size), actions).mem| == size
    decreases |actions|
  {
    if actions != [] {
      RunKeeps(size, actions[..|actions| - 1]);
      StepKeeps(Run(Init(size), actions[..|actions| - 1]), actions[|actions| - 1]);
    }
  }

  /** For every size the ring accepts and every interleaving: the bytes read are a prefix of the bytes written. */
  lemma ReadsArePrefix(size: nat, actions: seq<Action>)
    requires 0 < size <= UINT32_MAX / 3
    ensures var s := Run(Init(size), actions);
            s.consumed <= s.written && |s.written| - |s.consumed| <= size
  {
    hide Stored, WriterOk, ReaderOk;
    RunKeeps(size, actions);
  }

  /** No sum the code forms exceeds three times the size, so none wraps. */
  lemma SumsStayBelow(size: nat, actions: seq<Action>)
    requires 0 < size <= UINT32_MAX / 3
    ensures var s := Run(Init(size), actions);
            && (s.writer.Copying? ==> s.w + |s.writer.data| < 3 * size <= UINT32_MAX)
            && (s.reader.Taking? ==> s.r + s.reader.n < 3 * size <= UINT32_MAX)
  {
    RunKeeps(size, actions);
    TrueSize(Run(Init(size), actions));
  }

  // ---- what a call writes and reads ----

  /** These bytes begin the data: all of it or at least the room at the start, and no more than the room now. */
  ghost predicate FitsSince(start: State, data: seq<byte>, s: State, copied: seq<byte>) {
    && copied <= data
    && (copied == data || |copied| >= |start.mem| - (|start.written| - |start.consumed|))
    && |copied| <= |s.mem| - (|start.written| - |s.consumed|)
  }

  ghost predicate WritingSince(start: State, data: seq<byte>, s: State) {
    && |s.mem| == |start.mem| && |start.consumed| <= |s.consumed|
    && match s.writer
       case LoadedW(d, _) => d == data && s.written == start.written
       case Copying(d, _, _) => FitsSince(start, data, s, d) && s.written == start.written
       case Resting => exists d :: FitsSince(start, data, s, d) && s.written == start.written + d
  }

  lemma WritingSinceStep(start: State, data: seq<byte>, s: State, a: Action)
    requires Inv(s) && WritingSince(start, data, s) && !a.StartWrite?
    ensures WritingSince(start, data, Step(s, a))
  {
    hide DataSize, Slot;
    TrueSize(s);
    var s' := Step(s, a);
    if s.writer.Resting? {
      var d :| FitsSince(start, data, s, d) && s.written == start.written + d;
      assert FitsSince(start, data, s', d);
    } else if s'.writer.Resting? {
      var d := if s.writer.LoadedW? then [] else s.writer.data;
      assert FitsSince(start, data, s', d) && s'.written == start.written + d;
    }
  }

  /**
   A write that the reader interrupts anywhere publishes, all at once when it returns, the longest prefix of its data
   that fits the room it finds: no less than the room there was at its start, no more than there is at its end.
   */
  lemma {:induction false} WriteWritesPrefix(start: State, data: seq<byte>, rest: seq<Action>)
    requires Inv(start) && start.writer.Resting?
    requires forall a :: a in rest ==> !a.StartWrite?
    ensures var s := Run(Step(start, StartWrite(data)), rest);
            Inv(s) && WritingSince(start, data, s)
    decreases |rest|
  {
    hide Inv, WritingSince, FitsSince, DataSize, Slot;
    if rest == [] {
      StepKeeps(start, StartWrite(data));
      WriteStarts(start, data);
    } else {
      var n := |rest| - 1;
      WriteWritesPrefix(start, data, rest[..n]);
      var s := Run(Step(start, StartWrite(data)), rest[..n]);
      StepKeeps(s, rest[n]);
      WritingSinceStep(start, data, s, rest[n]);
    }
  }

  lemma WriteStarts(start: State, data: seq<byte>)
    requires start.writer.Resting?
    ensures WritingSince(start, data, Step(start, StartWrite(data)))
  {
  }

  /** The n bytes are those asked for or at least those readable at the start, and no more than are readable now. */
  ghost predicate ReadSince(start: State, len: nat, s: State, n: nat) {
    && n <= len
    && (n == len || n >= |start.written| - |start.consumed|)
    && n <= |s.written| - |start.consumed|
  }

  ghost predicate ReadingSince(start: State, len: nat, s: State) {
    && |s.mem| == |start.mem| && start.written <= s.written
    && match s.reader
       case LoadedR(l, _) => l == len && s.consumed == start.consumed
       case Taking(_, n, _) => ReadSince(start, len, s, n) && s.consumed == start.consumed
       case Waiting => start.consumed <= s.consumed && ReadSince(start, len, s, |s.consumed| - |start.consumed|)
  }

  lemma ReadingSinceStep(start: State, len: nat, s: State, a: Action)
    requires Inv(s) && ReadingSince(start, len, s) && !a.StartRead?
    ensures ReadingSince(start, len, Step(s, a))
  {
    hide DataSize, Slot;
    TrueSize(s);
  }

  /**
   A read that the writer interrupts anywhere takes, all at once when it returns, as many bytes as it was asked for
   or finds: no less than there were at its start, no more than there are at its end.
   */
  lemma {:induction false} ReadReadsAll(start: State, len: nat, rest: seq<Action>)
    requires Inv(start) && start.reader.Waiting?
    requires forall a :: a in rest ==> !a.StartRead?
    ensures var s := Run(Step(start, StartRead(len)), rest);
            Inv(s) && ReadingSince(start, len, s)
    decreases |rest|
  {
    hide Inv, ReadingSince, ReadSince, DataSize, Slot;
    if rest == [] {
      StepKeeps(start, StartRead(len));
      ReadStarts(start, len);
    } else {
      var n := |rest| - 1;
      ReadReadsAll(start, len, rest[..n]);
      var s := Run(Step(start, StartRead(len)), rest[..n]);
      StepKeeps(s, rest[n]);
      ReadingSinceStep(start, len, s, rest[n]);
    }
  }

  lemma ReadStarts(start: State, len: nat)
    requires start.reader.Waiting?
    ensures ReadingSince(start, len, Step(start, StartRead(len)))
  {
  }
}
