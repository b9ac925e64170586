/**
 The byte ring buffer by the mirror method: positions run in [0, 2 * size), so a full ring and an empty one differ
 without a spare slot, for any size and not only powers of two.
 */
module ByteRing {
  import opened Arithmetic

  type byte = x: nat | x < 256

  const UINT32_MAX := 0xFFFF_FFFF
  const INT32_MAX := 0x7FFF_FFFF
  const OK := 0
  const E_INVAL := -3
  const E_RANGE := -12
  const E_PARAM := -13

  /** A uint32_t computation; the precondition is that it does not wrap. */
  function U32(x: int): (r: nat)
    requires 0 <= x <= UINT32_MAX
    ensures r == x
  {
    x
  }

  function Min(a: nat, b: nat): nat { if a > b then b else a }

  /** `ns_ringbuf_data_size`: how far w is ahead of r in the mirrored range. */
  function DataSize(size: nat, w: nat, r: nat): (n: nat)
    requires 0 < size <= UINT32_MAX / 3 && w < 2 * size && r < 2 * size
    ensures n < 2 * size && (r + n) % (2 * size) == w
  {
    assert w < r ==> ModIs(r + (2 * size - (r - w)), 2 * size, 1, w);
    assert w >= r ==> ModIs(w, 2 * size, 0, w);
    if w >= r then U32(w - r) else U32(U32(size * 2) - U32(r - w))
  }

  predicate ModIs(x: nat, m: nat, q: nat, rest: nat)
    requires m > 0 && rest < m && x == q * m + rest
    ensures x % m == rest
  {
    ModUnique(x, m, q, rest);
    true
  }

  // ---- spans of the circular storage ----

  /** n bytes of the storage b from position pos on, around the end as often as needed. */
  function Span(b: seq<byte>, pos: nat, n: nat): (s: seq<byte>)
    requires |b| > 0
    ensures |s| == n && forall i {:trigger s[i]} :: 0 <= i < n ==> s[i] == b[Slot(pos + i, |b|)]
  {
    seq(n, i requires 0 <= i < n => b[Slot(pos + i, |b|)])
  }

  /** The storage after data was copied in from position pos on. */
  function Put(b: seq<byte>, pos: nat, data: seq<byte>): (r: seq<byte>)
    requires |b| > 0
    ensures |r| == |b|
    ensures forall k {:trigger r[k]} :: 0 <= k < |b| ==>
              r[k] == if Slot(k - pos, |b|) < |data| then data[Slot(k - pos, |b|)] else b[k]
  {
    seq(|b|, k requires 0 <= k < |b| => if Slot(k - pos, |b|) < |data| then data[Slot(k - pos, |b|)] else b[k])
  }

  lemma SpanConcat(b: seq<byte>, pos: nat, n: nat, m: nat)
    requires |b| > 0
    ensures Span(b, pos, n + m) == Span(b, pos, n) + Span(b, pos + n, m)
  {
  }

  lemma SlotOfMirror(pos: nat, i: nat, size: nat)
    requires size > 0
    ensures Slot(pos % (2 * size) + i, size) == Slot(pos + i, size) == Slot(Slot(pos, size) + i, size)
  {
    MultipleMod(2, size);
    ModMod(pos, 2 * size, size);
    ModMod(pos, size, size);
    AddMod(pos % (2 * size), i, size);
    AddMod(pos % size, i, size);
    AddMod(pos, i, size);
  }

  /** A position and its mirror image, or its slot, start the same span. */
  lemma SpanMirror(b: seq<byte>, pos: nat, n: nat)
    requires |b| > 0
    ensures Span(b, pos % (2 * |b|), n) == Span(b, pos, n) && Span(b, Slot(pos, |b|), n) == Span(b, pos, n)
  {
    hide Slot;
    var m, x, y, z := pos % (2 * |b|), Span(b, pos % (2 * |b|), n), Span(b, pos, n), Span(b, Slot(pos, |b|), n);
    forall i | 0 <= i < n
      ensures x[i] == y[i] == z[i]
    {
      SlotOfMirror(pos, i, |b|);
    }
  }

  /** Copying to a position is copying to its slot. */
  lemma PutMirror(b: seq<byte>, pos: nat, data: seq<byte>)
    requires |b| > 0
    ensures Put(b, Slot(pos, |b|), data) == Put(b, pos, data)
  {
    hide Slot;
    var x, y := Put(b, Slot(pos, |b|), data), Put(b, pos, data);
    forall k | 0 <= k < |b|
      ensures x[k] == y[k]
    {
      OffsetFromSlot(|b|, pos, k);
    }
  }

  lemma OffsetFromSlot(size: nat, pos: nat, k: nat)
    requires size > 0
    ensures Slot(k - Slot(pos, size), size) == Slot(k - pos, size)
  {
    var q, p := pos / size, (k - pos) / size;
    assert k - pos % size == (p + q) * size + (k - pos) % size;
    ModUnique(k - pos % size, size, p + q, (k - pos) % size);
  }

  /** Slots and offsets from a position determine each other within one lap. */
  lemma OffsetOfSlot(size: nat, pos: nat, i: nat)
    requires i < size
    ensures Slot(Slot(pos + i, size) - pos, size) == i
  {
    var q := (pos + i) / size;
    assert (pos + i) % size - pos == (-q) * size + i;
    ModUnique((pos + i) % size - pos, size, -q, i);
  }

  /** What was copied in is what the span reads. */
  lemma SpanOfPut(b: seq<byte>, pos: nat, data: seq<byte>)
    requires |b| > 0 && |data| <= |b|
    ensures Span(Put(b, pos, data), pos, |data|) == data
  {
    hide Slot;
    var s := Span(Put(b, pos, data), pos, |data|);
    forall i | 0 <= i < |data|
      ensures s[i] == data[i]
    {
      OffsetOfSlot(|b|, pos, i);
    }
  }

  /** A span that ends before the copied bytes, or starts behind them, within one lap, is untouched. */
  lemma SpanBesidePut(b: seq<byte>, pos: nat, data: seq<byte>, from: nat, n: nat)
    requires |b| > 0
    requires (from + n <= pos && pos + |data| <= from + |b|) || (pos + |data| <= from && from + n <= pos + |b|)
    ensures Span(Put(b, pos, data), from, n) == Span(b, from, n)
  {
    hide Slot;
    var s, t := Span(Put(b, pos, data), from, n), Span(b, from, n);
    forall i | 0 <= i < n
      ensures s[i] == t[i]
    {
      BesideOffset(|b|, pos, |data|, from + i);
    }
  }

  lemma BesideOffset(size: nat, pos: nat, len: nat, x: nat)
    requires size > 0 && ((x < pos && pos + len <= x + size) || (pos + len <= x < pos + size))
    ensures Slot(Slot(x, size) - pos, size) >= len
  {
    if x >= pos {
      OffsetOfSlot(size, pos, x - pos);
    } else if pos - x < size {
      OffsetOfSlot(size, pos, x + size - pos);
      ModUnique(x + size, size, x / size + 1, x % size);
    }
  }

  class Ring {
    const buf: array<byte>
    const size: nat
    var w: nat
    var r: nat

    ghost predicate Valid()
      reads this
    {
      && 0 < size <= UINT32_MAX / 3 && buf.Length == size
      && w < 2 * size && r < 2 * size && DataSize(size, w, r) <= size
    }

    /** `ns_ringbuf_init`: rejects an empty buffer and one so large that a sum of three sizes could wrap. */
    static method Create(buf: array<byte>) returns (status: int, ring: Ring?)
      ensures status == if buf.Length == 0 then E_INVAL else if 3 * buf.Length > UINT32_MAX then E_PARAM else OK
      ensures (ring != null <==> status == OK)
              && (ring != null ==> ring.Valid() && ring.buf == buf && ring.size == buf.Length && ring.Contents() == [])
    {
      if buf.Length == 0 { return E_INVAL, null; }
      if buf.Length > UINT32_MAX / 3 { return E_PARAM, null; }
      ring := new Ring(buf);
      status := OK;
    }

    constructor (buf: array<byte>)
      requires 0 < buf.Length <= UINT32_MAX / 3
      ensures Valid() && this.buf == buf && size == buf.Length && Contents() == []
    {
      this.buf, size := buf, buf.Length;
      w, r := 0, 0;
    }

    /** The readable bytes, oldest first. */
    ghost function Contents(): seq<byte>
      requires Valid()
      reads this, buf
    {
      Span(buf[..], r, DataSize(size, w, r))
    }

    /** What the free space holds, in the order in which it would be published. */
    ghost function Draft(): seq<byte>
      requires Valid()
      reads this, buf
    {
      Span(buf[..], w, size - DataSize(size, w, r))
    }

    /** `ns_ringbuf_size` and `ns_ringbuf_free_size`; both fit an int32_t. */
    method Sizes() returns (used: nat, free: nat)
      requires Valid()
      ensures used == |Contents()| && free == |Draft()| && used + free == size <= INT32_MAX
    {
      used := DataSize(size, w, r);
      free := U32(size - used);
    }

    /** The two memcpy segments of a write. */
    method CopyIn(at: nat, data: seq<byte>)
      requires Valid() && at < size && |data| <= size
      modifies buf
      ensures buf[..] == Put(old(buf[..]), at, data)
    {
      var first := U32(size - at);
      if |data| <= first {
        forall i | 0 <= i < |data| { buf[at + i] := data[i]; }
      } else {
        forall i | 0 <= i < first { buf[at + i] := data[i]; }
        forall i | 0 <= i < |data| - first { buf[i] := data[first + i]; }
      }
      forall k | 0 <= k < size
        ensures buf[k] == Put(old(buf[..]), at, data)[k]
      {
        SlotOffset(size, at, k);
      }
    }

    static lemma SlotOffset(size: nat, at: nat, k: nat)
      requires at < size && k < size
      ensures Slot(k - at, size) == if k >= at then k - at else k - at + size
    {
      if k >= at { ModUnique(k - at, size, 0, k - at); } else { ModUnique(k - at, size, -1, k - at + size); }
    }

    /** The two memcpy segments of a read. */
    method CopyOut(at: nat, n: nat) returns (out: seq<byte>)
      requires Valid() && at < size && n <= size
      ensures out == Span(buf[..], at, n)
    {
      var first := U32(size - at);
      if n <= first {
        out := buf[at..at + n];
      } else {
        out := buf[at..size] + buf[..n - first];
      }
      forall i | 0 <= i < n
        ensures out[i] == Span(buf[..], at, n)[i]
      {
        if i < first { ModUnique(at + i, size, 0, at + i); } else { ModUnique(at + i, size, 1, at + i - size); }
      }
    }

    // ---- the writer ----

    /** Stores the advanced write position; n bytes of the draft become readable. */
    method Publish(n: nat)
      requires Valid() && n <= |Draft()|
      modifies this`w
      ensures Valid() && Contents() == old(Contents() + Draft()[..n]) && Draft() == old(Draft()[n..])
    {
      hide Slot, DataSize;
      ghost var d := DataSize(size, w, r);
      Advanced(size, r, d, w, n);
      Published(buf[..], r, d, w, n);
      w := U32(w + n) % U32(size * 2);
    }

    /** `ns_ringbuf_write`: takes as much as fits. */
    method Write(data: seq<byte>) returns (n: nat)
      requires Valid() && |data| <= UINT32_MAX
      modifies this`w, buf
      ensures Valid() && n == Min(|data|, |old(Draft())|)
      ensures Contents() == old(Contents()) + data[..n]
    {
      hide Slot, DataSize;
      var free := U32(size - DataSize(size, w, r));
      n := Min(|data|, free);
      if n == 0 { return; }
      Fill(0, data[..n]);
      Publish(n);
    }

    /** Copies the data behind `offset` bytes of the draft. */
    method Fill(offset: nat, data: seq<byte>)
      requires Valid() && offset + |data| <= |Draft()| && data != []
      modifies buf
      ensures Valid() && Contents() == old(Contents())
      ensures Draft() == old(Draft())[..offset] + data + old(Draft())[offset + |data|..]
    {
      hide DataSize;
      ghost var b, d := buf[..], DataSize(size, w, r);
      CopyIn(U32(w + offset) % size, data);
      Filled(b, r, d, w, offset, data);
    }

    /** `ns_ringbuf_draft_write`: fills in free space without publishing it. */
    method DraftWrite(offset: nat, data: seq<byte>) returns (n: int)
      requires Valid() && |data| <= UINT32_MAX && offset <= UINT32_MAX
      modifies buf
      ensures Valid() && Contents() == old(Contents())
      ensures n == if data == [] then 0 else if offset >= |old(Draft())| then E_RANGE
                   else Min(|data|, |old(Draft())| - offset)
      ensures Draft() == if n <= 0 then old(Draft())
                         else old(Draft())[..offset] + data[..n] + old(Draft())[offset + n..]
    {
      hide Slot, DataSize;
      if data == [] { return 0; }
      var free := U32(size - DataSize(size, w, r));
      if offset >= free { return E_RANGE; }
      n := Min(|data|, U32(free - offset));
      Fill(offset, data[..n]);
    }

    /** `ns_ringbuf_write_skip`: publishes what was drafted. */
    method WriteSkip(len: nat) returns (n: nat)
      requires Valid() && len <= UINT32_MAX
      modifies this`w
      ensures Valid() && n == Min(len, |old(Draft())|)
      ensures Contents() == old(Contents() + Draft()[..n]) && Draft() == old(Draft()[n..])
    {
      hide Slot, DataSize;
      var free := U32(size - DataSize(size, w, r));
      n := Min(len, free);
      if n == 0 {
        assert Draft()[..0] == [] && Draft()[0..] == Draft() && Contents() + [] == Contents();
        return;
      }
      Publish(n);
    }

    /** A draft at offset zero that is then published is a write: same count, same contents. */
    method DraftThenSkip(data: seq<byte>) returns (n: nat)
      requires Valid() && |data| <= UINT32_MAX
      modifies this`w, buf
      ensures Valid() && n == Min(|data|, |old(Draft())|)
      ensures Contents() == old(Contents()) + data[..n]
    {
      hide Slot, DataSize, Span;
      var drafted := DraftWrite(0, data);
      if drafted > 0 {
        n := WriteSkip(drafted);
      } else {
        n := 0;
      }
    }

    // ---- the reader ----

    /** Stores the advanced read position; n bytes are given back. */
    method Consume(n: nat)
      requires Valid() && n <= |Contents()|
      modifies this`r
      ensures Valid() && Contents() == old(Contents()[n..]) && old(Draft()) <= Draft()
    {
      hide Slot, DataSize;
      ghost var d := DataSize(size, w, r);
      Retreated(size, r, d, w, n);
      Consumed(buf[..], r, d, w, n);
      r := U32(r + n) % U32(size * 2);
    }

    /** `ns_ringbuf_read`. */
    method Read(len: nat) returns (out: seq<byte>)
      requires Valid() && len <= UINT32_MAX
      modifies this`r
      ensures Valid() && out == old(Contents())[..Min(len, |old(Contents())|)]
      ensures Contents() == old(Contents())[|out|..]
    {
      hide Slot, DataSize;
      var rl := Min(len, DataSize(size, w, r));
      if rl == 0 { return []; }
      out := Peeked(0, rl);
      Consume(rl);
    }

    /** `ns_ringbuf_read_skip`. */
    method ReadSkip(len: nat) returns (n: nat)
      requires Valid() && len <= UINT32_MAX
      modifies this`r
      ensures Valid() && n == Min(len, |old(Contents())|) && Contents() == old(Contents())[n..]
    {
      hide Slot, DataSize;
      n := Min(len, DataSize(size, w, r));
      if n == 0 { return; }
      Consume(n);
    }

    /** The bytes behind `offset` readable ones, copied out in one or two segments. */
    method Peeked(offset: nat, n: nat) returns (out: seq<byte>)
      requires Valid() && offset + n <= |Contents()|
      ensures out == Contents()[offset..offset + n]
    {
      hide DataSize;
      out := CopyOut(U32(r + offset) % size, n);
      SpanMirror(buf[..], r + offset, n);
      SpanSlice(buf[..], r, DataSize(size, w, r), offset, n);
    }

    /** `ns_ringbuf_peek_copy`: the whole window or nothing. */
    method PeekCopy(offset: nat, len: nat) returns (out: seq<byte>)
      requires Valid() && len <= UINT32_MAX && offset <= UINT32_MAX
      ensures out == if offset < |Contents()| && len <= |Contents()| - offset
                     then Contents()[offset..offset + len] else []
    {
      hide Slot, DataSize;
      var used := DataSize(size, w, r);
      if len == 0 || offset >= used || U32(used - offset) < len { return []; }
      out := Peeked(offset, len);
    }

    /**
     `ns_ringbuf_peek`: a window of at least the asked length. Inside the storage it is as long as it can be without
     wrapping; where the asked length wraps, it is a copy of exactly that length.
     */
    method Peek(offset: nat, len: nat) returns (found: bool, window: seq<byte>)
      requires Valid() && len <= UINT32_MAX && offset <= UINT32_MAX
      ensures found <==> offset < |Contents()| && len <= |Contents()| - offset
      ensures found ==> len <= |window| && offset + |window| <= |Contents()|
                        && window == Contents()[offset..offset + |window|]
      ensures found ==> var straight := size - Slot(r + offset, size);
                        |window| == if len <= straight then Min(|Contents()| - offset, straight) else len
    {
      hide DataSize;
      window := [];
      var used := DataSize(size, w, r);
      if offset >= used { return false, []; }
      var left := U32(used - offset);
      if left < len { return false, []; }
      var at := U32(r + offset) % size;
      var first := U32(size - at);
      var n := if len <= first then (if left > first then first else left) else len;
      window := Peeked(offset, n);
      found := true;
    }

    /** `ns_ringbuf_clear`: the reader drops everything. */
    method Clear()
      requires Valid()
      modifies this`r
      ensures Valid() && Contents() == []
    {
      r := w;
    }
  }

  // ---- what moving a position does to the spans ----

  lemma DataSizeIs(size: nat, w: nat, r: nat, d: nat)
    requires 0 < size <= UINT32_MAX / 3 && w < 2 * size && r < 2 * size && d < 2 * size
    requires (r + d) % (2 * size) == w
    ensures DataSize(size, w, r) == d
  {
    var e := DataSize(size, w, r);
    if d < e { ModWindow(r + d, r + e, 2 * size); }
    if e < d { ModWindow(r + e, r + d, 2 * size); }
  }

  lemma ModAdd(x: nat, n: nat, m: nat)
    requires m > 0
    ensures (x % m + n) % m == (x + n) % m
  {
    AddMod(x % m, n, m);
    AddMod(x, n, m);
    ModMod(x, m, m);
  }

  lemma Advanced(size: nat, r: nat, d: nat, w: nat, n: nat)
    requires 0 < size <= UINT32_MAX / 3 && w < 2 * size && r < 2 * size && d + n <= size && (r + d) % (2 * size) == w
    ensures DataSize(size, (w + n) % (2 * size), r) == d + n
  {
    ModAdd(r + d, n, 2 * size);
    DataSizeIs(size, (w + n) % (2 * size), r, d + n);
  }

  lemma Retreated(size: nat, r: nat, d: nat, w: nat, n: nat)
    requires 0 < size <= UINT32_MAX / 3 && w < 2 * size && r < 2 * size && n <= d <= size && (r + d) % (2 * size) == w
    ensures DataSize(size, w, (r + n) % (2 * size)) == d - n
  {
    ModAdd(r + n, d - n, 2 * size);
    DataSizeIs(size, w, (r + n) % (2 * size), d - n);
  }

  lemma SpanSlice(b: seq<byte>, pos: nat, n: nat, from: nat, m: nat)
    requires |b| > 0 && from + m <= n
    ensures Span(b, pos, n)[from..from + m] == Span(b, pos + from, m)
  {
  }

  lemma Published(b: seq<byte>, r: nat, d: nat, w: nat, n: nat)
    requires |b| > 0 && d + n <= |b| && (r + d) % (2 * |b|) == w
    ensures Span(b, r, d + n) == Span(b, r, d) + Span(b, w, |b| - d)[..n]
    ensures Span(b, (w + n) % (2 * |b|), |b| - (d + n)) == Span(b, w, |b| - d)[n..]
  {
    hide Slot;
    SpanConcat(b, r, d, n);
    SpanMirror(b, r + d, n);
    SpanSlice(b, w, |b| - d, 0, n);
    SpanSlice(b, w, |b| - d, n, |b| - d - n);
    SpanMirror(b, w + n, |b| - d - n);
  }

  lemma Consumed(b: seq<byte>, r: nat, d: nat, w: nat, n: nat)
    requires |b| > 0 && n <= d <= |b| && (r + d) % (2 * |b|) == w
    ensures Span(b, (r + n) % (2 * |b|), d - n) == Span(b, r, d)[n..]
    ensures Span(b, w, |b| - d) <= Span(b, w, |b| - (d - n))
  {
    hide Slot;
    SpanSlice(b, r, d, n, d - n);
    SpanMirror(b, r + n, d - n);
    SpanSlice(b, w, |b| - (d - n), 0, |b| - d);
  }

  lemma Filled(b: seq<byte>, r: nat, d: nat, w: nat, offset: nat, data: seq<byte>)
    requires |b| > 0 && d + offset + |data| <= |b| && (r + d) % (2 * |b|) == w
    ensures var b' := Put(b, Slot(w + offset, |b|), data);
            && Span(b', r, d) == Span(b, r, d)
            && Span(b', w, |b| - d) == Span(b, w, |b| - d)[..offset] + data + Span(b, w, |b| - d)[offset + |data|..]
  {
    hide Slot, Span, Put;
    var p := r + d;
    SlotOfMirror(p, offset, |b|);
    PutMirror(b, p + offset, data);
    SpanBesidePut(b, p + offset, data, r, d);
    SpanMirror(b, p, |b| - d);
    SpanMirror(Put(b, p + offset, data), p, |b| - d);
    FilledAhead(b, p, |b| - d, offset, data);
  }

  /** n bytes from p on, of which some behind the offset were overwritten. */
  lemma FilledAhead(b: seq<byte>, p: nat, n: nat, offset: nat, data: seq<byte>)
    requires |b| > 0 && offset + |data| <= n <= |b|
    ensures Span(Put(b, p + offset, data), p, n) == Span(b, p, n)[..offset] + data + Span(b, p, n)[offset + |data|..]
  {
    hide Slot, Span, Put;
    var k := offset + |data|;
    Overwritten(b, p, n, offset, data);
    Untouched(b, p, n, offset, data, 0, offset);
    Untouched(b, p, n, offset, data, k, n);
    Glue(Span(Put(b, p + offset, data), p, n), Span(b, p, n), offset, k, data);
  }

  lemma Overwritten(b: seq<byte>, p: nat, n: nat, offset: nat, data: seq<byte>)
    requires |b| > 0 && offset + |data| <= n <= |b|
    ensures Span(Put(b, p + offset, data), p, n)[offset..offset + |data|] == data
  {
    hide Slot, Span, Put;
    SpanSlice(Put(b, p + offset, data), p, n, offset, |data|);
    SpanOfPut(b, p + offset, data);
  }

  lemma Untouched(b: seq<byte>, p: nat, n: nat, offset: nat, data: seq<byte>, i: nat, j: nat)
    requires |b| > 0 && offset + |data| <= n <= |b| && i <= j <= n && (j <= offset || offset + |data| <= i)
    ensures Span(Put(b, p + offset, data), p, n)[i..j] == Span(b, p, n)[i..j]
  {
    hide Slot, Span, Put;
    SpanSlice(b, p, n, i, j - i);
    SpanSlice(Put(b, p + offset, data), p, n, i, j - i);
    SpanBesidePut(b, p + offset, data, p + i, j - i);
  }

  lemma Glue(s: seq<byte>, t: seq<byte>, i: nat, j: nat, data: seq<byte>)
    requires i <= j <= |s| == |t| && s[0..i] == t[0..i] && s[i..j] == data && s[j..|s|] == t[j..|s|]
    ensures s == t[..i] + data + t[j..]
  {
  }
}
