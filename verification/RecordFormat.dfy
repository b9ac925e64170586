/**
 Header word and push planning of the record ring: the pure arithmetic of ns_mpsc_record_ring.c.
 Bit fields are written as remainders and quotients by powers of two.
 */
module RecordFormat {
  import opened Arithmetic
  import opened RecordWords

  /** The two header layouts, chosen by the width of `size_t`. */
  datatype Layout = Bits64 | Bits32 {
    /** sizeof(size_t): size of a header and alignment of every record. */
    function Word(): nat { if Bits64? then 8 else 4 }

    /** One more than the stride mask; also the weight of the padding field. */
    function StrideMod(): nat { if Bits64? then 0x1_0000_0000 else 0x1_0000 }

    /** One more than SIZE_MAX. */
    function SizeMod(): nat { if Bits64? then 0x1_0000_0000_0000_0000 else 0x1_0000_0000 }
  }

  // ---- header word ----

  function EncodeMeta(l: Layout, total: nat, padding: nat, fake: bool): nat {
    total % l.StrideMod()
    + (padding % 256) * l.StrideMod()
    + 256 * l.StrideMod()
    + (if fake then 512 * l.StrideMod() else 0)
  }

  predicate MetaIsValid(l: Layout, meta: nat) { (meta / (256 * l.StrideMod())) % 2 == 1 }

  predicate MetaIsFake(l: Layout, meta: nat) { (meta / (512 * l.StrideMod())) % 2 == 1 }

  function MetaStride(l: Layout, meta: nat): nat { meta % l.StrideMod() }

  function MetaPadding(l: Layout, meta: nat): nat { (meta / l.StrideMod()) % 256 }

  /** Decoding inverts encoding in both layouts, for every stride and padding that fit their fields. */
  lemma MetaRoundTrip(l: Layout, total: nat, padding: nat, fake: bool)
    requires total < l.StrideMod() && padding < 256
    ensures var m := EncodeMeta(l, total, padding, fake);
            && m < l.SizeMod()
            && MetaIsValid(l, m)
            && MetaIsFake(l, m) == fake
            && MetaStride(l, m) == total
            && MetaPadding(l, m) == padding
  {
    var sm, f := l.StrideMod(), if fake then 1 else 0;
    var m := EncodeMeta(l, total, padding, fake);
    assert m == (padding + 256 + 512 * f) * sm + total;
    ModUnique(m, sm, padding + 256 + 512 * f, total);
    ModUnique(m, 256 * sm, 1 + 2 * f, padding * sm + total);
    ModUnique(m, 512 * sm, f, (padding + 256) * sm + total);
  }

  // ---- capacity ----

  predicate ValidCapacity(l: Layout, capacity: nat) {
    && capacity != 0
    && IsPow2(capacity)
    && capacity <= (l.SizeMod() - 1) / 2
    && capacity >= 3 * l.Word()
    && capacity / 2 <= l.StrideMod() - 1
  }

  function MaxRecordSize(l: Layout, capacity: nat): (r: nat)
    requires ValidCapacity(l, capacity)
  {
    capacity / 2 - l.Word()
  }

  function AlignUp(l: Layout, v: nat): (r: nat)
    ensures v <= r < v + l.Word() && r % l.Word() == 0
  {
    var r := (v + l.Word() - 1) / l.Word() * l.Word();
    MultipleMod((v + l.Word() - 1) / l.Word(), l.Word());
    r
  }

  lemma CapacityFacts(l: Layout, capacity: nat)
    requires ValidCapacity(l, capacity)
    ensures capacity >= 4 * l.Word()
    ensures capacity % l.Word() == 0 && (capacity / 2) % l.Word() == 0
    ensures l.SizeMod() % capacity == 0
  {
    assert IsPow2(l.Word()) by { assert IsPow2(4); }
    Pow2Divides(l.Word(), capacity);
    Pow2Divides(l.Word(), capacity / 2);
    SizeModIsPow2(l);
    Pow2Divides(capacity, l.SizeMod());
    // capacity is a power of two above 2 * Word, hence a multiple of 4 * Word
    Pow2Divides(2 * l.Word(), capacity / 2);
  }

  lemma SizeModIsPow2(l: Layout)
    ensures IsPow2(l.SizeMod())
  {
    assert IsPow2(16) by { assert IsPow2(4); }
    Pow2Product(16, 16);
    Pow2Product(0x100, 0x100);
    Pow2Product(0x1_0000, 0x1_0000);
    Pow2Product(0x1_0000_0000, 0x1_0000_0000);
  }

  // ---- planning a push ----

  datatype Option<T> = None | Some(value: T)

  /** Where a record goes: an optional wrap marker of `fake` bytes at `start`, then `total` bytes of record. */
  datatype Plan = Plan(start: nat, fake: nat, total: nat, padding: nat) {
    function RecordPos(): nat { start + fake }
    function End(): nat { start + fake + total }
  }

  /** `plan_push` on unbounded positions. A read position ahead of the write position is a stale pair. */
  function PlanPush(l: Layout, cap: nat, size: nat, writePos: nat, readPos: nat): Option<Plan>
    requires cap > 0
  {
    if writePos < readPos || writePos - readPos > cap then None
    else
      var free := cap - (writePos - readPos);
      var total := AlignUp(l, l.Word() + size);
      if total > cap / 2 then None
      else
        var offset := writePos % cap;
        var tail := cap - offset;
        var fake := if offset != 0 && total > tail then tail else 0;
        if free < fake + total then None
        else Some(Plan(writePos, fake, total, total - l.Word() - size))
  }

  /** What a plan promises about the bytes it claims: aligned, contiguous after the marker, within the free space. */
  ghost predicate PlanFits(l: Layout, cap: nat, size: nat, p: Plan) {
    && cap > 0
    && p.start % l.Word() == 0 && p.fake % l.Word() == 0 && p.total % l.Word() == 0
    && (p.fake == 0 || (p.start % cap + p.fake == cap && p.fake >= l.Word() && p.RecordPos() % cap == 0))
    && p.RecordPos() % cap + p.total <= cap
    && p.total == l.Word() + size + p.padding && p.padding < l.Word()
    && p.total <= cap / 2
    && p.fake < l.StrideMod() && p.total < l.StrideMod()
  }

  lemma PlanPushFits(l: Layout, cap: nat, size: nat, writePos: nat, readPos: nat)
    requires ValidCapacity(l, cap) && writePos % l.Word() == 0
    requires PlanPush(l, cap, size, writePos, readPos).Some?
    ensures var p := PlanPush(l, cap, size, writePos, readPos).value;
            && PlanFits(l, cap, size, p)
            && p.start == writePos && p.End() <= readPos + cap
            && (p.fake == 0 <==> writePos % cap + p.total <= cap)
  {
    CapacityFacts(l, cap);
    var p := PlanPush(l, cap, size, writePos, readPos).value;
    ModMod(writePos, cap, l.Word());
    if p.fake != 0 {
      AlignedDifference(cap, writePos % cap, l.Word());
      NextWrap(writePos, cap);
    }
  }

  /** The end of storage behind a position is the next multiple of the capacity. */
  lemma NextWrap(pos: nat, cap: nat)
    requires cap > 0
    ensures (pos + (cap - pos % cap)) % cap == 0
  {
    assert pos + (cap - pos % cap) == (pos / cap + 1) * cap;
    MultipleMod(pos / cap + 1, cap);
  }

  lemma AlignedDifference(a: nat, b: nat, w: nat)
    requires w > 0 && b < a && a % w == 0 && b % w == 0
    ensures (a - b) % w == 0 && a - b >= w
  {
    assert a == a / w * w && b == b / w * w;
    var d := a / w - b / w;
    assert a - b == d * w;
    if d <= 0 { MulMono(d, 0, w); }
    MultipleMod(d, w);
    MulMono(1, d, w);
  }

  /**
   With nothing else in the ring, every record of the largest admitted size fits at every aligned position:
   marker and record together never need more than the capacity.
   */
  lemma EmptyRingAcceptsMaxRecord(l: Layout, cap: nat, size: nat, pos: nat)
    requires ValidCapacity(l, cap) && pos % l.Word() == 0
    ensures PlanPush(l, cap, size, pos, pos).Some? <==> size <= MaxRecordSize(l, cap)
  {
    CapacityFacts(l, cap);
    var w, total := l.Word(), AlignUp(l, l.Word() + size);
    if size <= MaxRecordSize(l, cap) {
      if total > cap / 2 { AlignedDifference(total, cap / 2, w); }
    }
  }

  // ---- wrapped counters ----

  /** `plan_push` as the C code computes it, on counters that wrap at SIZE_MAX + 1. */
  function WrappedPlanPush(l: Layout, cap: nat, size: nat, writePos: nat, readPos: nat): Option<Plan>
    requires cap > 0
  {
    var m := l.SizeMod();
    var used := (writePos - readPos) % m;
    if used > cap then None
    else
      var free := cap - used;
      var total := AlignUp(l, l.Word() + size);
      if total > cap / 2 then None
      else
        var offset := writePos % cap;
        var tail := cap - offset;
        var fake := if offset != 0 && total > tail then tail else 0;
        var publish := (fake + total) % m;
        if free < publish then None
        else Some(Plan(writePos, fake, total, total - l.Word() - size))
  }

  /**
   The wrapped computation agrees with the unbounded one, also for a stale pair in which the read
   position has overtaken the write position, as long as the two are less than SIZE_MAX + 1 - capacity apart.
   */
  lemma WrappedPlanAgrees(l: Layout, cap: nat, size: nat, writePos: nat, readPos: nat)
    requires ValidCapacity(l, cap)
    requires readPos - writePos < l.SizeMod() - cap && writePos - readPos < l.SizeMod()
    ensures var m := l.SizeMod();
            match PlanPush(l, cap, size, writePos, readPos)
            case None => WrappedPlanPush(l, cap, size, writePos % m, readPos % m).None?
            case Some(p) => WrappedPlanPush(l, cap, size, writePos % m, readPos % m)
                            == Some(Plan(p.start % m, p.fake, p.total, p.padding))
  {
    hide IsPow2;
    var m := l.SizeMod();
    CapacityFacts(l, cap);
    WrappedUsed(m, cap, writePos, readPos);
    ModMod(writePos, m, cap);
    var total := AlignUp(l, l.Word() + size);
    if total <= cap / 2 { WrappedPublish(m, cap, writePos % cap, total); }
  }

  /** The sum of marker and record cannot wrap. */
  lemma WrappedPublish(m: nat, cap: nat, offset: nat, total: nat)
    requires 0 < cap <= m / 2 && offset < cap && total <= cap / 2
    ensures var fake := if offset != 0 && total > cap - offset then cap - offset else 0;
            (fake + total) % m == fake + total
  {
    var fake := if offset != 0 && total > cap - offset then cap - offset else 0;
    ModUnique(fake + total, m, 0, fake + total);
  }

  lemma WrappedUsed(m: nat, cap: nat, writePos: nat, readPos: nat)
    requires m > 0 && readPos - writePos < m - cap && writePos - readPos < m
    ensures var used := (writePos % m - readPos % m) % m;
            if writePos >= readPos then used == writePos - readPos else used > cap
  {
    if writePos >= readPos {
      WrappedDifference(writePos, readPos, m);
    } else {
      ModWindow(writePos, readPos, m);
      var d := readPos - writePos;
      ModUnique(writePos % m - readPos % m, m, if readPos % m == writePos % m + d then -1 else 0, m - d);
    }
  }

  // ---- checking the parts of a record ----

  function SumSizes(sizes: seq<nat>): nat {
    if sizes == [] then 0 else SumSizes(sizes[..|sizes| - 1]) + sizes[|sizes| - 1]
  }

  lemma {:induction false} SumSizesPrefix(sizes: seq<nat>, k: nat)
    requires k <= |sizes|
    ensures SumSizes(sizes[..k]) <= SumSizes(sizes)
    decreases |sizes|
  {
    if k < |sizes| {
      var front := sizes[..|sizes| - 1];
      assert front[..k] == sizes[..k];
      SumSizesPrefix(front, k);
    } else {
      assert sizes[..k] == sizes;
    }
  }

  /**
   The size loop of `try_pushv`: it adds the part sizes in a `size_t` and gives up at the first sum that
   comes out smaller than before. It accepts exactly the lists whose true sum fits.
   */
  method AddPartSizes(l: Layout, sizes: seq<nat>) returns (r: Option<nat>)
    requires forall k :: 0 <= k < |sizes| ==> sizes[k] < l.SizeMod()
    ensures r == if SumSizes(sizes) < l.SizeMod() then Some(SumSizes(sizes)) else None
  {
    var m := l.SizeMod();
    var size: nat := 0;
    for i := 0 to |sizes|
      invariant size == SumSizes(sizes[..i]) < m
    {
      var prev := size;
      assert sizes[..i + 1][..i] == sizes[..i];
      assert SumSizes(sizes[..i + 1]) == size + sizes[i];
      if prev + sizes[i] < m {
        ModUnique(prev + sizes[i], m, 0, prev + sizes[i]);
      } else {
        ModUnique(prev + sizes[i], m, 1, prev + sizes[i] - m);
      }
      size := (prev + sizes[i]) % m;
      if size < prev {
        SumSizesPrefix(sizes, i + 1);
        return None;
      }
    }
    assert sizes[..|sizes|] == sizes;
    return Some(size);
  }
}
