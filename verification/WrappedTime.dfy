/**
 64-bit clock values that wrap. Deadlines and clock samples are true times reduced modulo 2^64; the difference
 read as a signed number is the true difference as long as that fits in 64 bits.
 */
module WrappedTime {
  import opened Arithmetic

  const WRAP := 0x1_0000_0000_0000_0000
  const HALF := 0x8000_0000_0000_0000
  const INT64_MAX := 0x7FFF_FFFF_FFFF_FFFF

  /** `ns_timer_remaining_us`: the unsigned difference, converted to int64_t. */
  function Remaining(expire: int, now: int): (r: int)
    ensures -HALF <= r < HALF
  {
    var d := (expire - now) % WRAP;
    if d < HALF then d else d - WRAP
  }

  function Wrapped(time: int): (w: nat)
    ensures w < WRAP
  {
    time % WRAP
  }

  /** The remaining time is the true one exactly for deadlines less than 2^63 away in either direction. */
  lemma RemainingIsTrue(due: int, clock: int)
    ensures Remaining(Wrapped(due), Wrapped(clock)) == due - clock <==> -HALF <= due - clock < HALF
  {
    if -HALF <= due - clock < HALF {
      var d := (Wrapped(due) - Wrapped(clock)) % WRAP;
      var k := due / WRAP - clock / WRAP;
      assert Wrapped(due) - Wrapped(clock) == (due - clock) - k * WRAP;
      if due >= clock {
        ModUnique(Wrapped(due) - Wrapped(clock), WRAP, -k, due - clock);
      } else {
        assert Wrapped(due) - Wrapped(clock) == (-k - 1) * WRAP + (due - clock + WRAP);
        ModUnique(Wrapped(due) - Wrapped(clock), WRAP, -k - 1, due - clock + WRAP);
      }
    }
  }

  /** `ns_timer_cmp` at the clock sample `now`. */
  function Compare(a: int, b: int, now: int): int {
    if Remaining(a, now) < Remaining(b, now) then -1
    else if Remaining(a, now) > Remaining(b, now) then 1
    else 0
  }

  /** Whatever the clock sample, comparing wrapped deadlines is comparing the true ones. */
  lemma CompareIsTrueOrder(a: int, b: int, clock: int)
    requires -HALF <= a - clock < HALF && -HALF <= b - clock < HALF
    ensures Compare(Wrapped(a), Wrapped(b), Wrapped(clock)) == if a < b then -1 else if a > b then 1 else 0
  {
    RemainingIsTrue(a, clock);
    RemainingIsTrue(b, clock);
  }

  /** So a queue sorted at one sample is sorted at every later one, even across a wrap of the counter. */
  lemma SortedStaysSorted(dues: seq<int>, clock: int, later: int)
    requires forall i :: 0 <= i < |dues| ==> -HALF <= dues[i] - clock < HALF && -HALF <= dues[i] - later < HALF
    requires forall i, j :: 0 <= i < j < |dues| ==> Compare(Wrapped(dues[i]), Wrapped(dues[j]), Wrapped(clock)) <= 0
    ensures forall i, j :: 0 <= i < j < |dues| ==> Compare(Wrapped(dues[i]), Wrapped(dues[j]), Wrapped(later)) <= 0
  {
    forall i, j | 0 <= i < j < |dues|
      ensures Compare(Wrapped(dues[i]), Wrapped(dues[j]), Wrapped(later)) <= 0
    {
      CompareIsTrueOrder(dues[i], dues[j], clock);
      CompareIsTrueOrder(dues[i], dues[j], later);
    }
  }

  /** Adding an interval to a clock sample, with the wrap of unsigned addition. */
  lemma AddInterval(clock: int, interval: nat)
    ensures (Wrapped(clock) + interval) % WRAP == Wrapped(clock + interval)
  {
    var q := clock / WRAP;
    var s := Wrapped(clock) + interval;
    assert clock + interval == (q + s / WRAP) * WRAP + s % WRAP;
    ModUnique(clock + interval, WRAP, q + s / WRAP, s % WRAP);
  }

  // ---- reload policy ----

  /** The next deadline of a repeating timer fired at `clock`. */
  function NextDue(due: int, interval: nat, fromNow: bool, clock: int): int {
    if fromNow || due + interval <= clock then clock + interval else due + interval
  }

  /** The deadline after a series of firings. */
  function DueAfter(start: int, interval: nat, fired: seq<int>): int {
    if fired == [] then start
    else NextDue(DueAfter(start, interval, fired[..|fired| - 1]), interval, false, fired[|fired| - 1])
  }

  /** A timer stays exactly on its grid if and only if it is never fired a whole interval late. */
  lemma {:induction false} GridKept(start: int, interval: nat, fired: seq<int>)
    requires interval > 0
    ensures DueAfter(start, interval, fired) >= start + |fired| * interval
    ensures DueAfter(start, interval, fired) == start + |fired| * interval
            <==> forall i :: 0 <= i < |fired| ==> fired[i] < start + (i + 1) * interval
  {
    if fired != [] {
      var n := |fired| - 1;
      GridKept(start, interval, fired[..n]);
      assert (n + 1) * interval == n * interval + interval;
      assert forall i :: 0 <= i < n ==> fired[..n][i] == fired[i];
    }
  }
}
