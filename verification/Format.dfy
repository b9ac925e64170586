/** Integer, character, string and array conversions of the formatter, and the parsing of field widths. */
module Format {
  import opened Arithmetic
  import opened OutStream

  const ULLONG := 0x1_0000_0000_0000_0000
  const LLONG_HALF := 0x8000_0000_0000_0000
  const INT_MAX := 0x7FFF_FFFF
  const MAX_FIELD := 0x10_0000
  const STACK_CACHE_SIZE := 16

  datatype Base = Bin | Oct | Dec | Hex {
    function Radix(): nat { match this case Bin => 2 case Oct => 8 case Dec => 10 case Hex => 16 }
  }

  datatype Flags = Flags(left: bool, plus: bool, space: bool, special: bool, zeropad: bool, large: bool, signed: bool)

  // ---- digits ----

  function DigitChar(d: nat, large: bool): char
    requires d < 16
  {
    if d < 10 then '0' + d as char else (if large then 'A' else 'a') + (d - 10) as char
  }

  predicate IsDigit(c: char) { '0' <= c <= '9' || 'a' <= c <= 'f' || 'A' <= c <= 'F' }

  function DigitValue(c: char): nat {
    if '0' <= c <= '9' then (c - '0') as nat
    else if 'a' <= c <= 'f' then (c - 'a') as nat + 10
    else if 'A' <= c <= 'F' then (c - 'A') as nat + 10
    else 0
  }

  lemma DigitRoundTrip(d: nat, large: bool)
    requires d < 16
    ensures IsDigit(DigitChar(d, large)) && DigitValue(DigitChar(d, large)) == d
    ensures DigitChar(d, large) == '0' <==> d == 0
  {
  }

  lemma DigitTable(d: nat, large: bool)
    requires d < 16
    ensures DigitChar(d, large) == if large then "0123456789ABCDEF"[d] else "0123456789abcdef"[d]
  {
  }

  /** The number a digit string denotes. */
  function Value(s: seq<char>, radix: nat): nat {
    if s == [] then 0 else Value(s[..|s| - 1], radix) * radix + DigitValue(s[|s| - 1])
  }

  /** All of them are digits of the radix. */
  predicate AllBelow(s: seq<char>, radix: nat) {
    forall i :: 0 <= i < |s| ==> IsDigit(s[i]) && DigitValue(s[i]) < radix
  }

  function DigitsOf(n: nat, radix: nat, large: bool): (s: seq<char>)
    requires 2 <= radix <= 16
    ensures |s| > 0
  {
    if n < radix then [DigitChar(n, large)]
    else DigitsOf(n / radix, radix, large) + [DigitChar(n % radix, large)]
  }

  /** The digits denote the number, none is superfluous, and all are digits of the radix. */
  lemma {:induction false} DigitsRoundTrip(n: nat, radix: nat, large: bool)
    requires 2 <= radix <= 16
    ensures var s := DigitsOf(n, radix, large);
            && Value(s, radix) == n
            && (n > 0 ==> s[0] != '0') && (n == 0 ==> s == "0")
            && AllBelow(s, radix)
    decreases n
  {
    hide DigitChar, DigitValue, IsDigit, DigitsOf, Value;
    var q, d := LastDigit(n, radix, large);
    DigitRoundTrip(d, large);
    if q == 0 {
      ValueSnoc([], DigitChar(d, large), radix);
      assert [] + [DigitChar(d, large)] == [DigitChar(d, large)];
    } else {
      DigitsRoundTrip(q, radix, large);
      ValueSnoc(DigitsOf(q, radix, large), DigitChar(d, large), radix);
    }
  }

  lemma LastDigit(n: nat, radix: nat, large: bool) returns (q: nat, d: nat)
    requires 2 <= radix <= 16
    ensures q == n / radix && d == n % radix < radix && n == q * radix + d && (q > 0 ==> q < n)
    ensures DigitsOf(n, radix, large) == if q == 0 then [DigitChar(d, large)]
                                         else DigitsOf(q, radix, large) + [DigitChar(d, large)]
  {
    hide DigitChar;
    q, d := DivMod(n, radix);
  }

  lemma DivMod(n: nat, radix: nat) returns (q: nat, d: nat)
    requires radix >= 2
    ensures q == n / radix && d == n % radix < radix && n == q * radix + d
    ensures (q == 0 <==> n < radix) && (q > 0 ==> q < n)
  {
    q, d := n / radix, n % radix;
    MulMono(2, radix, q);
    if q == 0 { ModUnique(n, radix, 0, d); }
    if n < radix { ModUnique(n, radix, 0, n); }
  }

  lemma ValueSnoc(s: seq<char>, c: char, radix: nat)
    ensures Value(s + [c], radix) == Value(s, radix) * radix + DigitValue(c) && Value([], radix) == 0
  {
    assert (s + [c])[..|s|] == s;
  }

  lemma {:induction false} LeadingZeros(k: nat, s: seq<char>, radix: nat)
    ensures Value(Run('0', k) + s, radix) == Value(s, radix)
    decreases k + |s|
  {
    var t := Run('0', k) + s;
    if s != [] {
      assert t[..|t| - 1] == Run('0', k) + s[..|s| - 1];
      LeadingZeros(k, s[..|s| - 1], radix);
    } else if k > 0 {
      assert t == Run('0', k) && t[..|t| - 1] == Run('0', k - 1) + [];
      LeadingZeros(k - 1, [], radix);
    }
  }

  /** `num_bit_count`. */
  method NumBitCount(num: nat, radix: nat) returns (count: nat)
    requires num < ULLONG && 2 <= radix <= 16
    ensures count == |DigitsOf(num, radix, false)| && count <= 64
  {
    hide DigitChar, Power2;
    var number: nat := num;
    count := 0;
    ghost var left := |DigitsOf(num, radix, false)|;
    PowerOf64();
    FewDigits(num, radix, 64);
    while true
      invariant count + |DigitsOf(number, radix, false)| == left
      decreases number
    {
      DigitsShrink(number, radix);
      number := number / radix;
      count := count + 1;
      if number == 0 { break; }
    }
  }

  lemma DigitsShrink(n: nat, radix: nat)
    requires 2 <= radix <= 16
    ensures n / radix == 0 <==> n < radix
    ensures n >= radix ==> n / radix < n && |DigitsOf(n, radix, false)| == |DigitsOf(n / radix, radix, false)| + 1
    ensures n < radix ==> |DigitsOf(n, radix, false)| == 1
  {
    hide DigitChar;
    var q, d := DivMod(n, radix);
  }

  lemma {:induction false} FewDigits(n: nat, radix: nat, bits: nat)
    requires 2 <= radix <= 16 && bits > 0 && n < 2 * Power2(bits - 1)
    ensures |DigitsOf(n, radix, false)| <= bits
    decreases bits
  {
    hide DigitChar, DigitsOf;
    var q, d := LastDigit(n, radix, false);
    if q > 0 {
      BelowHalf(n, radix, Power2(bits - 1), q, d);
      FewDigits(q, radix, bits - 1);
    }
  }

  lemma BelowHalf(n: nat, radix: nat, p: nat, q: nat, d: nat)
    requires radix >= 2 && n == q * radix + d && n < 2 * p
    ensures q < p
  {
    MulMono(2, radix, q);
  }

  lemma {:induction false} PowerSum(a: nat, b: nat)
    ensures Power2(a + b) == Power2(a) * Power2(b)
  {
    if a > 0 { PowerSum(a - 1, b); }
  }

  lemma PowerOf64()
    ensures 2 * Power2(63) == ULLONG
  {
    assert Power2(8) == 256;
    PowerSum(8, 8);
    PowerSum(16, 16);
    PowerSum(32, 32);
    assert Power2(64) == 2 * Power2(63);
  }

  function Power2(n: nat): nat { if n == 0 then 1 else 2 * Power2(n - 1) }

  // ---- widths ----

  /** The decimal number at the start of s. */
  function LeadingDigits(s: seq<char>): (k: nat)
    ensures k <= |s|
  {
    if s != [] && '0' <= s[0] <= '9' then 1 + LeadingDigits(s[1..]) else 0
  }

  /** `skip_atoi`: the decimal value, but no more than the field limit; no step leaves the range of int. */
  method SkipAtoi(s: seq<char>) returns (value: nat, rest: seq<char>)
    ensures var k := LeadingDigits(s);
            rest == s[k..] && value == if Value(s[..k], 10) > MAX_FIELD then MAX_FIELD else Value(s[..k], 10)
  {
    value := 0;
    var i := 0;
    while i < |s| && '0' <= s[i] <= '9'
      invariant 0 <= i <= |s| && i + LeadingDigits(s[i..]) == LeadingDigits(s)
      invariant value == if Value(s[..i], 10) > MAX_FIELD then MAX_FIELD else Value(s[..i], 10)
    {
      assert s[..i + 1][..i] == s[..i] && s[i..][1..] == s[i + 1..];
      var next := value * 10 + (s[i] - '0') as nat;
      assert next <= INT_MAX;
      value := if next > MAX_FIELD then MAX_FIELD else next;
      i := i + 1;
    }
    rest := s[i..];
    assert s[..LeadingDigits(s)] == s[..i];
  }

  // ---- integers ----

  /** The signed reading of a 64-bit word. */
  function SignedValue(num: nat): int { if num >= LLONG_HALF then num - ULLONG else num }

  /** `num = -num` in unsigned arithmetic when the word is negative; LLONG_MIN maps to itself. */
  function Magnitude(num: nat, f: Flags): (m: nat)
    requires num < ULLONG
    ensures m < ULLONG && (f.signed && SignedValue(num) < 0 ==> m == -SignedValue(num)) && (m == num || f.signed)
  {
    if f.signed && num >= LLONG_HALF then (ULLONG - num) % ULLONG else num
  }

  function SignOf(num: nat, f: Flags): (s: seq<char>)
    ensures |s| <= 1
  {
    if f.signed && num >= LLONG_HALF then "-"
    else if f.plus then "+"
    else if f.space then " "
    else ""
  }

  function PrefixOf(f: Flags, base: Base): (s: seq<char>)
    ensures |s| <= 2
  {
    if !f.special then ""
    else match base
         case Oct => "0"
         case Hex => if f.large then "0X" else "0x"
         case Bin => if f.large then "0B" else "0b"
         case Dec => ""
  }

  /** Padding zeros: up to the precision if there is one, otherwise up to the width if the flag asks for it. */
  function ZerosFor(digits: nat, front: nat, width: int, precision: int, f: Flags): nat {
    if precision >= 0 then (if precision > digits then precision - digits else 0)
    else if f.zeropad && width > front + digits then width - front - digits
    else 0
  }

  function PadTo(length: nat, width: int): nat { if width > length then width - length else 0 }

  function Justify(core: seq<char>, width: int, left: bool): (s: seq<char>)
    ensures |s| == if width > |core| then width else |core|
  {
    var pad := Run(' ', PadTo(|core|, width));
    if left then core + pad else pad + core
  }

  function NumberCore(num: nat, width: int, precision: int, f: Flags, base: Base): seq<char>
    requires num < ULLONG
  {
    var digits := DigitsOf(Magnitude(num, f), base.Radix(), f.large);
    var sign, prefix := SignOf(num, f), PrefixOf(f, base);
    sign + prefix + Run('0', ZerosFor(|digits|, |sign| + |prefix|, width, precision, f)) + digits
  }

  function NumberText(num: nat, width: int, precision: int, f: Flags, base: Base): seq<char>
    requires num < ULLONG
  {
    Justify(NumberCore(num, width, precision, f, base), width, f.left)
  }

  /**
   `vprintf_number`: emits the text of the number and returns its length; gives up without output only when more
   digits than the stack buffer holds are needed and no memory is available.
   */
  method VprintfNumber(out: Stream, num: nat, width: int, precision: int, f: Flags, base: Base, allocOk: bool)
    returns (n: nat)
    requires num < ULLONG && out.Valid()
    modifies out, out.cells
    ensures out.Valid()
    ensures var text := if |DigitsOf(Magnitude(num, f), base.Radix(), f.large)| > STACK_CACHE_SIZE && !allocOk then []
                        else NumberText(num, width, precision, f, base);
            out.emitted == old(out.emitted) + text && n == |text|
  {
    hide DigitsOf, NumberText, Run, Magnitude, SignOf, PrefixOf, ZerosFor, PadTo;
    var sign, magnitude := SignAndMagnitude(num, f);
    var bitCount := NumBitCount(magnitude, base.Radix());
    SameLength(magnitude, base.Radix(), f.large);
    if bitCount > STACK_CACHE_SIZE && !allocOk { return 0; }
    var numberBuf := FillDigits(magnitude, base.Radix(), f.large, bitCount);
    var special := PrefixOf(f, base);
    var zeropadCount, spacepadCount := PadCounts(|sign| + |special|, bitCount, width, precision, f);
    TextParts(num, width, precision, f, base);
    n := EmitNumber(out, sign, special, zeropadCount, numberBuf, spacepadCount, f.left);
  }

  /** The sign character and the absolute value. */
  method SignAndMagnitude(num: nat, f: Flags) returns (sign: seq<char>, magnitude: nat)
    requires num < ULLONG
    ensures sign == SignOf(num, f) && magnitude == Magnitude(num, f)
  {
    sign, magnitude := [], num;
    if f.signed && num >= LLONG_HALF {
      sign := "-";
      magnitude := (ULLONG - num) % ULLONG;
    }
    if sign != "-" {
      if f.plus { sign := "+"; } else if f.space { sign := " "; }
    }
  }

  /** The counting part of `vprintf_number`. */
  method PadCounts(front: nat, bitCount: nat, width: int, precision: int, f: Flags)
    returns (zeropad: nat, spacepad: nat)
    ensures zeropad == ZerosFor(bitCount, front, width, precision, f)
    ensures spacepad == PadTo(front + zeropad + bitCount, width)
  {
    zeropad, spacepad := 0, 0;
    var realityCount, padWithZeros := front + bitCount, f.zeropad;
    if precision >= 0 {
      padWithZeros := false;
      if precision > bitCount { zeropad := precision - bitCount; }
      realityCount := realityCount + zeropad;
    }
    if width > realityCount {
      if padWithZeros { zeropad := width - realityCount; } else { spacepad := width - realityCount; }
    }
  }

  lemma TextParts(num: nat, width: int, precision: int, f: Flags, base: Base)
    requires num < ULLONG
    ensures var digits := DigitsOf(Magnitude(num, f), base.Radix(), f.large);
            var sign, prefix := SignOf(num, f), PrefixOf(f, base);
            var zeros := ZerosFor(|digits|, |sign| + |prefix|, width, precision, f);
            var core := sign + prefix + Run('0', zeros) + digits;
            var pad := Run(' ', PadTo(|sign| + |prefix| + zeros + |digits|, width));
            NumberText(num, width, precision, f, base) == if f.left then core + pad else pad + core
  {
    hide DigitsOf, Run;
  }

  /** The emitting loops of `vprintf_number`. */
  method EmitNumber(out: Stream, sign: seq<char>, special: seq<char>, zeros: nat, digits: seq<char>, spaces: nat,
      left: bool)
    returns (n: nat)
    requires out.Valid()
    modifies out, out.cells
    ensures out.Valid()
    ensures var core := sign + special + Run('0', zeros) + digits;
            var text := if left then core + Run(' ', spaces) else Run(' ', spaces) + core;
            out.emitted == old(out.emitted) + text && n == |text|
  {
    hide Run;
    n := 0;
    var k;
    if !left { k := out.Repeat(' ', spaces); n := n + k; }
    ghost var front := out.emitted;
    k := out.PutAll(sign); n := n + k;
    k := out.PutAll(special); n := n + k;
    k := out.Repeat('0', zeros); n := n + k;
    k := out.PutAll(digits); n := n + k;
    ghost var core := sign + special + Run('0', zeros) + digits;
    Joined(front, sign, special, Run('0', zeros), digits);
    assert out.emitted == front + core;
    if left { k := out.Repeat(' ', spaces); n := n + k; }
  }

  lemma Joined(front: seq<char>, a: seq<char>, b: seq<char>, c: seq<char>, d: seq<char>)
    ensures front + a + b + c + d == front + (a + b + c + d)
  {
  }

  lemma {:induction false} SameLength(n: nat, radix: nat, large: bool)
    requires 2 <= radix <= 16
    ensures |DigitsOf(n, radix, large)| == |DigitsOf(n, radix, false)|
    decreases n
  {
    hide DigitChar;
    if n >= radix { SameLength(n / radix, radix, large); }
  }

  lemma MovesBehind(front: seq<char>, c: char, tail: seq<char>)
    ensures front + [c] + tail == front + ([c] + tail)
  {
  }

  /** `num_rsh`: takes the last digit off the number. */
  method NumRsh(number: nat, radix: nat, large: bool) returns (digit: nat, rest: nat)
    requires 2 <= radix <= 16
    ensures digit < 16
    ensures DigitsOf(number, radix, large) == (if rest == 0 then [] else DigitsOf(rest, radix, large))
                                              + [DigitChar(digit, large)]
  {
    hide DigitChar, DigitsOf;
    rest, digit := number / radix, number % radix;
    ghost var q, d := LastDigit(number, radix, large);
  }

  /** The digit buffer, filled from the back by `num_rsh`. */
  method FillDigits(num: nat, radix: nat, large: bool, count: nat) returns (digits: seq<char>)
    requires 2 <= radix <= 16 && count == |DigitsOf(num, radix, large)|
    ensures digits == DigitsOf(num, radix, large)
  {
    hide DigitChar, DigitsOf;
    var buf := new char[count];
    var i, left: nat := count, num;
    ghost var all := DigitsOf(num, radix, large);
    ghost var front := all;
    while i > 0
      invariant 0 <= i == |front| && i <= count && all == front + buf[i..]
      invariant i > 0 ==> front == DigitsOf(left, radix, large)
    {
      ghost var tail := buf[i..];
      var digit;
      digit, left := NumRsh(left, radix, large);
      i := i - 1;
      MovesBehind(front[..i], front[i], tail);
      assert front[..i] + [front[i]] == front;
      front := front[..i];
      buf[i] := DigitChar(digit, large);
      assert buf[i..] == [buf[i]] + tail;
    }
    digits := buf[..];
  }

  // ---- what the text of a number means ----

  /** Every output is as long as the wider of the field and the natural length. */
  lemma NumberLength(num: nat, width: int, precision: int, f: Flags, base: Base)
    requires num < ULLONG
    ensures var digits := |DigitsOf(Magnitude(num, f), base.Radix(), f.large)|;
            var natural := |SignOf(num, f)| + |PrefixOf(f, base)| + if precision > digits then precision else digits;
            |NumberText(num, width, precision, f, base)| == if width > natural then width else natural
  {
    hide DigitsOf, Run;
  }

  function SkipSpaces(s: seq<char>): seq<char> {
    if s != [] && s[0] == ' ' then SkipSpaces(s[1..]) else s
  }

  function TakeDigits(s: seq<char>, radix: nat): seq<char> {
    if s != [] && IsDigit(s[0]) && DigitValue(s[0]) < radix then [s[0]] + TakeDigits(s[1..], radix) else []
  }

  function Signed(negative: bool, v: nat): int { if negative then -(v as int) else v }

  /** What follows the spaces and a sign. */
  function AfterSign(t: seq<char>): seq<char> { if t != [] && (t[0] == '+' || t[0] == '-') then t[1..] else t }

  /** The digits behind a base prefix of the given length. */
  function ReadDigits(u: seq<char>, prefix: nat, radix: nat): nat {
    Value(TakeDigits(if prefix <= |u| then u[prefix..] else [], radix), radix)
  }

  /** Reads a number back: spaces, a sign, a base prefix of the given length, digits. */
  function Read(s: seq<char>, prefix: nat, radix: nat): int {
    var t := SkipSpaces(s);
    Signed(t != [] && t[0] == '-', ReadDigits(AfterSign(t), prefix, radix))
  }

  lemma {:induction false} SkipPad(k: nat, s: seq<char>)
    ensures SkipSpaces(Run(' ', k) + s) == SkipSpaces(s)
  {
    if k == 0 {
      assert Run(' ', 0) + s == s;
    } else {
      assert (Run(' ', k) + s)[1..] == Run(' ', k - 1) + s;
      SkipPad(k - 1, s);
    }
  }

  lemma {:induction false} TakeAll(d: seq<char>, rest: seq<char>, radix: nat)
    requires AllBelow(d, radix)
    requires rest == [] || !IsDigit(rest[0])
    ensures TakeDigits(d + rest, radix) == d
  {
    if d == [] {
      assert d + rest == rest;
    } else {
      assert (d + rest)[1..] == d[1..] + rest;
      TakeAll(d[1..], rest, radix);
    }
  }

  /** The text with the padding in front taken off: sign, prefix, zeros and digits, then only spaces. */
  lemma ReadCore(sign: seq<char>, prefix: seq<char>, zeros: nat, digits: seq<char>, pad: nat, radix: nat)
    requires sign == "" || sign == "+" || sign == "-" || sign == " "
    requires (prefix == [] || prefix[0] == '0') && radix >= 2
    requires digits != [] && AllBelow(digits, radix)
    ensures var s := sign + prefix + Run('0', zeros) + digits + Run(' ', pad);
            Read(s, |prefix|, radix) == Signed(sign == "-", Value(digits, radix))
  {
    hide Value, IsDigit, DigitValue, ReadDigits, Run, TakeDigits;
    var u := prefix + (Run('0', zeros) + digits) + Run(' ', pad);
    var s := sign + prefix + Run('0', zeros) + digits + Run(' ', pad);
    assert s == sign + u;
    StartsWithDigit(prefix, zeros, digits, Run(' ', pad));
    ReadBody(prefix, zeros, digits, pad, radix);
    if sign == "" {
      assert s == u;
    } else {
      assert s[1..] == u && s[0] == sign[0];
      if sign == " " {
        assert SkipSpaces(s) == SkipSpaces(u) == u && AfterSign(u) == u;
      } else {
        assert SkipSpaces(s) == s && AfterSign(s) == u;
      }
    }
  }

  lemma ReadBody(prefix: seq<char>, zeros: nat, digits: seq<char>, pad: nat, radix: nat)
    requires radix >= 2 && AllBelow(digits, radix)
    ensures ReadDigits(prefix + (Run('0', zeros) + digits) + Run(' ', pad), |prefix|, radix) == Value(digits, radix)
  {
    hide Value, AllBelow, Run, TakeDigits;
    var d, rest := Run('0', zeros) + digits, Run(' ', pad);
    assert (prefix + d + rest)[|prefix|..] == d + rest;
    AllDigits(zeros, digits, radix);
    TakeAll(d, rest, radix);
    LeadingZeros(zeros, digits, radix);
  }

  lemma AllDigits(zeros: nat, digits: seq<char>, radix: nat)
    requires radix >= 2 && AllBelow(digits, radix)
    ensures AllBelow(Run('0', zeros) + digits, radix)
    ensures forall k: nat :: k > 0 ==> !IsDigit(Run(' ', k)[0])
  {
    hide Run;
    forall k: nat | k > 0 ensures !IsDigit(Run(' ', k)[0]) { }
  }

  lemma StartsWithDigit(prefix: seq<char>, zeros: nat, digits: seq<char>, rest: seq<char>)
    requires (prefix == [] || prefix[0] == '0') && digits != [] && IsDigit(digits[0])
    ensures var u := prefix + (Run('0', zeros) + digits) + rest;
            u != [] && u[0] != ' ' && u[0] != '+' && u[0] != '-'
  {
    hide Run;
    var u := prefix + (Run('0', zeros) + digits) + rest;
    if prefix != [] { assert u[0] == prefix[0]; }
    else if zeros > 0 { assert u[0] == Run('0', zeros)[0]; }
    else { assert u[0] == digits[0]; }
  }

  /** Printing round-trips in every base: the text reads back as the signed or unsigned value, LLONG_MIN included. */
  lemma NumberRoundTrip(num: nat, width: int, precision: int, f: Flags, base: Base)
    requires num < ULLONG
    ensures Read(NumberText(num, width, precision, f, base), |PrefixOf(f, base)|, base.Radix())
            == if f.signed then SignedValue(num) else num
  {
    hide Value, AllBelow, DigitsOf, Run, Read, ReadDigits;
    var digits := DigitsOf(Magnitude(num, f), base.Radix(), f.large);
    var sign, prefix, core := SignOf(num, f), PrefixOf(f, base), NumberCore(num, width, precision, f, base);
    var zeros := ZerosFor(|digits|, |sign| + |prefix|, width, precision, f);
    var pad := PadTo(|core|, width);
    DigitsRoundTrip(Magnitude(num, f), base.Radix(), f.large);
    if f.left {
      ReadCore(sign, prefix, zeros, digits, pad, base.Radix());
    } else {
      ReadCore(sign, prefix, zeros, digits, 0, base.Radix());
      ReadPadded(pad, core, |prefix|, base.Radix());
    }
  }

  lemma ReadPadded(pad: nat, core: seq<char>, prefix: nat, radix: nat)
    ensures Read(Run(' ', pad) + core, prefix, radix) == Read(core + Run(' ', 0), prefix, radix)
  {
    SkipPad(pad, core);
    assert core + Run(' ', 0) == core;
  }

  /**
   `ns_vsnprintf` around one integer conversion: the count is the full length of the text, which is empty if memory is
   needed and missing; the buffer holds its first size - 1 characters and a NUL, and a buffer of size zero is not
   touched.
   */
  method SnprintfNumber(buf: array<char>, num: nat, width: int, precision: int, f: Flags, base: Base, allocOk: bool)
    returns (n: nat)
    requires num < ULLONG
    modifies buf
    ensures var text := if |DigitsOf(Magnitude(num, f), base.Radix(), f.large)| > STACK_CACHE_SIZE && !allocOk then []
                        else NumberText(num, width, precision, f, base);
            && n == |text|
            && (buf.Length > 0 ==>
                  var k := if n < buf.Length then n else buf.Length - 1; buf[..k] == text[..k] && buf[k] == '\0')
  {
    hide NumberText, DigitsOf, Magnitude;
    var out := new Stream(Memory, buf);
    n := VprintfNumber(out, num, width, precision, f, base, allocOk);
    out.Finish();
  }

  // ---- characters and strings ----

  /** `vprintf_char`. */
  method VprintfChar(out: Stream, ch: char, width: int, left: bool) returns (n: nat)
    requires out.Valid()
    modifies out, out.cells
    ensures out.Valid()
    ensures out.emitted == old(out.emitted) + Justify([ch], width, left) && n == |Justify([ch], width, left)|
  {
    hide Run;
    ghost var before := out.emitted;
    n := if width <= 1 then 1 else width;
    if left { out.PutByte(ch); }
    var pads := out.Repeat(' ', width - 1);
    if !left { out.PutByte(ch); }
    assert pads == PadTo(1, width);
    if left {
      assert out.emitted == before + ([ch] + Run(' ', pads));
    } else {
      assert out.emitted == before + (Run(' ', pads) + [ch]);
    }
  }

  datatype CString = Null | Text(chars: seq<char>)

  /** What is printed of a string: all of it, or as many characters as the precision allows. */
  function Shown(s: CString, precision: int): (t: seq<char>)
    ensures t <= if s.Null? then "(null)" else s.chars
    ensures t != (if s.Null? then "(null)" else s.chars) ==> |t| == precision
    ensures precision < 0 || |t| <= precision
  {
    var chars := if s.Null? then "(null)" else s.chars;
    if 0 <= precision < |chars| then chars[..precision] else chars
  }

  /** `vprintf_string`; a negative width is no width. */
  method VprintfString(out: Stream, s: CString, width: int, precision: int, left: bool) returns (n: nat)
    requires out.Valid()
    modifies out, out.cells
    ensures out.Valid()
    ensures var text := Justify(Shown(s, precision), width, left);
            out.emitted == old(out.emitted) + text && n == |text|
  {
    hide Run;
    var chars := if s.Null? then "(null)" else s.chars;
    var len := 0;
    while len != precision && len < |chars|
      invariant 0 <= len <= |chars| && (precision >= 0 ==> len <= precision)
      decreases |chars| - len
    {
      len := len + 1;
    }
    assert chars[..len] == Shown(s, precision);
    n := EmitNumber(out, [], [], 0, chars[..len], PadTo(len, width), left);
    CoreOnly(chars[..len]);
  }

  lemma CoreOnly(s: seq<char>)
    ensures [] + [] + Run('0', 0) + s == s
  {
  }

  // ---- arrays in hexadecimal ----

  type byte = x: nat | x < 256

  /** The number stored in these bytes, least significant first. */
  function LittleEndian(bytes: seq<byte>): nat {
    if bytes == [] then 0 else bytes[0] + 256 * LittleEndian(bytes[1..])
  }

  /** One element, most significant byte first, two digits a byte. */
  function HexItem(bytes: seq<byte>, large: bool): (s: seq<char>)
    ensures |s| == 2 * |bytes|
  {
    if bytes == [] then []
    else HexItem(bytes[1..], large) + [DigitChar(bytes[0] / 16, large), DigitChar(bytes[0] % 16, large)]
  }

  /** The digits of an element denote its value. */
  lemma {:induction false} HexItemValue(bytes: seq<byte>, large: bool)
    ensures Value(HexItem(bytes, large), 16) == LittleEndian(bytes)
  {
    hide DigitChar, DigitValue, Value;
    if bytes == [] {
      ValueSnoc([], '0', 16);
    } else {
      HexItemValue(bytes[1..], large);
      TwoDigits(HexItem(bytes[1..], large), bytes[0], large);
    }
  }

  lemma TwoDigits(front: seq<char>, b: byte, large: bool)
    ensures Value(front + [DigitChar(b / 16, large), DigitChar(b % 16, large)], 16) == Value(front, 16) * 256 + b
  {
    hide DigitChar, DigitValue, Value;
    var high, low := DigitChar(b / 16, large), DigitChar(b % 16, large);
    DigitRoundTrip(b / 16, large);
    DigitRoundTrip(b % 16, large);
    ValueSnoc(front, high, 16);
    ValueSnoc(front + [high], low, 16);
    assert front + [high, low] == front + [high] + [low];
  }

  /** All elements, one space apart. */
  function HexDump(items: seq<byte>, count: nat, size: nat, large: bool): seq<char>
    requires |items| == count * size
  {
    if count == 0 then []
    else
      FrontFits(count, size);
      HexDump(items[..(count - 1) * size], count - 1, size, large)
      + (if count > 1 then " " else "") + HexItem(items[(count - 1) * size..], large)
  }

  lemma FrontFits(count: nat, size: nat)
    requires count > 0
    ensures 0 <= (count - 1) * size <= count * size && count * size == (count - 1) * size + size
  {
  }

  lemma {:induction false} HexDumpLength(items: seq<byte>, count: nat, size: nat, large: bool)
    requires |items| == count * size
    ensures |HexDump(items, count, size, large)| == 2 * (count * size) + if count > 0 then count - 1 else 0
  {
    if count > 0 {
      FrontFits(count, size);
      HexDumpLength(items[..(count - 1) * size], count - 1, size, large);
    }
  }

  /** The elements stand in order, each in its own two digits a byte, and one space follows each but the last. */
  lemma {:induction false} HexDumpLayout(items: seq<byte>, count: nat, size: nat, large: bool, k: nat)
    requires |items| == count * size && k < count
    ensures var dump, at, n := HexDump(items, count, size, large), k * (2 * size + 1), 2 * size;
            && 0 <= k * size <= k * size + size <= |items| && at + n <= |dump|
            && dump[at..at + n] == HexItem(items[k * size..k * size + size], large)
            && if k < count - 1 then at + n < |dump| && dump[at + n] == ' ' else at + n == |dump|
  {
    hide HexItem, HexDump;
    var front, item := LastItem(items, count, size, large);
    Places(count - 1, size);
    Places(k, size);
    if k < count - 1 {
      HexDumpLayout(items[..(count - 1) * size], count - 1, size, large, k);
      ItemsFit(k + 1, count - 1, size);
      FrontFits(k + 1, size);
      assert items[..(count - 1) * size][k * size..k * size + size] == items[k * size..k * size + size];
    }
  }

  lemma LastItem(items: seq<byte>, count: nat, size: nat, large: bool) returns (front: seq<char>, item: seq<char>)
    requires |items| == count * size && count > 0
    ensures var n := (count - 1) * size;
            && 0 <= n && n + size == |items|
            && front == HexDump(items[..n], count - 1, size, large) && item == HexItem(items[n..n + size], large)
            && |front| == 2 * n + (if count > 1 then count - 2 else 0) && |item| == 2 * size
            && HexDump(items, count, size, large) == front + (if count > 1 then " " else "") + item
  {
    hide HexItem;
    FrontFits(count, size);
    var n := (count - 1) * size;
    HexDumpLength(items[..n], count - 1, size, large);
    front, item := HexDump(items[..n], count - 1, size, large), HexItem(items[n..], large);
    assert items[n..n + size] == items[n..];
  }

  lemma Places(k: nat, size: nat)
    ensures k * (2 * size + 1) == 2 * (k * size) + k
  {
  }

  /** `vprintf_array`: the precision counts elements; without one nothing is printed. */
  method VprintfArray(out: Stream, items: seq<byte>, size: nat, width: int, precision: int, f: Flags) returns (n: nat)
    requires out.Valid() && size in {1, 2, 4, 8} && (precision >= 0 ==> |items| == precision * size)
    modifies out, out.cells
    ensures out.Valid()
    ensures var text := if precision < 0 then [] else Justify(HexDump(items, precision, size, f.large), width, f.left);
            out.emitted == old(out.emitted) + text && n == |text|
  {
    hide Run, HexItem, HexDump;
    n := 0;
    if precision < 0 { return; }
    var validLen := ValidLength(items, precision, size, f.large);
    var spacePadLen := PadTo(validLen, width);
    ghost var before, dump := out.emitted, HexDump(items, precision, size, f.large);
    var k;
    if !f.left { k := out.Repeat(' ', spacePadLen); n := n + k; }
    k := EmitItems(out, items, precision, size, f.large); n := n + k;
    if f.left { k := out.Repeat(' ', spacePadLen); n := n + k; }
    if f.left {
      assert out.emitted == before + (dump + Run(' ', spacePadLen));
    } else {
      assert out.emitted == before + (Run(' ', spacePadLen) + dump);
    }
  }

  method ValidLength(items: seq<byte>, count: nat, size: nat, large: bool) returns (validLen: nat)
    requires |items| == count * size
    ensures validLen == |HexDump(items, count, size, large)|
  {
    hide HexDump;
    HexDumpLength(items, count, size, large);
    Twice(count, size);
    validLen := count * (size * 2) + if count > 0 then count - 1 else 0;
  }

  lemma Twice(count: nat, size: nat)
    ensures count * (size * 2) == 2 * (count * size)
  {
  }

  /** The element loop of `vprintf_array`. */
  method EmitItems(out: Stream, items: seq<byte>, count: nat, size: nat, large: bool) returns (n: nat)
    requires out.Valid() && |items| == count * size
    modifies out, out.cells
    ensures out.Valid() && n == |HexDump(items, count, size, large)|
    ensures out.emitted == old(out.emitted) + HexDump(items, count, size, large)
  {
    hide HexItem, HexDump;
    n := 0;
    var i, item: nat := 0, 0;
    NoDump(items[..0], size, large);
    while i < count
      invariant 0 <= i <= count && item == i * size <= |items|
      invariant out.Valid() && n == |HexDump(items[..item], i, size, large)|
      invariant out.emitted == old(out.emitted) + HexDump(items[..item], i, size, large)
    {
      ItemsFit(i + 1, count, size);
      DumpStep(items, i, item, size, large);
      var k;
      if i > 0 { k := out.PutAll(" "); n := n + k; }
      k := EmitItem(out, items[item..item + size], large);
      n := n + k;
      i, item := i + 1, item + size;
    }
    assert items[..item] == items;
  }

  lemma NoDump(items: seq<byte>, size: nat, large: bool)
    requires items == []
    ensures HexDump(items, 0, size, large) == []
  {
  }

  lemma DumpStep(items: seq<byte>, i: nat, item: nat, size: nat, large: bool)
    requires item == i * size && item + size <= |items|
    ensures item + size == (i + 1) * size
    ensures HexDump(items[..item + size], i + 1, size, large)
            == HexDump(items[..item], i, size, large) + (if i > 0 then " " else "")
               + HexItem(items[item..item + size], large)
  {
    hide HexItem;
    FrontFits(i + 1, size);
    assert items[..item + size][..item] == items[..item] && items[..item + size][item..] == items[item..item + size];
  }

  lemma ItemsFit(i: nat, count: nat, size: nat)
    requires i <= count
    ensures i * size <= count * size
  {
    assert (count - i) * size >= 0;
  }

  /** The byte loop, from the most significant byte down. */
  method EmitItem(out: Stream, bytes: seq<byte>, large: bool) returns (n: nat)
    requires out.Valid()
    modifies out, out.cells
    ensures out.Valid() && n == 2 * |bytes| && out.emitted == old(out.emitted) + HexItem(bytes, large)
  {
    hide DigitChar;
    n := 0;
    var j := |bytes|;
    while j > 0
      invariant 0 <= j <= |bytes| && n == 2 * (|bytes| - j)
      invariant out.Valid() && out.emitted == old(out.emitted) + HexItem(bytes[j..], large)
    {
      j := j - 1;
      assert bytes[j..][1..] == bytes[j + 1..];
      out.PutByte(DigitChar(bytes[j] / 16, large));
      out.PutByte(DigitChar(bytes[j] % 16, large));
      n := n + 2;
    }
    assert bytes[0..] == bytes;
  }
}
