/**
 The text that section 7.19.6.1 of ISO/IEC 9899:1999 gives to an integer conversion (and section 7.23.6.1 of
 ISO/IEC 9899:2024 to a binary one), and exactly when the formatter prints it.
 */
module FormatStandard {
  import opened Arithmetic
  import opened OutStream
  import opened Format

  // ---- the standard's text ----

  /** The + and space flags apply to signed conversions only. */
  function StandardSign(num: nat, f: Flags): seq<char> {
    if !f.signed then "" else if num >= LLONG_HALF then "-" else if f.plus then "+" else if f.space then " " else ""
  }

  /** The # flag prefixes a nonzero hexadecimal or binary result. */
  function StandardPrefix(v: nat, f: Flags, base: Base): seq<char> {
    if !f.special || v == 0 || base.Oct? || base.Dec? then ""
    else if base.Hex? then (if f.large then "0X" else "0x")
    else if f.large then "0B" else "0b"
  }

  /** Zero with precision zero has no digits. */
  function StandardDigits(v: nat, precision: int, f: Flags, base: Base): seq<char> {
    if v == 0 && precision == 0 then "" else DigitsOf(v, base.Radix(), f.large)
  }

  /**
   The zeros in front of the digits: up to the precision; one for # in base eight if the result would not start with
   a zero; and up to the width for the 0 flag without the - flag or a precision.
   */
  function StandardZeros(v: nat, digits: nat, front: nat, width: int, precision: int, f: Flags, base: Base): nat {
    var least := if precision > digits then precision - digits else 0;
    var octal := if f.special && base.Oct? && least == 0 && !(v == 0 && digits > 0) then 1 else 0;
    var natural := front + least + octal + digits;
    least + octal + if f.zeropad && !f.left && precision < 0 && width > natural then width - natural else 0
  }

  /** Sign, prefix, zeros and digits of a text. */
  datatype Parts = Parts(sign: seq<char>, prefix: seq<char>, zeros: nat, digits: seq<char>) {
    function Core(): seq<char> { sign + prefix + Run('0', zeros) + digits }

    function Length(): nat { |sign| + |prefix| + zeros + |digits| }
  }

  function StandardParts(num: nat, width: int, precision: int, f: Flags, base: Base): Parts
    requires num < ULLONG
  {
    var v := Magnitude(num, f);
    var sign, prefix, digits := StandardSign(num, f), StandardPrefix(v, f, base), StandardDigits(v, precision, f, base);
    Parts(sign, prefix, StandardZeros(v, |digits|, |sign| + |prefix|, width, precision, f, base), digits)
  }

  function StandardText(num: nat, width: int, precision: int, f: Flags, base: Base): seq<char>
    requires num < ULLONG
  {
    Justify(StandardParts(num, width, precision, f, base).Core(), width, f.left)
  }

  // ---- where the formatter meets it ----

  function Larger(a: int, b: int): int { if a > b then a else b }

  /**
   The calls whose text is the standard's: no sign on an unsigned conversion, unless it is a space that falls into
   padding; no zero value with precision zero, and none with # in bases two and sixteen; in base eight with # no
   precision above the digits, and a zero value only where padding zeros swallow the prefix; and no zero padding on
   the left-justified, which only a pointer conversion asks for.
   */
  predicate Conforms(num: nat, width: int, precision: int, f: Flags, base: Base)
    requires num < ULLONG
  {
    var v := Magnitude(num, f);
    var n := |DigitsOf(v, base.Radix(), f.large)|;
    var fills := f.zeropad && precision < 0;
    && (!f.signed ==> !f.plus && (f.space ==> !f.left && !fills && width > |PrefixOf(f, base)| + Larger(precision, n)))
    && !(v == 0 && precision == 0)
    && (f.special && (base.Hex? || base.Bin?) ==> v != 0)
    && (f.special && base.Oct? ==>
          precision <= n && (v == 0 ==> fills && !f.left && width >= |SignOf(num, f)| + 2))
    && (f.left && fills ==> width <= |SignOf(num, f)| + |PrefixOf(f, base)| + n)
  }

  // ---- a text is padding around a body ----

  predicate Solid(x: seq<char>) { x != [] && x[0] != ' ' && x[|x| - 1] != ' ' }

  function Padded(a: nat, x: seq<char>, b: nat): (s: seq<char>)
    ensures |s| == a + |x| + b
    ensures forall i :: 0 <= i < |s| ==> s[i] == if a <= i < a + |x| then x[i - a] else ' '
  {
    Run(' ', a) + x + Run(' ', b)
  }

  lemma PadUnique(a: nat, x: seq<char>, b: nat, a': nat, x': seq<char>, b': nat)
    requires Solid(x) && (x' == [] || Solid(x'))
    ensures Padded(a, x, b) == Padded(a', x', b') <==> a == a' && x == x' && b == b'
  {
    hide Padded;
    var s, s' := Padded(a, x, b), Padded(a', x', b');
    if s == s' {
      assert s[a] != ' ' && s[a + |x| - 1] != ' ';
      if x' != [] {
        assert s'[a'] != ' ' && s'[a' + |x'| - 1] != ' ';
        assert x == s[a..a + |x|] && x' == s'[a'..a' + |x'|];
      }
    }
  }

  /** A sign that is not a space. */
  function Solidified(sign: seq<char>): seq<char> { if sign == " " then "" else sign }

  function Body(sign: seq<char>, prefix: seq<char>, zeros: nat, digits: seq<char>): seq<char> {
    Solidified(sign) + (prefix + Run('0', zeros) + digits)
  }

  predicate IsSign(sign: seq<char>) { sign == "" || sign == "-" || sign == "+" || sign == " " }

  function Before(sign: seq<char>, length: nat, width: int, left: bool): nat {
    (if left then 0 else PadTo(length, width)) + if sign == " " then 1 else 0
  }

  function Behind(length: nat, width: int, left: bool): nat { if left then PadTo(length, width) else 0 }

  lemma JustifyIsPadded(sign: seq<char>, prefix: seq<char>, zeros: nat, digits: seq<char>, width: int, left: bool)
    requires IsSign(sign)
    ensures var core := sign + prefix + Run('0', zeros) + digits;
            Justify(core, width, left) == Padded(Before(sign, |core|, width, left), Body(sign, prefix, zeros, digits),
                                                 Behind(|core|, width, left))
  {
    hide Run;
    var core := sign + prefix + Run('0', zeros) + digits;
    var x, y := Justify(core, width, left), Padded(Before(sign, |core|, width, left),
                                                   Body(sign, prefix, zeros, digits), Behind(|core|, width, left));
    assert |x| == |y|;
    assert forall i :: 0 <= i < |x| ==> x[i] == y[i];
  }

  /** The prefixes that are not only zeros. */
  predicate Lettered(prefix: seq<char>) { |prefix| == 2 && prefix[0] == '0' && prefix[1] != '0' && prefix[1] != ' ' }

  predicate AllZeros(s: seq<char>) { forall i :: 0 <= i < |s| ==> s[i] == '0' }

  /** What can stand between the paddings: the digits of a value behind zeros, or nothing. */
  predicate IsNumber(v: nat, prefix: seq<char>, digits: seq<char>) {
    && (prefix == "" || prefix == "0" || Lettered(prefix))
    && (forall i :: 0 <= i < |digits| ==> IsDigit(digits[i]))
    && (if v == 0 then AllZeros(digits) else digits != [] && digits[0] != '0')
  }

  lemma RestStart(v: nat, prefix: seq<char>, zeros: nat, digits: seq<char>)
    requires IsNumber(v, prefix, digits)
    ensures var r := prefix + Run('0', zeros) + digits;
            && (r != [] ==> IsDigit(r[0]) && r[|r| - 1] != ' ')
            && (!Lettered(prefix) && v == 0 ==> AllZeros(r))
            && (Lettered(prefix) ==> |r| >= 2 && r[1] != '0')
  {
    hide Run;
    var r := prefix + Run('0', zeros) + digits;
    if r != [] {
      if prefix != [] { assert r[0] == prefix[0]; }
      else if zeros > 0 { assert r[0] == Run('0', zeros)[0]; }
      else { assert r[0] == digits[0]; }
      if digits != [] { assert r[|r| - 1] == digits[|digits| - 1]; }
      else if zeros > 0 { assert r[|r| - 1] == Run('0', zeros)[zeros - 1]; }
      else { assert r[|r| - 1] == prefix[|prefix| - 1]; }
    }
    if Lettered(prefix) { assert r[1] == prefix[1]; }
  }

  lemma BodyIsSolid(v: nat, sign: seq<char>, prefix: seq<char>, zeros: nat, digits: seq<char>)
    requires IsSign(sign) && IsNumber(v, prefix, digits)
    ensures var b := Body(sign, prefix, zeros, digits); b == [] || Solid(b)
  {
    hide Run, IsNumber;
    RestStart(v, prefix, zeros, digits);
    var r, b := prefix + Run('0', zeros) + digits, Body(sign, prefix, zeros, digits);
    if r == [] { assert b == Solidified(sign); } else { assert b[|b| - 1] == r[|r| - 1]; }
  }

  /** Without letters in them, two such numbers of one value are equal as soon as they are equally long. */
  lemma RestsEqual(v: nat, prefix: seq<char>, zeros: nat, digits: seq<char>,
      prefix': seq<char>, zeros': nat, digits': seq<char>)
    requires IsNumber(v, prefix, digits) && IsNumber(v, prefix', digits') && (v != 0 ==> digits == digits')
    requires Lettered(prefix') ==> v != 0
    requires v != 0 ==> (Lettered(prefix) <==> Lettered(prefix')) && (Lettered(prefix) ==> prefix == prefix')
    ensures var r, r' := prefix + Run('0', zeros) + digits, prefix' + Run('0', zeros') + digits';
            r == r' <==> (Lettered(prefix) ==> v != 0) && |r| == |r'|
  {
    hide Run, IsDigit;
    var r, r' := prefix + Run('0', zeros) + digits, prefix' + Run('0', zeros') + digits';
    RestStart(v, prefix, zeros, digits);
    RestStart(v, prefix', zeros', digits');
    if |r| == |r'| && (Lettered(prefix) ==> v != 0) {
      if v == 0 { assert forall i :: 0 <= i < |r| ==> r[i] == r'[i]; }
      else { SameTail(prefix, zeros, prefix', zeros', digits); }
    } else if |r| == |r'| {
      assert r[1] != r'[1];
    }
  }

  lemma SameTail(prefix: seq<char>, zeros: nat, prefix': seq<char>, zeros': nat, digits: seq<char>)
    requires ((prefix == "" || prefix == "0") && (prefix' == "" || prefix' == "0")) || prefix == prefix'
    requires |prefix| + zeros == |prefix'| + zeros'
    ensures prefix + Run('0', zeros) + digits == prefix' + Run('0', zeros') + digits
  {
    hide Run;
    var x, y := prefix + Run('0', zeros), prefix' + Run('0', zeros');
    assert forall i :: 0 <= i < |x| ==> x[i] == y[i];
    assert x == y;
  }

  lemma BodiesEqual(v: nat, sign: seq<char>, prefix: seq<char>, zeros: nat, digits: seq<char>,
      sign': seq<char>, prefix': seq<char>, zeros': nat, digits': seq<char>)
    requires IsSign(sign) && IsSign(sign') && (Solidified(sign') == "" || sign' == sign)
    requires IsNumber(v, prefix, digits) && IsNumber(v, prefix', digits') && (v != 0 ==> digits == digits')
    requires digits != [] && (Lettered(prefix') ==> v != 0)
    requires v != 0 ==> (Lettered(prefix) <==> Lettered(prefix')) && (Lettered(prefix) ==> prefix == prefix')
    ensures var b, b' := Body(sign, prefix, zeros, digits), Body(sign', prefix', zeros', digits');
            b == b' <==> Solidified(sign) == Solidified(sign') && (Lettered(prefix) ==> v != 0) && |b| == |b'|
  {
    hide Run, IsDigit, IsNumber, Lettered;
    var r, r' := prefix + Run('0', zeros) + digits, prefix' + Run('0', zeros') + digits';
    var b, b' := Body(sign, prefix, zeros, digits), Body(sign', prefix', zeros', digits');
    RestsEqual(v, prefix, zeros, digits, prefix', zeros', digits');
    RestStart(v, prefix', zeros', digits');
    var s := Solidified(sign);
    if s == Solidified(sign') {
      if b == b' { assert r == b[|s|..] && r' == b'[|s|..]; }
    } else if b' != [] {
      assert b[0] == s[0] && b'[0] == r'[0];
      assert IsDigit(r'[0]) && !IsDigit(s[0]) by { SignsAreNoDigits(); }
    }
  }

  lemma SignsAreNoDigits()
    ensures !IsDigit('+') && !IsDigit('-')
  {
  }

  // ---- both texts side by side ----

  function PrintedParts(num: nat, width: int, precision: int, f: Flags, base: Base): Parts
    requires num < ULLONG
  {
    var digits := DigitsOf(Magnitude(num, f), base.Radix(), f.large);
    var sign, prefix := SignOf(num, f), PrefixOf(f, base);
    Parts(sign, prefix, ZerosFor(|digits|, |sign| + |prefix|, width, precision, f), digits)
  }

  /** What the two texts of one call have in common. */
  predicate SameCall(v: nat, x: Parts, y: Parts) {
    && IsSign(x.sign) && IsSign(y.sign) && (y.sign == "" || y.sign == x.sign)
    && IsNumber(v, x.prefix, x.digits) && IsNumber(v, y.prefix, y.digits)
    && x.digits != [] && (if v == 0 then |x.digits| == 1 else x.digits == y.digits)
    && (Lettered(y.prefix) <==> Lettered(x.prefix) && v != 0) && (Lettered(y.prefix) ==> y.prefix == x.prefix)
  }

  lemma PartsOfCall(num: nat, width: int, precision: int, f: Flags, base: Base)
    requires num < ULLONG
    ensures var x, y := PrintedParts(num, width, precision, f, base), StandardParts(num, width, precision, f, base);
            && SameCall(Magnitude(num, f), x, y)
            && (Lettered(x.prefix) <==> f.special && (base.Hex? || base.Bin?))
  {
    hide DigitsOf, DigitValue, Value, ZerosFor, StandardZeros, SignOf, StandardSign, PrefixOf,
      StandardPrefix;
    DigitsRoundTrip(Magnitude(num, f), base.Radix(), f.large);
    SignsOfCall(num, f);
    PrefixesOfCall(Magnitude(num, f), f, base);
  }

  lemma SignsOfCall(num: nat, f: Flags)
    ensures IsSign(SignOf(num, f)) && (StandardSign(num, f) == "" || StandardSign(num, f) == SignOf(num, f))
  {
  }

  lemma PrefixesOfCall(v: nat, f: Flags, base: Base)
    ensures var p := PrefixOf(f, base);
            && StandardPrefix(v, f, base) == (if v == 0 || base.Oct? then "" else p)
            && (p == "" || p == "0" || Lettered(p)) && (Lettered(p) <==> f.special && (base.Hex? || base.Bin?))
  {
  }

  /** Where two texts of one call can differ: sign, prefix of a zero, length of the body, and paddings. */
  predicate SameShape(v: nat, x: Parts, y: Parts, width: int, left: bool) {
    && Solidified(x.sign) == Solidified(y.sign) && (Lettered(x.prefix) ==> v != 0)
    && |Solidified(x.sign)| + |x.prefix| + x.zeros + |x.digits|
       == |Solidified(y.sign)| + |y.prefix| + y.zeros + |y.digits|
    && Before(x.sign, x.Length(), width, left) == Before(y.sign, y.Length(), width, left)
    && Behind(x.Length(), width, left) == Behind(y.Length(), width, left)
  }

  lemma TextsEqual(v: nat, x: Parts, y: Parts, width: int, left: bool)
    requires SameCall(v, x, y)
    ensures Justify(x.Core(), width, left) == Justify(y.Core(), width, left) <==> SameShape(v, x, y, width, left)
  {
    hide Run, Before, Behind, IsNumber, Lettered, Solid, Justify, Padded, IsSign;
    JustifyIsPadded(x.sign, x.prefix, x.zeros, x.digits, width, left);
    JustifyIsPadded(y.sign, y.prefix, y.zeros, y.digits, width, left);
    BodiesEqual(v, x.sign, x.prefix, x.zeros, x.digits, y.sign, y.prefix, y.zeros, y.digits);
    BodyIsSolid(v, x.sign, x.prefix, x.zeros, x.digits);
    BodyIsSolid(v, y.sign, y.prefix, y.zeros, y.digits);
    PadUnique(Before(x.sign, x.Length(), width, left), Body(x.sign, x.prefix, x.zeros, x.digits),
              Behind(x.Length(), width, left),
              Before(y.sign, y.Length(), width, left), Body(y.sign, y.prefix, y.zeros, y.digits),
              Behind(y.Length(), width, left));
  }

  /** The formatter prints the standard's text exactly for the conforming calls. */
  lemma StandardExactly(num: nat, width: int, precision: int, f: Flags, base: Base)
    requires num < ULLONG
    ensures NumberText(num, width, precision, f, base) == StandardText(num, width, precision, f, base)
            <==> Conforms(num, width, precision, f, base)
  {
    hide DigitsOf, Run, SameCall, SameShape, Justify, Magnitude, ZerosFor, StandardZeros, Conforms;
    var v := Magnitude(num, f);
    var x, y := PrintedParts(num, width, precision, f, base), StandardParts(num, width, precision, f, base);
    PartsOfCall(num, width, precision, f, base);
    TextsEqual(v, x, y, width, f.left);
    ShapeConforms(num, width, precision, f, base);
  }

  lemma ShapeConforms(num: nat, width: int, precision: int, f: Flags, base: Base)
    requires num < ULLONG
    ensures SameShape(Magnitude(num, f), PrintedParts(num, width, precision, f, base),
                      StandardParts(num, width, precision, f, base), width, f.left)
            <==> Conforms(num, width, precision, f, base)
  {
    hide DigitsOf, Run, IsNumber, Magnitude, Lettered;
    PartsOfCall(num, width, precision, f, base);
  }

  // ---- the calls that do not conform ----

  const NONE := Flags(false, false, false, false, false, false, false)
  const ALTERNATE := NONE.(special := true)

  /** Zero with precision zero, as in `%.0u`, prints a digit. */
  lemma ZeroPrintsADigit()
    ensures NumberText(0, -1, 0, NONE, Dec) == "0" && StandardText(0, -1, 0, NONE, Dec) == ""
  {
    assert DigitsOf(0, 10, false) == "0";
  }

  /** Zero with #, as in `%#o` and `%#x`, gets a prefix. */
  lemma ZeroGetsAPrefix()
    ensures NumberText(0, -1, -1, ALTERNATE, Oct) == "00" && StandardText(0, -1, -1, ALTERNATE, Oct) == "0"
    ensures NumberText(0, -1, -1, ALTERNATE, Hex) == "0x0" && StandardText(0, -1, -1, ALTERNATE, Hex) == "0"
  {
    assert DigitsOf(0, 8, false) == "0" && DigitsOf(0, 16, false) == "0";
  }

  /** `%#.5o` prints one zero more than the precision. */
  lemma OctalPrefixAddsToPrecision()
    ensures NumberText(8, -1, 5, ALTERNATE, Oct) == "000010" && StandardText(8, -1, 5, ALTERNATE, Oct) == "00010"
  {
    assert DigitsOf(8, 8, false) == DigitsOf(1, 8, false) + "0" == "10";
    assert Run('0', 3) == "000" && Run('0', 4) == "0000" by { assert Run('0', 1) == "0" && Run('0', 2) == "00"; }
  }

  /** `%+u` prints a sign. */
  lemma UnsignedGetsASign()
    ensures NumberText(5, -1, -1, NONE.(plus := true), Dec) == "+5"
    ensures StandardText(5, -1, -1, NONE.(plus := true), Dec) == "5"
  {
    assert DigitsOf(5, 10, false) == "5";
  }
}
