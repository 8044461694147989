/**
  The text of an integer conversion: what the buffer algorithm of printf produces, and what the C standard asks for.
 */
module IntegerText {
  import opened Words

  /** The conversion flags that matter to integers. */
  datatype Flags = Flags(zeropad: bool, left: bool, plus: bool, space: bool, hash: bool, upper: bool, precision: bool,
                         pointer: bool)

  const SIZE: nat := 32

  function Rep(c: char, n: nat): seq<char> { seq(n, _ => c) }

  function Spaces(n: nat): seq<char> { Rep(' ', n) }

  function Sub(a: nat, b: nat): nat { if a > b then a - b else 0 }

  function Digit(d: nat, upper: bool): char
    requires d < 36
  {
    if d < 10 then (('0' as int) + d) as char else ((if upper then 'A' else 'a') as int + (d - 10)) as char
  }

  /** Digits of v, least significant first, at most n of them. */
  function Low(v: nat, base: nat, upper: bool, n: nat): seq<char>
    requires 2 <= base <= 36
    decreases n
  {
    if v == 0 || n == 0 then [] else [Digit(v % base, upper)] + Low(v / base, base, upper, n - 1)
  }

  /** All digits of v, least significant first. */
  function Full(v: nat, base: nat, upper: bool): seq<char>
    requires 2 <= base <= 36
  {
    if v == 0 then [] else [Digit(v % base, upper)] + Full(v / base, base, upper)
  }

  function Reverse(s: seq<char>): seq<char> { if |s| == 0 then [] else Reverse(s[1..]) + [s[0]] }

  // ---- the algorithm: print_integer and print_integer_finalization on lengths ----

  /** width, less the place of a sign that zero padding must leave. */
  function Width1(width: nat, negative: bool, f: Flags): nat {
    if !f.left && width > 0 && f.zeropad && (negative || f.plus || f.space) then width - 1 else width
  }

  function PadTo(len: nat, n: nat): nat { Max(len, Min(n, SIZE)) }

  /** The length after zero padding to the width and to the precision. */
  function Len2(n0: nat, w: nat, precision: nat, f: Flags): nat {
    PadTo(if !f.left && f.zeropad then PadTo(n0, w) else n0, precision)
  }

  predicate Alternate(n0: nat, n2: nat, base: nat, f: Flags) { (f.hash && !(base == 8 && n2 > n0)) || f.pointer }

  /** The length after some padding was taken back for the prefix. */
  function Len3(n0: nat, n2: nat, w: nat, precision: nat, base: nat, f: Flags): nat {
    if Alternate(n0, n2, base, f) && !f.precision && n2 > 0 && (n2 == precision || n2 == w) then
      var a := if n0 < n2 then n2 - 1 else n2;
      if a > 0 && (base == 16 || base == 2) && n0 < a then a - 1 else a
    else n2
  }

  /** The prefix in buffer order, that is, reversed. */
  function PrefixRev(n3: nat, base: nat, alternate: bool, f: Flags): seq<char> {
    if !alternate then []
    else
      var letter := if base == 16 then [if f.upper then 'X' else 'x'] else if base == 2 then ['b'] else [];
      var p := if n3 < SIZE then letter else [];
      if n3 + |p| < SIZE then p + ['0'] else p
  }

  function Sign(negative: bool, f: Flags): seq<char> {
    if negative then ['-'] else if f.plus then ['+'] else if f.space then [' '] else []
  }

  function SignRev(n: nat, negative: bool, f: Flags): seq<char> { if n < SIZE then Sign(negative, f) else [] }

  /** The digits print_integer stores, and the flags it goes on with. */
  function Stored(value: nat, base: nat, f: Flags): seq<char>
    requires 2 <= base <= 36
  {
    if value == 0 then (if f.precision then [] else ['0']) else Low(value, base, f.upper, SIZE)
  }

  function Adjusted(value: nat, base: nat, f: Flags): Flags {
    if value == 0 && (!f.precision || base == 16) then f.(hash := false) else f
  }

  /** The finished buffer, still reversed. */
  function Buffer(lsd: seq<char>, negative: bool, base: nat, precision: nat, width: nat, f: Flags): seq<char> {
    var w := Width1(width, negative, f);
    var n2 := Len2(|lsd|, w, precision, f);
    var n3 := Len3(|lsd|, n2, w, precision, base, f);
    var prefix := PrefixRev(n3, base, Alternate(|lsd|, n2, base, f), f);
    lsd + Rep('0', Sub(n3, |lsd|)) + prefix + SignRev(n3 + |prefix|, negative, f)
  }

  /** out_rev_ */
  function OutRev(b: seq<char>, width: nat, f: Flags): seq<char> {
    (if !f.left && !f.zeropad then Spaces(Sub(width, |b|)) else []) +
    Reverse(b) +
    (if f.left then Spaces(Sub(width, |b|)) else [])
  }

  /** What print_integer puts out. */
  function Text(value: nat, negative: bool, base: nat, precision: nat, width: nat, f: Flags): seq<char>
    requires 2 <= base <= 36
  {
    var g := Adjusted(value, base, f);
    OutRev(Buffer(Stored(value, base, f), negative, base, precision, width, g), Width1(width, negative, g), g)
  }

  // ---- the reference: section 7.21.6.1 of C11 ----

  /** The numeral: at least precision digits, by default one; in octal with # it starts with a zero. */
  function Numeral(value: nat, base: nat, precision: nat, f: Flags): seq<char>
    requires 2 <= base <= 36
  {
    var digits := Reverse(Full(value, base, f.upper));
    var padded := Rep('0', Sub(if f.precision then precision else 1, |digits|)) + digits;
    if base == 8 && f.hash && (padded == [] || padded[0] != '0') then ['0'] + padded else padded
  }

  /** 0x, 0X or, as an extension, 0b. */
  function Prefix(value: nat, base: nat, f: Flags): seq<char> {
    if base == 16 && (f.pointer || (f.hash && value != 0)) then ['0', if f.upper then 'X' else 'x']
    else if base == 2 && f.hash && (value != 0 || f.precision) then ['0', 'b']
    else []
  }

  /**
    Sign, prefix and numeral, padded to the width on the left with spaces, on the right, or with zeros after the prefix.
   */
  function Standard(value: nat, negative: bool, base: nat, precision: nat, width: nat, f: Flags): seq<char>
    requires 2 <= base <= 36
  {
    var sign, prefix, numeral := Sign(negative, f), Prefix(value, base, f), Numeral(value, base, precision, f);
    var pad := Sub(width, |sign| + |prefix| + |numeral|);
    if f.left then sign + prefix + numeral + Spaces(pad)
    else if f.zeropad then sign + prefix + Rep('0', pad) + numeral
    else Spaces(pad) + sign + prefix + numeral
  }

  // ---- sequences ----

  lemma {:induction false} ReverseConcat(s: seq<char>, t: seq<char>)
    ensures Reverse(s + t) == Reverse(t) + Reverse(s)
  {
    if |s| == 0 {
      assert s + t == t;
    } else {
      assert (s + t)[1..] == s[1..] + t;
      ReverseConcat(s[1..], t);
    }
  }

  lemma {:induction false} ReverseRep(c: char, n: nat)
    ensures Reverse(Rep(c, n)) == Rep(c, n)
  {
    if n > 0 {
      assert Rep(c, n)[1..] == Rep(c, n - 1);
      ReverseRep(c, n - 1);
      assert Rep(c, n - 1) + [c] == Rep(c, n);
    }
  }

  lemma {:induction false} ReverseLength(s: seq<char>)
    ensures |Reverse(s)| == |s|
  {
    if |s| > 0 { ReverseLength(s[1..]); }
  }

  lemma {:induction false} ReverseFirst(s: seq<char>)
    requires |s| > 0
    ensures |Reverse(s)| == |s| && Reverse(s)[0] == s[|s| - 1]
  {
    if |s| > 1 { ReverseFirst(s[1..]); }
  }

  lemma Shrinks(v: nat, base: nat)
    requires v > 0 && base >= 2
    ensures v / base < v
  {
  }

  lemma {:induction false} LowIsFull(v: nat, base: nat, upper: bool, n: nat)
    requires 2 <= base <= 36 && |Full(v, base, upper)| <= n
    ensures Low(v, base, upper, n) == Full(v, base, upper)
    decreases v
  {
    hide Digit;
    if v > 0 {
      Shrinks(v, base);
      LowIsFull(v / base, base, upper, n - 1);
    }
  }

  lemma OneDigit(v: nat, base: nat)
    requires 2 <= base && v / base == 0
    ensures v < base && v % base == v
  {
  }

  lemma NonZeroDigit(d: nat, upper: bool)
    requires 0 < d < 36
    ensures Digit(d, upper) != '0'
  {
  }

  lemma {:induction false} TopDigit(v: nat, base: nat, upper: bool)
    requires 2 <= base <= 36 && v > 0
    ensures |Full(v, base, upper)| > 0 && Full(v, base, upper)[|Full(v, base, upper)| - 1] != '0'
    decreases v
  {
    hide Digit;
    Shrinks(v, base);
    if v / base > 0 {
      TopDigit(v / base, base, upper);
    } else {
      OneDigit(v, base);
      NonZeroDigit(v, upper);
    }
  }

  // ---- one layout for both ----

  /** Spaces, sign, prefix, zeros, digits, spaces. */
  function Layout(a: nat, sign: seq<char>, prefix: seq<char>, zeros: nat, digits: seq<char>, b: nat): seq<char> {
    Spaces(a) + sign + prefix + Rep('0', zeros) + digits + Spaces(b)
  }

  /** The two-character prefixes, as opposed to the single zero of octal. */
  function Wide(base: nat, alternate: bool, f: Flags): seq<char> {
    if alternate && base == 16 then ['0', if f.upper then 'X' else 'x']
    else if alternate && base == 2 then ['0', 'b']
    else []
  }

  function Extra(base: nat, alternate: bool): nat { if alternate && base != 16 && base != 2 then 1 else 0 }

  lemma PrefixReversed(n3: nat, base: nat, alternate: bool, f: Flags)
    requires n3 + |PrefixRev(n3, base, alternate, f)| <= SIZE
    requires (alternate ==> n3 + |Wide(base, alternate, f)| + Extra(base, alternate) <= SIZE)
    ensures Reverse(PrefixRev(n3, base, alternate, f)) == Wide(base, alternate, f) + Rep('0', Extra(base, alternate))
    ensures |PrefixRev(n3, base, alternate, f)| == |Wide(base, alternate, f)| + Extra(base, alternate)
  {
    var p := PrefixRev(n3, base, alternate, f);
    if alternate {
      if base == 16 || base == 2 {
        assert p == [p[0], '0'];
        assert p[1..] == ['0'];
        One('0');
        assert Reverse(p) == ['0'] + [p[0]];
      } else {
        assert p == ['0'];
        One('0');
      }
    }
  }

  lemma One(c: char)
    ensures Reverse([c]) == [c]
  {
    assert [c][1..] == [];
  }

  lemma RepSum(c: char, m: nat, n: nat)
    ensures Rep(c, m) + Rep(c, n) == Rep(c, m + n)
  {
  }

  lemma SignReversed(negative: bool, f: Flags)
    ensures Reverse(Sign(negative, f)) == Sign(negative, f)
  {
    var s := Sign(negative, f);
    if |s| > 0 { One(s[0]); }
  }

  /** The buffer, turned round. */
  lemma BufferReversed(lsd: seq<char>, z: nat, p: seq<char>, wide: seq<char>, e: nat, sign: seq<char>)
    requires Reverse(p) == wide + Rep('0', e) && Reverse(sign) == sign
    ensures Reverse(lsd + Rep('0', z) + p + sign) == sign + wide + Rep('0', e + z) + Reverse(lsd)
  {
    hide Reverse, Rep;
    ReverseConcat(lsd + Rep('0', z) + p, sign);
    ReverseConcat(lsd + Rep('0', z), p);
    ReverseConcat(lsd, Rep('0', z));
    ReverseRep('0', z);
    LayoutAssoc(sign, wide, e, z, Reverse(lsd));
  }

  /** The output of a buffer is a layout. */
  lemma BufferLayout(lsd: seq<char>, negative: bool, base: nat, z: nat, n3: nat, alternate: bool, width: nat, f: Flags)
    requires n3 == |lsd| + z && n3 + |Wide(base, alternate, f)| + Extra(base, alternate) + |Sign(negative, f)| <= SIZE
    ensures var p := PrefixRev(n3, base, alternate, f);
            var b := lsd + Rep('0', z) + p + SignRev(n3 + |p|, negative, f);
            && |b| == n3 + |Wide(base, alternate, f)| + Extra(base, alternate) + |Sign(negative, f)|
            && OutRev(b, width, f) ==
               Layout(if !f.left && !f.zeropad then Sub(width, |b|) else 0, Sign(negative, f),
                      Wide(base, alternate, f), Extra(base, alternate) + z, Reverse(lsd),
                      if f.left then Sub(width, |b|) else 0)
  {
    hide Reverse, Wide, Sign, PrefixRev, SignRev, Extra, Rep;
    var p := PrefixRev(n3, base, alternate, f);
    var sign := Sign(negative, f);
    assert n3 + |p| <= SIZE by { PrefixSmall(n3, base, alternate, f); }
    PrefixReversed(n3, base, alternate, f);
    SignFits(n3 + |p|, negative, f);
    SignReversed(negative, f);
    BufferReversed(lsd, z, p, Wide(base, alternate, f), Extra(base, alternate), sign);
    EmptySpaces();
    RepLength('0', z);
  }

  lemma PrefixSmall(n3: nat, base: nat, alternate: bool, f: Flags)
    requires n3 <= SIZE
    ensures n3 + |PrefixRev(n3, base, alternate, f)| <= SIZE
  {
  }

  lemma RepLength(c: char, n: nat)
    ensures |Rep(c, n)| == n
  {
  }

  lemma EmptySpaces()
    ensures Spaces(0) == []
  {
  }

  lemma SignFits(n: nat, negative: bool, f: Flags)
    requires n + |Sign(negative, f)| <= SIZE
    ensures SignRev(n, negative, f) == Sign(negative, f)
  {
  }

  lemma LayoutAssoc(sign: seq<char>, wide: seq<char>, e: nat, z: nat, digits: seq<char>)
    ensures sign + (wide + Rep('0', e) + (Rep('0', z) + digits)) == sign + wide + Rep('0', e + z) + digits
  {
    RepSum('0', e, z);
  }

  // ---- the two agree ----

  /**
    The conversions the format loop asks for, except that a precision given to %p makes zero padding and precision meet.
   */
  predicate Asked(value: nat, base: nat, precision: nat, f: Flags) {
    && (base == 2 || base == 8 || base == 10 || base == 16) && (base == 10 ==> !f.hash && !f.pointer)
    && (f.pointer ==> base == 16 && value != 0) && !(f.zeropad && f.precision) && (!f.precision ==> precision == 0)
  }

  /** The field fits: sign, prefix and numeral are at most 32 characters, and so is a width to be filled with zeros. */
  ghost predicate Fits(value: nat, negative: bool, base: nat, precision: nat, width: nat, f: Flags) {
    && Asked(value, base, precision, f) && (f.zeropad && !f.left ==> width <= SIZE)
    && |Sign(negative, f)| + |Prefix(value, base, f)| + |Numeral(value, base, precision, f)| <= SIZE
  }

  /** Zeros in front of the stored digits in the numeral. */
  function NumeralZeros(value: nat, n0: nat, base: nat, precision: nat, f: Flags): nat {
    var q := if f.precision then Sub(precision, n0) else 0;
    q + if base == 8 && f.hash && q == 0 && !(value == 0 && !f.precision) then 1 else 0
  }

  lemma NumeralForm(value: nat, base: nat, precision: nat, f: Flags)
    requires 2 <= base <= 36 && |Numeral(value, base, precision, f)| <= SIZE
    ensures var d := Stored(value, base, f);
            && Numeral(value, base, precision, f) == Rep('0', NumeralZeros(value, |d|, base, precision, f)) + Reverse(d)
            && |Reverse(d)| == |d| && (value != 0 || !f.precision ==> |d| > 0)
  {
    hide Full, Digit, Low;
    var digits := Reverse(Full(value, base, f.upper));
    var d := Stored(value, base, f);
    ReverseLength(Full(value, base, f.upper));
    if value != 0 {
      TopDigit(value, base, f.upper);
      ReverseFirst(Full(value, base, f.upper));
      LowIsFull(value, base, f.upper, SIZE);
      NumeralNonZero(value, base, precision, f, digits);
    } else {
      assert digits == [] by { ZeroDigits(base, f.upper); }
      One('0');
      NumeralOfZero(base, precision, f);
    }
  }

  lemma ZeroDigits(base: nat, upper: bool)
    requires 2 <= base <= 36
    ensures Full(0, base, upper) == [] && Reverse([]) == []
  {
  }

  lemma NumeralNonZero(value: nat, base: nat, precision: nat, f: Flags, digits: seq<char>)
    requires 2 <= base <= 36 && value != 0 && digits == Reverse(Full(value, base, f.upper)) && |digits| > 0
    requires digits[0] != '0'
    ensures Numeral(value, base, precision, f) == Rep('0', NumeralZeros(value, |digits|, base, precision, f)) + digits
  {
    hide Full, Reverse;
    var q := Sub(if f.precision then precision else 1, |digits|);
    var padded := Rep('0', q) + digits;
    if q == 0 { assert padded == digits; } else { assert padded[0] == '0'; }
    assert ['0'] + digits == Rep('0', 1) + digits;
  }

  lemma NumeralOfZero(base: nat, precision: nat, f: Flags)
    requires 2 <= base <= 36
    ensures var d := Stored(0, base, f);
            Numeral(0, base, precision, f) == Rep('0', NumeralZeros(0, |d|, base, precision, f)) + Reverse(d)
  {
    ZeroDigits(base, f.upper);
    One('0');
    var q := Sub(if f.precision then precision else 1, 0);
    assert Rep('0', q) + [] == Rep('0', q);
    if q > 0 { assert Rep('0', q)[0] == '0'; }
    assert Rep('0', 1) == ['0'] && Rep('0', 0) == [];
  }

  /** Zeros between prefix and digits in the standard's text. */
  function StandardZeros(width: nat, taken: nat, q: nat, f: Flags): nat {
    q + if f.zeropad && !f.left then Sub(width, taken) else 0
  }

  lemma StandardLayout(value: nat, negative: bool, base: nat, precision: nat, width: nat, f: Flags)
    requires 2 <= base <= 36 && |Numeral(value, base, precision, f)| <= SIZE
    ensures var d := Stored(value, base, f);
            var q := NumeralZeros(value, |d|, base, precision, f);
            var taken := |Sign(negative, f)| + |Prefix(value, base, f)| + q + |d|;
            var pad := Sub(width, taken);
            && Standard(value, negative, base, precision, width, f) ==
               Layout(if !f.left && !f.zeropad then pad else 0, Sign(negative, f), Prefix(value, base, f),
                      StandardZeros(width, taken, q, f), Reverse(d), if f.left then pad else 0)
            && |Numeral(value, base, precision, f)| == q + |d|
  {
    hide Numeral, Reverse, Sign, Prefix, NumeralZeros, Stored, Rep;
    NumeralForm(value, base, precision, f);
    var d := Stored(value, base, f);
    var q := NumeralZeros(value, |d|, base, precision, f);
    RepLength('0', q);
    EmptySpaces();
    var pad := Sub(width, |Sign(negative, f)| + |Prefix(value, base, f)| + q + |d|);
    RepSum('0', pad, q);
    ZerosInside(Sign(negative, f), Prefix(value, base, f), pad, q, Reverse(d));
    EmptyEnds(Sign(negative, f), Prefix(value, base, f), q, Reverse(d), pad);
  }

  lemma ZerosInside(sign: seq<char>, prefix: seq<char>, pad: nat, q: nat, digits: seq<char>)
    ensures sign + prefix + Rep('0', pad) + (Rep('0', q) + digits) == sign + prefix + Rep('0', q + pad) + digits
  {
    RepSum('0', pad, q);
  }

  lemma EmptyEnds(sign: seq<char>, prefix: seq<char>, q: nat, digits: seq<char>, pad: nat)
    ensures sign + prefix + (Rep('0', q) + digits) + Spaces(pad) ==
            [] + sign + prefix + Rep('0', q) + digits + Spaces(pad)
    ensures Spaces(pad) + sign + prefix + (Rep('0', q) + digits) ==
            Spaces(pad) + sign + prefix + Rep('0', q) + digits + []
    ensures forall n: nat :: sign + prefix + Rep('0', n) + digits == [] + sign + prefix + Rep('0', n) + digits + []
  {
  }

  /** The lengths come out the same, case by case. */
  lemma SameLengths(value: nat, n0: nat, negative: bool, base: nat, precision: nat, width: nat, f: Flags)
    requires Asked(value, base, precision, f) && (f.zeropad && !f.left ==> width <= SIZE)
    requires (value != 0 || !f.precision ==> n0 > 0)
    requires var q := NumeralZeros(value, n0, base, precision, f);
             |Sign(negative, f)| + |Prefix(value, base, f)| + q + n0 <= SIZE
    ensures var g := Adjusted(value, base, f);
            var w := Width1(width, negative, g);
            var n2 := Len2(n0, w, precision, g);
            var n3 := Len3(n0, n2, w, precision, base, g);
            var alternate := Alternate(n0, n2, base, g);
            var q := NumeralZeros(value, n0, base, precision, f);
            var taken := |Sign(negative, f)| + |Prefix(value, base, f)| + q + n0;
            && n0 <= n3 && Wide(base, alternate, g) == Prefix(value, base, f) && Sign(negative, g) == Sign(negative, f)
            && n3 + |Wide(base, alternate, g)| + Extra(base, alternate) + |Sign(negative, g)| <= SIZE
            && Extra(base, alternate) + (n3 - n0) == StandardZeros(width, taken, q, f)
            && (f.left || !f.zeropad ==>
                  && w == width
                  && n3 + |Wide(base, alternate, g)| + Extra(base, alternate) + |Sign(negative, g)| == taken)
  {
  }

  /** When the field fits, print_integer puts out exactly what the standard asks for. */
  lemma TextIsStandard(value: nat, negative: bool, base: nat, precision: nat, width: nat, f: Flags)
    requires Fits(value, negative, base, precision, width, f)
    ensures Text(value, negative, base, precision, width, f) == Standard(value, negative, base, precision, width, f)
  {
    hide Standard, Reverse, Layout, OutRev, Sign, Prefix, Wide, Extra, Numeral, NumeralZeros, StandardZeros, Stored,
         Adjusted, Width1, Len2, Len3, Alternate, PrefixRev, SignRev, Rep;
    var d, g := Stored(value, base, f), Adjusted(value, base, f);
    StandardLayout(value, negative, base, precision, width, f);
    NumeralForm(value, base, precision, f);
    SameLengths(value, |d|, negative, base, precision, width, f);
    var w := Width1(width, negative, g);
    var n2 := Len2(|d|, w, precision, g);
    var n3 := Len3(|d|, n2, w, precision, base, g);
    BufferLayout(d, negative, base, n3 - |d|, n3, Alternate(|d|, n2, base, g), w, g);
    SameFlags(value, base, f);
  }

  lemma SameFlags(value: nat, base: nat, f: Flags)
    ensures var g := Adjusted(value, base, f); g.left == f.left && g.zeropad == f.zeropad
  {
  }

  /** The buffer never holds more than 32 characters. */
  lemma BufferBound(value: nat, negative: bool, base: nat, precision: nat, width: nat, f: Flags)
    requires 2 <= base <= 36
    ensures |Buffer(Stored(value, base, f), negative, base, precision, width, f)| <= SIZE
  {
    LowBound(value, base, f.upper, SIZE);
  }

  lemma {:induction false} LowBound(v: nat, base: nat, upper: bool, n: nat)
    requires 2 <= base <= 36
    ensures |Low(v, base, upper, n)| <= n
    decreases n
  {
    if v > 0 && n > 0 { LowBound(v / base, base, upper, n - 1); }
  }

  lemma StandardLength(value: nat, negative: bool, base: nat, precision: nat, width: nat, f: Flags)
    requires 2 <= base <= 36
    ensures |Standard(value, negative, base, precision, width, f)| ==
            Max(width, |Sign(negative, f)| + |Prefix(value, base, f)| + |Numeral(value, base, precision, f)|)
  {
    hide Sign, Prefix, Numeral;
  }

  /** The length of sign, prefix and numeral. */
  function Taken(value: nat, negative: bool, base: nat, precision: nat, f: Flags): nat
    requires 2 <= base <= 36
  {
    |Sign(negative, f)| + |Prefix(value, base, f)| + |Numeral(value, base, precision, f)|
  }

  /**
    Sign, prefix and numeral are at most 32 characters, and so is a width to be filled with zeros; or the 33rd character
    is a space in the place of the sign, which the padding in front of a wider field makes up for.
   */
  predicate Exact(value: nat, negative: bool, base: nat, precision: nat, width: nat, f: Flags)
    requires 2 <= base <= 36
  {
    var taken := Taken(value, negative, base, precision, f);
    || (taken <= SIZE && (f.zeropad && !f.left ==> width <= SIZE))
    || (taken == SIZE + 1 && Sign(negative, f) == [' '] && !f.left && !f.zeropad && width > SIZE)
  }

  /**
    For the conversions of the format loop, print_integer puts out what the standard asks for if and only if it is
    exact.
   */
  lemma TextIsStandardIff(value: nat, negative: bool, base: nat, precision: nat, width: nat, f: Flags)
    requires Asked(value, base, precision, f)
    ensures Text(value, negative, base, precision, width, f) == Standard(value, negative, base, precision, width, f)
            <==> Exact(value, negative, base, precision, width, f)
  {
    hide Text, Standard, Sign, Prefix, Numeral;
    var taken := Taken(value, negative, base, precision, f);
    StandardLength(value, negative, base, precision, width, f);
    if f.zeropad && !f.left && width > SIZE {
      ZeroFieldBound(value, negative, base, precision, width, f);
    } else if taken <= SIZE {
      TextIsStandard(value, negative, base, precision, width, f);
    } else if width <= SIZE {
      TextBound(value, negative, base, precision, width, f);
    } else if taken == SIZE + 1 && Sign(negative, f) == [' '] && !f.left {
      SpaceMadeUp(value, negative, base, precision, width, f);
    } else {
      TooLong(value, negative, base, precision, width, f);
    }
  }

  /** The buffer does matter: %.33d of 0 loses a digit. */
  lemma LosesDigit()
    ensures var f := Flags(false, false, false, false, false, false, true, false);
            Text(0, false, 10, 33, 0, f) != Standard(0, false, 10, 33, 0, f)
  {
    hide Text, Standard;
    var f := Flags(false, false, false, false, false, false, true, false);
    ZeroDigits(10, false);
    TextIsStandardIff(0, false, 10, 33, 0, f);
  }

  lemma ZeroFieldBound(value: nat, negative: bool, base: nat, precision: nat, width: nat, f: Flags)
    requires 2 <= base <= 36 && f.zeropad && !f.left
    ensures |Text(value, negative, base, precision, width, f)| <= SIZE
  {
    hide Stored, Buffer, Reverse;
    var g := Adjusted(value, base, f);
    StoredSame(value, base, f);
    BufferBound(value, negative, base, precision, width, g);
    ReverseLength(Buffer(Stored(value, base, f), negative, base, precision, width, g));
  }

  /** In a field wider than the buffer, only the 32 characters at its end, or at its start, are not spaces. */
  lemma WideField(value: nat, negative: bool, base: nat, precision: nat, width: nat, f: Flags, j: int)
    requires 2 <= base <= 36 && width > SIZE && (f.left || !f.zeropad)
    requires 0 <= j < width && if f.left then j >= SIZE else j < width - SIZE
    ensures |Text(value, negative, base, precision, width, f)| == width
    ensures Text(value, negative, base, precision, width, f)[j] == ' '
  {
    hide Stored, Buffer, Reverse;
    var g := Adjusted(value, base, f);
    StoredSame(value, base, f);
    BufferBound(value, negative, base, precision, width, g);
    ReverseLength(Buffer(Stored(value, base, f), negative, base, precision, width, g));
  }

  /** What the standard has there is part of the sign, the prefix or the numeral. */
  lemma TooLong(value: nat, negative: bool, base: nat, precision: nat, width: nat, f: Flags)
    requires 2 <= base <= 36 && width > SIZE && (f.left || !f.zeropad)
    requires Taken(value, negative, base, precision, f) > SIZE
    requires Taken(value, negative, base, precision, f) == SIZE + 1 && Sign(negative, f) == [' '] ==> f.left
    ensures Text(value, negative, base, precision, width, f) != Standard(value, negative, base, precision, width, f)
  {
    hide Text, Sign, Prefix, Numeral;
    var taken := Taken(value, negative, base, precision, f);
    var sign, prefix, numeral := Sign(negative, f), Prefix(value, base, f), Numeral(value, base, precision, f);
    StandardLength(value, negative, base, precision, width, f);
    WideField(value, negative, base, precision, width, f, if f.left then SIZE else 0);
    if width >= taken {
      ShortParts(value, negative, base, f);
      NumeralNoSpace(value, base, precision, f);
      var k := if f.left then taken - 1 else if sign == [' '] then 1 else 0;
      var j := if f.left then k else width - taken + k;
      assert (sign + prefix + numeral)[k] != ' ';
      assert Standard(value, negative, base, precision, width, f)[j] == (sign + prefix + numeral)[k];
      WideField(value, negative, base, precision, width, f, j);
    }
  }

  lemma ShortParts(value: nat, negative: bool, base: nat, f: Flags)
    ensures |Sign(negative, f)| <= 1 && |Prefix(value, base, f)| <= 2 && ' ' !in Prefix(value, base, f)
  {
  }

  lemma {:induction false} FullNoSpace(v: nat, base: nat, upper: bool)
    requires 2 <= base <= 36
    ensures ' ' !in Full(v, base, upper)
    decreases v
  {
    if v > 0 {
      Shrinks(v, base);
      FullNoSpace(v / base, base, upper);
    }
  }

  lemma {:induction false} ReverseMembers(s: seq<char>, c: char)
    requires c !in s
    ensures c !in Reverse(s)
  {
    if |s| > 0 { ReverseMembers(s[1..], c); }
  }

  lemma NumeralNoSpace(value: nat, base: nat, precision: nat, f: Flags)
    requires 2 <= base <= 36
    ensures ' ' !in Numeral(value, base, precision, f)
  {
    hide Full, Reverse;
    FullNoSpace(value, base, f.upper);
    ReverseMembers(Full(value, base, f.upper), ' ');
  }

  /** A space that no longer fits as a sign comes back as padding. */
  lemma SpaceMadeUp(value: nat, negative: bool, base: nat, precision: nat, width: nat, f: Flags)
    requires Asked(value, base, precision, f) && Taken(value, negative, base, precision, f) == SIZE + 1
    requires Sign(negative, f) == [' '] && !f.left && !f.zeropad && width > SIZE
    ensures Text(value, negative, base, precision, width, f) == Standard(value, negative, base, precision, width, f)
  {
    hide Text, Numeral, Prefix;
    var f' := f.(space := false);
    SameParts(value, base, precision, f);
    TextIsStandard(value, negative, base, precision, width, f');
    SameBuffer(value, negative, base, precision, width, f);
    assert Spaces(width - (SIZE + 1)) + [' '] == Spaces(width - SIZE) + [];
  }

  lemma SameParts(value: nat, base: nat, precision: nat, f: Flags)
    requires 2 <= base <= 36
    ensures var f' := f.(space := false);
            Prefix(value, base, f') == Prefix(value, base, f)
                && Numeral(value, base, precision, f') == Numeral(value, base, precision, f)
  {
    hide Full, Reverse;
  }

  /** The buffer is full without the space. */
  lemma SameBuffer(value: nat, negative: bool, base: nat, precision: nat, width: nat, f: Flags)
    requires Asked(value, base, precision, f) && Taken(value, negative, base, precision, f) == SIZE + 1
    requires Sign(negative, f) == [' '] && !f.left && !f.zeropad && width > SIZE
    ensures Text(value, negative, base, precision, width, f) ==
            Text(value, negative, base, precision, width, f.(space := false))
  {
    hide Numeral, Prefix, Reverse, Rep, NumeralZeros, StandardZeros, Wide, Extra, PrefixRev, Len2, Len3, Alternate,
         Buffer, Stored, Adjusted;
    var f' := f.(space := false);
    SameParts(value, base, precision, f);
    NumeralForm(value, base, precision, f');
    SpaceApart(value, base, f);
    var d, g := Stored(value, base, f'), Adjusted(value, base, f');
    RepLength('0', NumeralZeros(value, |d|, base, precision, f'));
    SameLengths(value, |d|, negative, base, precision, width, f');
    var n2 := Len2(|d|, width, precision, g);
    var n3 := Len3(|d|, n2, width, precision, base, g);
    var alternate := Alternate(|d|, n2, base, g);
    PrefixSmall(n3, base, alternate, g);
    PrefixReversed(n3, base, alternate, g);
    FullBuffer(d, negative, base, precision, width, Adjusted(value, base, f));
  }

  lemma SpaceApart(value: nat, base: nat, f: Flags)
    requires 2 <= base <= 36
    ensures var f', g := f.(space := false), Adjusted(value, base, f);
            && Adjusted(value, base, f') == g.(space := false) && Stored(value, base, f') == Stored(value, base, f)
            && g.left == f.left && g.zeropad == f.zeropad && g.plus == f.plus && g.space == f.space
  {
    hide Low;
  }

  lemma FullBuffer(lsd: seq<char>, negative: bool, base: nat, precision: nat, width: nat, f: Flags)
    requires !f.zeropad && !negative
    requires var f' := f.(space := false);
             var n2 := Len2(|lsd|, width, precision, f');
             var n3 := Len3(|lsd|, n2, width, precision, base, f');
             n3 + |PrefixRev(n3, base, Alternate(|lsd|, n2, base, f'), f')| == SIZE
    ensures Buffer(lsd, negative, base, precision, width, f) ==
            Buffer(lsd, negative, base, precision, width, f.(space := false))
  {
    hide Len3, Alternate, PrefixRev;
    var n2 := Len2(|lsd|, width, precision, f);
    var n3 := Len3(|lsd|, n2, width, precision, base, f);
    SpaceIgnored(|lsd|, n2, width, precision, base, n3, Alternate(|lsd|, n2, base, f), f);
  }

  lemma SpaceIgnored(n0: nat, n2: nat, w: nat, precision: nat, base: nat, n3: nat, alternate: bool, f: Flags)
    ensures var f' := f.(space := false);
            && Len3(n0, n2, w, precision, base, f') == Len3(n0, n2, w, precision, base, f)
            && Alternate(n0, n2, base, f') == Alternate(n0, n2, base, f)
            && PrefixRev(n3, base, alternate, f') == PrefixRev(n3, base, alternate, f)
  {
  }

  lemma TextBound(value: nat, negative: bool, base: nat, precision: nat, width: nat, f: Flags)
    requires 2 <= base <= 36
    ensures |Text(value, negative, base, precision, width, f)| <= Max(width, SIZE)
  {
    hide Stored, Buffer, Reverse;
    var g := Adjusted(value, base, f);
    assert Stored(value, base, g) == Stored(value, base, f) by { StoredSame(value, base, f); }
    BufferBound(value, negative, base, precision, width, g);
    ReverseLength(Buffer(Stored(value, base, f), negative, base, precision, width, g));
  }

  lemma StoredSame(value: nat, base: nat, f: Flags)
    requires 2 <= base <= 36
    ensures Stored(value, base, Adjusted(value, base, f)) == Stored(value, base, f)
  {
  }

  // ---- a precision taken as zero where the standard omits it ----

  function AsZero(f: Flags): Flags { f.(precision := true, zeropad := false) }

  /**
    With a precision of zero in place of none, what is put out is right if and only if it is exact, the numeral is the
    same, and no zeros are missing.
   */
  lemma OmittedIff(value: nat, negative: bool, base: nat, width: nat, f: Flags)
    requires Asked(value, base, 0, f) && !f.precision && !f.pointer
    ensures Text(value, negative, base, 0, width, AsZero(f)) == Standard(value, negative, base, 0, width, f) <==>
            && Exact(value, negative, base, 0, width, AsZero(f)) && (value != 0 || (base == 8 && f.hash))
            && !(f.zeropad && !f.left && width > Taken(value, negative, base, 0, f))
  {
    hide Text, Sign, Prefix, Numeral;
    var g := AsZero(f);
    TextIsStandardIff(value, negative, base, 0, width, g);
    if value == 0 && !(base == 8 && f.hash) {
      ZeroParts(base, f);
      ShortParts(0, negative, base, g);
      ZeroDiffers(negative, base, width, f);
    } else {
      SameBody(value, negative, base, f);
      if f.zeropad && !f.left && width > Taken(value, negative, base, 0, f) {
        ZerosMissing(value, negative, base, width, f);
      }
    }
  }

  lemma ZeroParts(base: nat, f: Flags)
    requires 2 <= base <= 36 && !f.precision && !f.pointer && !(base == 8 && f.hash)
    ensures Numeral(0, base, 0, AsZero(f)) == [] && Numeral(0, base, 0, f) == ['0'] && Prefix(0, base, f) == []
    ensures Prefix(0, base, AsZero(f)) == if base == 2 && f.hash then ['0', 'b'] else []
  {
    ZeroDigits(base, f.upper);
    assert Rep('0', 1) == ['0'] && Rep('0', 0) == [];
  }

  lemma ZeroDiffers(negative: bool, base: nat, width: nat, f: Flags)
    requires 2 <= base <= 36 && !f.precision && !f.pointer && !(base == 8 && f.hash)
    ensures Standard(0, negative, base, 0, width, AsZero(f)) != Standard(0, negative, base, 0, width, f)
  {
    hide Numeral, Prefix;
    ZeroParts(base, f);
    var s, t := Standard(0, negative, base, 0, width, AsZero(f)), Standard(0, negative, base, 0, width, f);
    if base == 2 && f.hash {
      assert 'b' in ['0', 'b'];
      assert 'b' in s && 'b' !in t;
    } else {
      assert '0' in ['0'];
      assert '0' !in s && '0' in t;
    }
  }

  lemma SameBody(value: nat, negative: bool, base: nat, f: Flags)
    requires 2 <= base <= 36 && !f.precision && !f.pointer && (value != 0 || (base == 8 && f.hash))
    ensures var g := AsZero(f);
            && Sign(negative, g) == Sign(negative, f) && Prefix(value, base, g) == Prefix(value, base, f)
            && Numeral(value, base, 0, g) == Numeral(value, base, 0, f)
  {
    hide Full, Digit;
    if value != 0 {
      TopDigit(value, base, f.upper);
      ReverseLength(Full(value, base, f.upper));
    } else {
      ZeroDigits(base, f.upper);
      assert Rep('0', 1) == ['0'] && Rep('0', 0) == [];
    }
  }

  lemma ZerosMissing(value: nat, negative: bool, base: nat, width: nat, f: Flags)
    requires Asked(value, base, 0, f) && !f.precision && !f.pointer && (value != 0 || (base == 8 && f.hash))
    requires f.zeropad && !f.left && width > Taken(value, negative, base, 0, f)
    ensures Text(value, negative, base, 0, width, AsZero(f)) != Standard(value, negative, base, 0, width, f)
  {
    hide Text, Sign, Prefix, Numeral;
    var g := AsZero(f);
    var sign, prefix, numeral := Sign(negative, f), Prefix(value, base, f), Numeral(value, base, 0, f);
    SameBody(value, negative, base, f);
    PartsStart(value, negative, base, f);
    var j := if sign == [' '] then 1 else 0;
    var pad := width - (|sign| + |prefix| + |numeral|);
    assert Standard(value, negative, base, 0, width, f) == sign + prefix + Rep('0', pad) + numeral;
    assert (sign + prefix + Rep('0', pad))[j] != ' ';
    assert Standard(value, negative, base, 0, width, f)[j] != ' ';
    if Taken(value, negative, base, 0, f) <= SIZE {
      TextIsStandard(value, negative, base, 0, width, g);
      assert Standard(value, negative, base, 0, width, g) == Spaces(pad) + sign + prefix + numeral;
      assert (Spaces(pad) + sign)[j] == ' ';
      assert Standard(value, negative, base, 0, width, g)[j] == ' ';
    } else {
      WideField(value, negative, base, 0, width, g, j);
    }
  }

  lemma PartsStart(value: nat, negative: bool, base: nat, f: Flags)
    ensures |Sign(negative, f)| <= 1 && (Prefix(value, base, f) != [] ==> Prefix(value, base, f)[0] == '0')
  {
  }

  // ---- reading it back ----

  function DigitValue(c: char): int {
    if '0' <= c <= '9' then c as int - '0' as int
    else if 'a' <= c <= 'z' then c as int - 'a' as int + 10
    else c as int - 'A' as int + 10
  }

  function Parse(s: seq<char>, base: nat): int {
    if |s| == 0 then 0 else Parse(s[..|s| - 1], base) * base + DigitValue(s[|s| - 1])
  }

  lemma DigitBack(d: nat, upper: bool)
    requires d < 36
    ensures DigitValue(Digit(d, upper)) == d
  {
  }

  lemma {:induction false} ParseDigits(v: nat, base: nat, upper: bool)
    requires 2 <= base <= 36
    ensures Parse(Reverse(Full(v, base, upper)), base) == v
    decreases v
  {
    if v > 0 {
      hide Digit, DigitValue;
      Shrinks(v, base);
      ParseDigits(v / base, base, upper);
      DigitBack(v % base, upper);
      var front := Reverse(Full(v / base, base, upper));
      var s := Reverse(Full(v, base, upper));
      assert Full(v, base, upper)[1..] == Full(v / base, base, upper);
      assert s == front + [Digit(v % base, upper)];
      assert s[..|s| - 1] == front;
      Division(v, base);
    }
  }

  lemma Division(v: nat, base: nat)
    requires base >= 2
    ensures (v / base) * base + v % base == v
  {
  }

  lemma {:induction false} ParseZeros(n: nat, s: seq<char>, base: nat)
    ensures Parse(Rep('0', n) + s, base) == Parse(s, base)
    decreases n + |s|
  {
    var t := Rep('0', n) + s;
    if |s| > 0 {
      ParseZeros(n, s[..|s| - 1], base);
      assert t[..|t| - 1] == Rep('0', n) + s[..|s| - 1];
    } else if n > 0 {
      ParseZeros(n - 1, s, base);
      assert t[..|t| - 1] == Rep('0', n - 1) + s;
    } else {
      assert t == [];
    }
  }

  /** Without padding, sign and prefix, the text reads back as the value. */
  lemma RoundTrip(value: nat, negative: bool, base: nat, precision: nat, width: nat, f: Flags)
    requires Fits(value, negative, base, precision, width, f)
    ensures exists a: nat, zeros: nat, b: nat ::
      && Text(value, negative, base, precision, width, f) ==
         Spaces(a) + Sign(negative, f) + Prefix(value, base, f) +
         (Rep('0', zeros) + Numeral(value, base, precision, f)) + Spaces(b)
      && Parse(Rep('0', zeros) + Numeral(value, base, precision, f), base) == value
    ensures |Text(value, negative, base, precision, width, f)| ==
            Max(width, |Sign(negative, f)| + |Prefix(value, base, f)| + |Numeral(value, base, precision, f)|)
  {
    hide Text, Sign, Prefix, Numeral, Parse, Standard;
    TextIsStandard(value, negative, base, precision, width, f);
    StandardLength(value, negative, base, precision, width, f);
    var a, zeros, b := StandardForm(value, negative, base, precision, width, f);
  }

  /** What the standard asks for is spaces, sign, prefix, digits of the value and spaces. */
  lemma StandardForm(value: nat, negative: bool, base: nat, precision: nat, width: nat, f: Flags)
    returns (a: nat, zeros: nat, b: nat)
    requires 2 <= base <= 36
    ensures Standard(value, negative, base, precision, width, f) ==
            Spaces(a) + Sign(negative, f) + Prefix(value, base, f) +
            (Rep('0', zeros) + Numeral(value, base, precision, f)) + Spaces(b)
    ensures Parse(Rep('0', zeros) + Numeral(value, base, precision, f), base) == value
  {
    hide Sign, Prefix, Numeral, Parse;
    var numeral := Numeral(value, base, precision, f);
    var pad := Sub(width, |Sign(negative, f)| + |Prefix(value, base, f)| + |numeral|);
    NumeralParses(value, base, precision, f);
    ParseZeros(0, numeral, base);
    ParseZeros(pad, numeral, base);
    var sign, prefix := Sign(negative, f), Prefix(value, base, f);
    EmptySpaces();
    a := if !f.left && !f.zeropad then pad else 0;
    zeros, b := if f.zeropad && !f.left then pad else 0, if f.left then pad else 0;
    assert Rep('0', 0) + numeral == numeral;
    assert Standard(value, negative, base, precision, width, f) ==
           Spaces(a) + sign + prefix + (Rep('0', zeros) + numeral) + Spaces(b);
  }

  lemma NumeralParses(value: nat, base: nat, precision: nat, f: Flags)
    requires 2 <= base <= 36
    ensures Parse(Numeral(value, base, precision, f), base) == value
  {
    hide Parse, Full, Reverse;
    var digits := Reverse(Full(value, base, f.upper));
    var n := Sub(if f.precision then precision else 1, |digits|);
    ParseDigits(value, base, f.upper);
    ParseZeros(n, digits, base);
    ParseZeros(1, Rep('0', n) + digits, base);
    assert Rep('0', 1) == ['0'];
  }
}
