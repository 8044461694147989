/** Reading a converted field as a person would: what the characters that printf puts out say. */
module TextReading {
  import opened Words
  import opened IntegerText
  import opened Printf
  import opened FormatSpec

  // ---- a reader ----

  function DropSpaces(s: seq<char>): seq<char> { if |s| > 0 && s[0] == ' ' then DropSpaces(s[1..]) else s }

  function DropTrailing(s: seq<char>): seq<char> {
    if |s| > 0 && s[|s| - 1] == ' ' then DropTrailing(s[..|s| - 1]) else s
  }

  /** 0x, 0X or 0b, in the base it announces. */
  predicate Announced(s: seq<char>, base: nat) {
    |s| >= 2 && s[0] == '0' && ((base == 16 && (s[1] == 'x' || s[1] == 'X')) || (base == 2 && s[1] == 'b'))
  }

  function Unsigned(s: seq<char>, base: nat): int {
    if Announced(s, base) then Parse(s[2..], base) else Parse(s, base)
  }

  /** The number that a field says, without the spaces around it: a minus negates, a plus does not. */
  function Reading(s: seq<char>, base: nat): int {
    var t := DropTrailing(DropSpaces(s));
    if |t| > 0 && t[0] == '-' then -Unsigned(t[1..], base)
    else if |t| > 0 && t[0] == '+' then Unsigned(t[1..], base)
    else Unsigned(t, base)
  }

  // ---- the characters of a numeral ----

  /** A digit of the base, in the right case. */
  predicate DigitIn(c: char, base: nat, upper: bool) {
    || ('0' <= c <= '9' && c as int - '0' as int < base)
    || (!upper && 'a' <= c <= 'z' && c as int - 'a' as int + 10 < base)
    || (upper && 'A' <= c <= 'Z' && c as int - 'A' as int + 10 < base)
  }

  predicate DigitsIn(s: seq<char>, base: nat, upper: bool) { forall c :: c in s ==> DigitIn(c, base, upper) }

  lemma DigitIsIn(d: nat, base: nat, upper: bool)
    requires d < base <= 36
    ensures DigitIn(Digit(d, upper), base, upper)
  {
  }

  lemma {:induction false} FullIsIn(v: nat, base: nat, upper: bool)
    requires 2 <= base <= 36
    ensures DigitsIn(Full(v, base, upper), base, upper)
    decreases v
  {
    hide Digit, DigitIn;
    if v > 0 {
      Shrinks(v, base);
      FullIsIn(v / base, base, upper);
      DigitIsIn(v % base, base, upper);
    }
  }

  lemma {:induction false} ReverseIn(s: seq<char>)
    ensures forall c :: c in Reverse(s) <==> c in s
  {
    if |s| > 0 {
      ReverseIn(s[1..]);
      assert s == [s[0]] + s[1..];
    }
  }

  lemma NumeralIsIn(value: nat, base: nat, precision: nat, f: Flags, zeros: nat)
    requires 2 <= base <= 36
    ensures DigitsIn(Rep('0', zeros) + Numeral(value, base, precision, f), base, f.upper)
  {
    hide Full, Reverse, Digit;
    FullIsIn(value, base, f.upper);
    ReverseIn(Full(value, base, f.upper));
  }

  // ---- reading back ----

  lemma {:induction false} DropFront(n: nat, s: seq<char>)
    ensures DropSpaces(Spaces(n) + s) == DropSpaces(s)
  {
    var t := Spaces(n) + s;
    if n == 0 {
      assert t == s;
    } else {
      DropFront(n - 1, s);
      assert t[1..] == Spaces(n - 1) + s;
    }
  }

  lemma {:induction false} DropBack(s: seq<char>, n: nat)
    requires |s| == 0 || s[|s| - 1] != ' '
    ensures DropTrailing(s + Spaces(n)) == s
  {
    var t := s + Spaces(n);
    if n == 0 {
      assert t == s;
    } else {
      DropBack(s, n - 1);
      assert t[..|t| - 1] == s + Spaces(n - 1);
    }
  }

  /** A text without spaces at its ends is found between spaces. */
  lemma FoundBetween(a: nat, s: seq<char>, b: nat)
    requires |s| == 0 || (s[0] != ' ' && s[|s| - 1] != ' ')
    ensures DropTrailing(DropSpaces(Spaces(a) + s + Spaces(b))) == s
  {
    assert Spaces(a) + s + Spaces(b) == Spaces(a) + (s + Spaces(b));
    DropFront(a, s + Spaces(b));
    if |s| == 0 {
      assert s + Spaces(b) == Spaces(b) + [] && DropSpaces([]) == [];
      DropFront(b, []);
    } else {
      DropBack(s, b);
    }
  }

  /** Prefix and digits read as the digits alone. */
  lemma PrefixSkipped(value: nat, base: nat, f: Flags, digits: seq<char>)
    requires DigitsIn(digits, base, f.upper)
    ensures Unsigned(Prefix(value, base, f) + digits, base) == Parse(digits, base)
  {
    var p := Prefix(value, base, f);
    var s := p + digits;
    if p == [] {
      assert s == digits;
      if |digits| >= 2 { assert digits[1] in digits; }
    } else {
      assert s[0] == p[0] && s[1] == p[1] && s[2..] == digits;
    }
  }

  /** The characters of a field before the digits: nothing but a sign, a prefix and spaces. */
  lemma FieldChars(value: nat, negative: bool, base: nat, f: Flags)
    ensures ('-' in Sign(negative, f) <==> negative) && ('+' in Sign(negative, f) <==> f.plus && !negative)
    ensures '-' !in Prefix(value, base, f) && '+' !in Prefix(value, base, f) && ' ' !in Prefix(value, base, f)
  {
  }

  /** What C11 asks for says the number: read back it is the value with its sign. */
  lemma StandardReads(value: nat, negative: bool, base: nat, precision: nat, width: nat, f: Flags)
    requires 2 <= base <= 36
    ensures var t := Standard(value, negative, base, precision, width, f);
            && (if negative then Reading(t, base) == -(value as int) else Reading(t, base) == value)
            && ('-' in t <==> negative) && ('+' in t <==> f.plus && !negative)
            && (f.space && !f.plus && !negative ==> |t| > 0 && t[0] == ' ')
  {
    hide Standard, Prefix, Numeral, Parse, DigitIn, Unsigned, DropSpaces, DropTrailing;
    var a, zeros, b := StandardForm(value, negative, base, precision, width, f);
    var sign, prefix := Sign(negative, f), Prefix(value, base, f);
    var digits := Rep('0', zeros) + Numeral(value, base, precision, f);
    NumeralIsIn(value, base, precision, f, zeros);
    PrefixSkipped(value, base, f, digits);
    FieldChars(value, negative, base, f);
    NoSigns(base, f.upper, digits);
    var body := prefix + digits;
    if sign == [' '] {
      assert Spaces(a) + sign + prefix + digits + Spaces(b) == Spaces(a + 1) + body + Spaces(b);
      FoundBetween(a + 1, body, b);
    } else {
      assert Spaces(a) + sign + prefix + digits + Spaces(b) == Spaces(a) + (sign + body) + Spaces(b);
      FoundBetween(a, sign + body, b);
      assert if sign == [] then sign + body == body else (sign + body)[1..] == body;
    }
  }

  lemma NoSigns(base: nat, upper: bool, s: seq<char>)
    requires DigitsIn(s, base, upper)
    ensures '-' !in s && '+' !in s && ' ' !in s
  {
    assert !DigitIn('-', base, upper) && !DigitIn('+', base, upper) && !DigitIn(' ', base, upper);
  }

  /** The letters of a field are in the case of the conversion. */
  lemma StandardCase(value: nat, negative: bool, precision: nat, width: nat, f: Flags)
    ensures forall c :: c in Standard(value, negative, 16, precision, width, f) ==>
              if f.upper then !('a' <= c <= 'z') else !('A' <= c <= 'Z')
  {
    hide Standard, Numeral, Parse;
    var a, zeros, b := StandardForm(value, negative, 16, precision, width, f);
    NumeralIsIn(value, 16, precision, f, zeros);
  }

  /** A hexadecimal field has an x just if a prefix was asked for and the value is not zero. */
  lemma StandardPrefix(value: nat, negative: bool, precision: nat, width: nat, f: Flags)
    ensures var t := Standard(value, negative, 16, precision, width, f);
            'x' in t || 'X' in t <==> f.pointer || (f.hash && value != 0)
  {
    hide Standard, Numeral, Parse;
    var a, zeros, b := StandardForm(value, negative, 16, precision, width, f);
    NumeralIsIn(value, 16, precision, f, zeros);
    var p := Prefix(value, 16, f);
    assert p != [] ==> p[1] in p;
  }

  // ---- every integer conversion ----

  /** How many bits the length modifier stands for. */
  function Bits(length: string): nat {
    if length == "hh" then 8 else if length == "h" then 16 else if length == "" then 32 else 64
  }

  /** v is the argument as an integer of that many bits. */
  ghost predicate Represents(v: int, arg: int, bits: nat, signed: bool)
    requires bits > 0
  {
    && (v - arg) % Pow2(bits) == 0
    && if signed then -Pow2(bits - 1) <= v < Pow2(bits - 1) else 0 <= v < Pow2(bits)
  }

  lemma WrapMeans(v: int, count: int, lo: int)
    requires count > 0
    ensures (Wrap(v, count, lo) - v) % count == 0 && lo <= Wrap(v, count, lo) < lo + count
  {
    var q := (v - lo) / count;
    var n := Wrap(v, count, lo) - v;
    assert n == count * (-q);
    QuotientUnique(count, -q, 0, n);
  }

  lemma ValueRepresents(c: char, x: Fields, args: seq<Arg>)
    requires WellFormed(x) && IsInteger(c)
    ensures var m := C11(x, args);
            Represents(ValueOf(c, m), NumOf(m.args), Bits(x.length), IsSigned(c))
  {
    hide Wrap, Value, NumOf, Bits;
    var m, bits := C11(x, args), Bits(x.length);
    ValueIsWrap(c, x.length, m);
    WrapMeans(NumOf(m.args), Pow2(bits), if IsSigned(c) then -Pow2(bits - 1) else 0);
    assert Pow2(bits) == 2 * Pow2(bits - 1);
  }

  lemma ValueIsWrap(c: char, length: string, m: Meaning)
    requires length in LENGTHS && IsInteger(c) && m.length == LengthOf(length)
    ensures var bits := Bits(length);
            bits > 0 && ValueOf(c, m) == Wrap(NumOf(m.args), Pow2(bits), if IsSigned(c) then -Pow2(bits - 1) else 0)
  {
    hide Wrap, Pow2;
    Widths();
  }

  /**
    Every integer conversion that is right puts out a field that says the argument: in the base of its letter, with as
    many bits as its length modifier says, with a minus just if it is negative, and with a plus just if that was asked
    of a signed conversion and it is not.
   */
  lemma ConversionReads(c: char, x: Fields, args: seq<Arg>, i: nat)
    requires WellFormed(x) && IsInteger(c) && Right(c, x, args)
    ensures var t := ConversionOut(c, Read(x, args, i)).0;
            var v := Reading(t, LetterBase(c));
            && Represents(v, NumOf(C11(x, args).args), Bits(x.length), IsSigned(c))
            && ('-' in t <==> v < 0) && ('+' in t <==> '+' in x.flags && IsSigned(c) && v >= 0)
            && (' ' in x.flags && '+' !in x.flags && IsSigned(c) && v >= 0 ==> |t| > 0 && t[0] == ' ')
            && (LetterBase(c) == 16 ==> ('x' in t || 'X' in t <==> '#' in x.flags && v != 0))
            && (LetterBase(c) == 16 ==> forall a :: a in t ==>
                  if c == 'X' then !('a' <= a <= 'z') else !('A' <= a <= 'Z'))
  {
    hide Right, Standard, ValueOf, Represents, Reading, Read, IntegerOut, LetterBase, Bits, Value;
    ConversionIff(c, x, args, i);
    ValueRepresents(c, x, args);
    var m := C11(x, args);
    var v, f := ValueOf(c, m), C11Flags(c, m.f);
    Between(c);
    StandardReads(Abs(v), v < 0, LetterBase(c), m.precision, m.width, f);
    if LetterBase(c) == 16 { StandardPrefix(Abs(v), v < 0, m.precision, m.width, f); }
    if LetterBase(c) == 16 { StandardCase(Abs(v), v < 0, m.precision, m.width, f); }
  }

  lemma Between(c: char)
    ensures 2 <= LetterBase(c) <= 36 && (LetterBase(c) == 16 ==> c == 'x' || c == 'X')
  {
  }

  // ---- the rest of a format ----

  /** Ordinary characters are put out as they are. */
  lemma {:induction false} OrdinaryText(fmt: string, i: nat, j: nat, args: seq<Arg>)
    requires i <= j <= |fmt| && forall k :: i <= k < j ==> fmt[k] != '%'
    ensures Render(fmt, i, args) == fmt[i..j] + Render(fmt, j, args)
    decreases j - i
  {
    hide Render;
    if i < j {
      OrdinaryText(fmt, i + 1, j, args);
      OneCharacter(fmt, i, args);
      assert fmt[i..j] == [fmt[i]] + fmt[i + 1..j];
    }
  }

  lemma OneCharacter(fmt: string, i: nat, args: seq<Arg>)
    requires i < |fmt| && fmt[i] != '%'
    ensures Render(fmt, i, args) == [fmt[i]] + Render(fmt, i + 1, args)
  {
    hide SpecFrom, ConversionOut;
  }

  /** A format without specifications is put out as it is. */
  lemma PlainFormat(fmt: string, args: seq<Arg>)
    requires '%' !in fmt
    ensures Render(fmt, 0, args) == fmt
  {
    hide Render;
    OrdinaryText(fmt, 0, |fmt|, args);
    assert Render(fmt, |fmt|, args) == [] by { AtEnd(fmt, args); }
    assert fmt[0..|fmt|] == fmt;
  }

  lemma AtEnd(fmt: string, args: seq<Arg>)
    ensures Render(fmt, |fmt|, args) == []
  {
  }

  /** %% is put out as %, and takes no argument. */
  lemma Percent(fmt: string, i: nat, args: seq<Arg>)
    requires i + 1 < |fmt| && fmt[i] == fmt[i + 1] == '%'
    ensures Render(fmt, i, args) == "%" + Render(fmt, i + 2, args)
  {
    hide Parse;
    var x := Fields("", Absent, false, Absent, "");
    assert Write(x) == "" == fmt[i + 1..i + 1];
    ReadsBack(fmt, i, x, args);
  }

  lemma {:induction false} DigitCount(v: nat, k: nat)
    requires v < Pow2(4 * k)
    ensures |Full(v, 16, false)| <= k
  {
    hide Digit;
    if v > 0 {
      assert k > 0;
      Pow2Add(4, 4 * (k - 1));
      assert Pow2(4) == 16;
      DigitCount(v / 16, k - 1);
    }
  }

  /** %p without a precision says the address in hexadecimal, and (nil) for none. */
  lemma PointerReads(x: Fields, args: seq<Arg>, i: nat)
    requires WellFormed(x) && !x.dot
    ensures var t, n := ConversionOut('p', Read(x, args, i)).0, NumOf(C11(x, args).args) % WORD;
            if n == 0 then t == "(nil)" + Spaces(if C11(x, args).f.left then 13 else 0)
            else Reading(t, 16) == n && |t| >= 18 && 'x' in t
  {
    hide Text, Reading, Value, Standard, OutRev, Fits, Read, C11, UnsignedArg;
    var s := Read(x, args, i);
    PointerSpec(x, args, i);
    var n := NumOf(C11(x, args).args) % WORD;
    var f := s.f.(zeropad := true, pointer := true);
    if n == 0 {
      Nil(f);
    } else {
      assert n < Pow2(64) by { Pow2Values(); }
      DigitCount(n, 16);
      PointerFits(n, f);
      TextIsStandard(n, false, 16, 0, PTR_WIDTH, f);
      StandardReads(n, false, 16, 0, PTR_WIDTH, f);
      StandardLength(n, false, 16, 0, PTR_WIDTH, f);
      PointerPrefix(n, f);
    }
  }

  lemma PointerSpec(x: Fields, args: seq<Arg>, i: nat)
    requires WellFormed(x) && !x.dot
    ensures var s, m := Read(x, args, i), C11(x, args);
            && s.Spec? && s.precision == 0 && !s.f.precision && !s.f.upper && s.f.left == m.f.left && s.args == m.args
            && UnsignedArg(NumOf(s.args), Long) == NumOf(m.args) % WORD
  {
  }

  lemma Nil(f: Flags)
    requires f.zeropad
    ensures OutRev(")lin(", PTR_WIDTH, f) == "(nil)" + Spaces(if f.left then 13 else 0)
  {
    ReverseFive(')', 'l', 'i', 'n', '(');
  }

  lemma ReverseFive(a: char, b: char, c: char, d: char, e: char)
    ensures Reverse([a, b, c, d, e]) == [e, d, c, b, a]
  {
    hide Reverse;
    One(e);
    ReverseCons(d, [e]);
    ReverseCons(c, [d, e]);
    ReverseCons(b, [c, d, e]);
    ReverseCons(a, [b, c, d, e]);
    assert [a, b, c, d, e] == [a] + [b, c, d, e] && [b, c, d, e] == [b] + [c, d, e];
    assert [c, d, e] == [c] + [d, e] && [d, e] == [d] + [e];
  }

  lemma ReverseCons(c: char, s: seq<char>)
    ensures Reverse([c] + s) == Reverse(s) + [c]
  {
    assert ([c] + s)[1..] == s;
  }

  /** %s of a null pointer says (null); zero padding, which means nothing for strings, keeps it from being padded. */
  lemma NullShown(x: Fields, args: seq<Arg>, i: nat)
    requires WellFormed(x) && C11(x, args).width < UINT && |C11(x, args).args| > 0 && C11(x, args).args[0] == Null
    ensures var t, m := ConversionOut('s', Read(x, args, i)).0, C11(x, args);
            if m.f.zeropad && !m.f.left then t == "(null)" else InField(t, "(null)", m.width, m.f.left)
  {
    hide Value, InField, Reverse, OutRev;
    var s := Read(x, args, i);
    ReverseFive('l', 'l', 'u', 'n', '(');
    ReverseCons(')', "llun(");
    assert ")llun(" == [')'] + "llun(";
    OutField(")llun(", "(null)", s.width, s.f);
  }

  lemma OutField(b: seq<char>, t: seq<char>, width: nat, f: Flags)
    requires Reverse(b) == t
    ensures if f.zeropad && !f.left then OutRev(b, width, f) == t else InField(OutRev(b, width, f), t, width, f.left)
  {
    ReverseLength(b);
  }

  lemma PointerFits(n: nat, f: Flags)
    requires |Full(n, 16, false)| <= 16 && n > 0 && !f.precision && f.pointer && !f.upper && f.zeropad
    ensures Fits(n, false, 16, 0, PTR_WIDTH, f)
  {
    hide Full, Reverse;
    ReverseLength(Full(n, 16, false));
  }

  lemma PointerPrefix(n: nat, f: Flags)
    requires n > 0 && f.pointer && !f.upper
    ensures 'x' in Standard(n, false, 16, 0, PTR_WIDTH, f)
  {
    hide Standard, Numeral, Parse;
    var a, zeros, b := StandardForm(n, false, 16, 0, PTR_WIDTH, f);
    assert 'x' in Prefix(n, 16, f);
  }
}
