/**
  Conversion specifications as section 7.21.6.1 of C11 writes and reads them, against what the format loop makes of
  them.
 */
module FormatSpec {
  import opened Words
  import opened IntegerText
  import opened Printf

  // ---- the grammar ----

  /** A number in a specification: not there, written out, or taken from the arguments. */
  datatype Count = Absent | Number(digits: string) | Star

  /** The parts of a specification between the % and the final character. */
  datatype Fields = Fields(flags: string, width: Count, dot: bool, precision: Count, length: string)

  predicate AllFlags(s: string) { forall i :: 0 <= i < |s| ==> IsFlag(s[i]) }

  predicate AllDigits(s: string) { forall i :: 0 <= i < |s| ==> IsDigit(s[i]) }

  predicate CountOk(c: Count) { c.Number? ==> |c.digits| > 0 && AllDigits(c.digits) }

  const LENGTHS: set<string> := {"", "h", "hh", "l", "ll", "j", "z", "t"}

  predicate WellFormed(x: Fields) {
    && AllFlags(x.flags) && CountOk(x.width) && CountOk(x.precision) && x.length in LENGTHS
    && (x.width.Number? ==> x.width.digits[0] != '0') && (!x.dot ==> x.precision.Absent?)
  }

  function WriteCount(c: Count): string {
    match c
    case Absent => ""
    case Number(digits) => digits
    case Star => "*"
  }

  function WriteDot(dot: bool): string { if dot then "." else "" }

  function Write(x: Fields): string {
    x.flags + (WriteCount(x.width) + (WriteDot(x.dot) + (WriteCount(x.precision) + x.length)))
  }

  // ---- what the standard reads ----

  datatype Meaning = Meaning(f: Flags, width: nat, precision: nat, length: Length, args: seq<Arg>)

  function FlagSet(s: string): Flags { Flags('0' in s, '-' in s, '+' in s, ' ' in s, '#' in s, false, false, false) }

  function Value(c: Count, args: seq<Arg>): int {
    match c
    case Absent => 0
    case Number(digits) => Parse(digits, 10)
    case Star => StarOf(args)
  }

  function After(c: Count, args: seq<Arg>): seq<Arg> { if c.Star? then Tail(args) else args }

  function LengthOf(s: string): Length {
    if s == "" then Int
    else if s == "h" then Short
    else if s == "hh" then Char
    else if s == "ll" then LongLong
    else Long
  }

  /** A negative width is a - flag and a width; a negative precision is as if it were omitted. */
  function C11(x: Fields, args: seq<Arg>): Meaning {
    var w, p := Value(x.width, args), Value(x.precision, After(x.width, args));
    var given := x.dot && p >= 0;
    var f := FlagSet(x.flags).(left := '-' in x.flags || w < 0, precision := given);
    var rest := After(x.precision, After(x.width, args));
    Meaning(f, Abs(w), if given then p else 0, LengthOf(x.length), rest)
  }

  // ---- what the format loop reads ----

  /** Numbers are read in 32 bits, and a negative precision as zero. */
  function Read(x: Fields, args: seq<Arg>, i: nat): Spec {
    var w, p := Value(x.width, args), Value(x.precision, After(x.width, args));
    var f := FlagSet(x.flags).(left := '-' in x.flags || w < 0, precision := x.dot);
    var rest := After(x.precision, After(x.width, args));
    Spec(f, Abs(w) % UINT, if p > 0 then p % UINT else 0, LengthOf(x.length), i, rest)
  }

  ghost predicate TextAt(fmt: string, k: nat, t: string) { k + |t| <= |fmt| && fmt[k..k + |t|] == t }

  lemma TextSplit(fmt: string, k: nat, a: string, b: string)
    requires TextAt(fmt, k, a + b)
    ensures TextAt(fmt, k, a) && TextAt(fmt, k + |a|, b)
  {
    var t := a + b;
    assert t[..|a|] == a && t[|a|..] == b;
    assert fmt[k..k + |a|] == fmt[k..k + |t|][..|a|];
    assert fmt[k + |a|..k + |t|] == fmt[k..k + |t|][|a|..];
  }

  lemma TextJoin(fmt: string, k: nat, a: string, b: string)
    requires TextAt(fmt, k, a) && TextAt(fmt, k + |a|, b)
    ensures TextAt(fmt, k, a + b)
  {
  }

  function AddFlags(f: Flags, s: string): Flags {
    f.(zeropad := f.zeropad || '0' in s, left := f.left || '-' in s, plus := f.plus || '+' in s,
       space := f.space || ' ' in s, hash := f.hash || '#' in s)
  }

  lemma {:induction false} FlagsRead(fmt: string, k: nat, s: string, f: Flags)
    requires TextAt(fmt, k, s) && AllFlags(s) && !IsFlag(At(fmt, k + |s|))
    ensures FlagsFrom(fmt, k, f) == (AddFlags(f, s), k + |s|)
    decreases |s|
  {
    if |s| > 0 {
      assert s == [s[0]] + s[1..];
      TextSplit(fmt, k, [s[0]], s[1..]);
      assert fmt[k] == fmt[k..k + |s|][0] == s[0];
      FlagsRead(fmt, k + 1, s[1..], WithFlag(s[0], f));
      AddOne(f, s[0], s[1..]);
    }
  }

  lemma AddOne(f: Flags, c: char, s: string)
    requires IsFlag(c)
    ensures AddFlags(WithFlag(c, f), s) == AddFlags(f, [c] + s)
  {
  }

  lemma {:induction false} ParseNat(s: string)
    requires AllDigits(s)
    ensures Parse(s, 10) >= 0
    decreases |s|
  {
    if |s| > 0 { ParseNat(s[..|s| - 1]); }
  }

  /** atou_ computes the value of a numeral, in 32 bits. */
  lemma {:induction false} NumberRead(fmt: string, k: nat, d: string, j: nat)
    requires TextAt(fmt, k, d) && AllDigits(d) && !IsDigit(At(fmt, k + |d|)) && j <= |d|
    ensures Parse(d[..j], 10) >= 0 && Parse(d, 10) >= 0
    ensures NumberFrom(fmt, k + j, Parse(d[..j], 10) % UINT) == (Parse(d, 10) % UINT, k + |d|)
    decreases |d| - j
  {
    hide Parse;
    ParseNat(d);
    ParseNat(d[..j]);
    if j == |d| {
      assert d[..j] == d;
    } else {
      var n := Parse(d[..j], 10);
      assert fmt[k + j] == fmt[k..k + |d|][j] == d[j];
      DigitAdded(d, j);
      WrapStep(n, d[j] as int - '0' as int);
      NumberRead(fmt, k, d, j + 1);
    }
  }

  lemma DigitAdded(d: string, j: nat)
    requires j < |d| && AllDigits(d)
    ensures Parse(d[..j + 1], 10) == Parse(d[..j], 10) * 10 + (d[j] as int - '0' as int)
  {
    assert d[..j + 1][..j] == d[..j];
  }

  lemma WrapStep(n: int, d: int)
    ensures (n % UINT * 10 + d) % UINT == (n * 10 + d) % UINT
  {
    var q, r := n / UINT, n % UINT;
    assert n * 10 + d == (r * 10 + d) + UINT * (10 * q);
    ModAdd(r * 10 + d, 10 * q);
  }

  lemma ModAdd(a: int, q: int)
    ensures (a + 0x1_0000_0000 * q) % 0x1_0000_0000 == a % 0x1_0000_0000
  {
  }

  /** What the width is read as. */
  lemma WidthRead(fmt: string, k: nat, f: Flags, c: Count, args: seq<Arg>)
    requires CountOk(c) && TextAt(fmt, k, WriteCount(c)) && (c.Star? ==> k + 1 < |fmt|)
    requires c.Number? ==> !IsDigit(At(fmt, k + |WriteCount(c)|))
    requires c.Absent? ==> At(fmt, k) != '*' && !IsDigit(At(fmt, k))
    ensures var w := Value(c, args);
            WidthFrom(fmt, k, f, args) ==
            Spec(f.(left := f.left || w < 0), Abs(w) % UINT, 0, Int, k + |WriteCount(c)|, After(c, args))
  {
    hide Parse, Wrap;
    match c
    case Absent =>
    case Number(d) =>
      assert fmt[k] == fmt[k..k + |d|][0] == d[0];
      NumberRead(fmt, k, d, 0);
      NoDigits(d);
    case Star =>
      assert fmt[k] == fmt[k..k + 1][0];
      StarBound(args);
  }

  lemma NoDigits(d: string)
    ensures d[..0] == [] && Parse(d[..0], 10) == 0
  {
  }

  lemma StarBound(args: seq<Arg>)
    ensures -0x8000_0000 <= StarOf(args) < 0x8000_0000
  {
  }

  lemma PrecisionRead(fmt: string, s: Spec, dot: bool, c: Count)
    requires s.Spec? && s.precision == 0 && !s.f.precision && CountOk(c) && (!dot ==> c.Absent?)
    requires TextAt(fmt, s.i, WriteDot(dot) + WriteCount(c)) && (dot ==> s.i + 1 < |fmt|)
    requires (c.Star? ==> s.i + 2 < |fmt|)
    requires c.Number? ==> !IsDigit(At(fmt, s.i + |WriteDot(dot) + WriteCount(c)|))
    requires !dot ==> At(fmt, s.i) != '.'
    requires dot && c.Absent? ==> At(fmt, s.i + 1) != '*' && !IsDigit(At(fmt, s.i + 1))
    ensures var p := Value(c, s.args);
            PrecisionFrom(fmt, s) == s.(f := s.f.(precision := dot), precision := if p > 0 then p % UINT else 0,
                                        i := s.i + |WriteDot(dot) + WriteCount(c)|, args := After(c, s.args))
  {
    hide Parse, Wrap;
    if dot {
      TextSplit(fmt, s.i, ".", WriteCount(c));
      assert fmt[s.i] == fmt[s.i..s.i + 1][0];
      var k := s.i + 1;
      match c
      case Absent =>
      case Number(d) =>
        assert fmt[k] == fmt[k..k + |d|][0] == d[0];
        NumberRead(fmt, k, d, 0);
        NoDigits(d);
      case Star =>
        assert fmt[k] == fmt[k..k + 1][0];
        StarBound(s.args);
    }
  }

  predicate LengthLetter(c: char) { c == 'l' || c == 'h' || c == 't' || c == 'j' || c == 'z' }

  lemma LengthRead(fmt: string, s: Spec, t: string)
    requires s.Spec? && s.length == Int && t in LENGTHS && TextAt(fmt, s.i, t) && s.i + |t| < |fmt|
    requires t == "" ==> !LengthLetter(At(fmt, s.i))
    requires t == "l" || t == "h" ==> At(fmt, s.i + 1) != t[0]
    ensures LengthFrom(fmt, s) == s.(length := LengthOf(t), i := s.i + |t|)
  {
    if |t| > 0 { assert fmt[s.i] == fmt[s.i..s.i + |t|][0] == t[0]; }
    if |t| > 1 { assert fmt[s.i + 1] == fmt[s.i..s.i + |t|][1] == t[1]; }
  }

  /** A final character that cannot be taken for a part of the specification. */
  predicate Ends(c: char) { !IsFlag(c) && !IsDigit(c) && c != '*' && c != '.' && !LengthLetter(c) }

  // The places where the parts of x start, behind a % at i.
  function WidthAt(x: Fields, i: nat): nat { i + 1 + |x.flags| }
  function DotAt(x: Fields, i: nat): nat { WidthAt(x, i) + |WriteCount(x.width)| }
  function LengthAt(x: Fields, i: nat): nat { DotAt(x, i) + |WriteDot(x.dot) + WriteCount(x.precision)| }
  function EndAt(x: Fields, i: nat): nat { LengthAt(x, i) + |x.length| }

  ghost predicate Placed(fmt: string, i: nat, x: Fields) {
    && TextAt(fmt, i + 1, x.flags) && TextAt(fmt, WidthAt(x, i), WriteCount(x.width))
    && TextAt(fmt, DotAt(x, i), WriteDot(x.dot) + WriteCount(x.precision)) && TextAt(fmt, LengthAt(x, i), x.length)
  }

  lemma WrittenPlaced(fmt: string, i: nat, x: Fields)
    requires TextAt(fmt, i + 1, Write(x))
    ensures Placed(fmt, i, x) && EndAt(x, i) == i + 1 + |Write(x)|
  {
    hide TextAt, WriteCount, WriteDot;
    var p := WriteDot(x.dot) + (WriteCount(x.precision) + x.length);
    assert p == (WriteDot(x.dot) + WriteCount(x.precision)) + x.length;
    TextSplit(fmt, i + 1, x.flags, WriteCount(x.width) + p);
    TextSplit(fmt, WidthAt(x, i), WriteCount(x.width), p);
    TextSplit(fmt, DotAt(x, i), WriteDot(x.dot) + WriteCount(x.precision), x.length);
  }

  lemma PlacedWritten(fmt: string, i: nat, x: Fields)
    requires Placed(fmt, i, x)
    ensures TextAt(fmt, i + 1, Write(x)) && EndAt(x, i) == i + 1 + |Write(x)|
  {
    hide TextAt, WriteCount, WriteDot;
    var p := WriteDot(x.dot) + (WriteCount(x.precision) + x.length);
    assert p == (WriteDot(x.dot) + WriteCount(x.precision)) + x.length;
    TextJoin(fmt, DotAt(x, i), WriteDot(x.dot) + WriteCount(x.precision), x.length);
    TextJoin(fmt, WidthAt(x, i), WriteCount(x.width), p);
    TextJoin(fmt, i + 1, x.flags, WriteCount(x.width) + p);
  }

  /** What follows each part does not belong to it. */
  ghost predicate Cut(fmt: string, i: nat, x: Fields) {
    var w, d, l := WidthAt(x, i), DotAt(x, i), LengthAt(x, i);
    && !IsFlag(At(fmt, w)) && (x.width.Number? ==> !IsDigit(At(fmt, d)))
    && (x.width.Absent? ==> At(fmt, w) != '*' && !IsDigit(At(fmt, w)))
    && (x.precision.Number? ==> !IsDigit(At(fmt, l))) && (!x.dot ==> At(fmt, d) != '.')
    && (x.dot && x.precision.Absent? ==> At(fmt, d + 1) != '*' && !IsDigit(At(fmt, d + 1)))
    && (x.length == "" ==> !LengthLetter(At(fmt, l)))
    && (x.length == "l" || x.length == "h" ==> At(fmt, l + 1) != x.length[0])
  }

  /** What is known after the width. */
  function ReadWidth(x: Fields, args: seq<Arg>, i: nat): Spec {
    var w := Value(x.width, args);
    Spec(FlagSet(x.flags).(left := '-' in x.flags || w < 0), Abs(w) % UINT, 0, Int, i, After(x.width, args))
  }

  lemma ReadsWidth(fmt: string, i: nat, x: Fields, args: seq<Arg>)
    requires WellFormed(x) && Placed(fmt, i, x) && Cut(fmt, i, x) && EndAt(x, i) < |fmt|
    ensures var (f, k) := FlagsFrom(fmt, i + 1, NO_FLAGS); WidthFrom(fmt, k, f, args) == ReadWidth(x, args, DotAt(x, i))
  {
    hide FlagsFrom, WidthFrom, IsFlag, IsDigit, Value, CountOk, TextAt;
    FlagsRead(fmt, i + 1, x.flags, NO_FLAGS);
    WidthRead(fmt, WidthAt(x, i), AddFlags(NO_FLAGS, x.flags), x.width, args);
  }

  lemma ReadsRest(fmt: string, i: nat, x: Fields, args: seq<Arg>)
    requires WellFormed(x) && Placed(fmt, i, x) && Cut(fmt, i, x) && EndAt(x, i) < |fmt|
    ensures var s := PrecisionFrom(fmt, ReadWidth(x, args, DotAt(x, i)));
            s.Spec? && LengthFrom(fmt, s) == Read(x, args, EndAt(x, i))
  {
    hide PrecisionFrom, LengthFrom, IsDigit, IsFlag, LengthLetter, LengthOf, At, Value, CountOk, TextAt, FlagSet;
    var s := ReadWidth(x, args, DotAt(x, i));
    NoPrecision(x.flags);
    PrecisionRead(fmt, s, x.dot, x.precision);
    LengthRead(fmt, PrecisionFrom(fmt, s), x.length);
  }

  lemma NoPrecision(s: string)
    ensures !FlagSet(s).precision
  {
  }

  lemma ReadsPlaced(fmt: string, i: nat, x: Fields, args: seq<Arg>)
    requires WellFormed(x) && Placed(fmt, i, x) && Cut(fmt, i, x) && EndAt(x, i) < |fmt|
    ensures SpecFrom(fmt, i, args) == Read(x, args, EndAt(x, i))
  {
    hide FlagsFrom, WidthFrom, PrecisionFrom, LengthFrom, Cut, Placed, WellFormed, Value;
    ReadsWidth(fmt, i, x, args);
    ReadsRest(fmt, i, x, args);
  }

  lemma CutByEnd(fmt: string, i: nat, x: Fields)
    requires WellFormed(x) && Placed(fmt, i, x) && EndAt(x, i) < |fmt| && Ends(fmt[EndAt(x, i)])
    ensures Cut(fmt, i, x)
  {
    var w, d, l, e := WidthAt(x, i), DotAt(x, i), LengthAt(x, i), EndAt(x, i);
    var dot := WriteDot(x.dot) + WriteCount(x.precision);
    LengthStart(fmt, i, x);
    DotStart(fmt, i, x);
    if |WriteCount(x.width)| > 0 { assert fmt[w] == fmt[w..d][0] == WriteCount(x.width)[0]; }
    if x.dot && |dot| > 1 { assert fmt[d + 1] == fmt[d..l][1] == dot[1]; }
  }

  lemma LengthStart(fmt: string, i: nat, x: Fields)
    requires WellFormed(x) && Placed(fmt, i, x) && EndAt(x, i) < |fmt| && Ends(fmt[EndAt(x, i)])
    ensures var c := At(fmt, LengthAt(x, i));
        !IsFlag(c) && !IsDigit(c) && c != '*' && c != '.' && (x.length == "" ==> !LengthLetter(c))
    ensures x.length == "l" || x.length == "h" ==> At(fmt, LengthAt(x, i) + 1) != x.length[0]
  {
    var l := LengthAt(x, i);
    if |x.length| > 0 { assert fmt[l] == fmt[l..l + |x.length|][0] == x.length[0]; }
  }

  lemma DotStart(fmt: string, i: nat, x: Fields)
    requires WellFormed(x) && Placed(fmt, i, x) && EndAt(x, i) < |fmt| && Ends(fmt[EndAt(x, i)])
    ensures var c := At(fmt, DotAt(x, i)); !IsFlag(c) && !IsDigit(c) && c != '*' && (!x.dot ==> c != '.')
  {
    var d, l := DotAt(x, i), LengthAt(x, i);
    LengthStart(fmt, i, x);
    if x.dot { assert fmt[d] == fmt[d..l][0] == '.'; }
  }

  /** A specification that is written out is read back part by part, up to the final character. */
  lemma ReadsBack(fmt: string, i: nat, x: Fields, args: seq<Arg>)
    requires WellFormed(x) && TextAt(fmt, i + 1, Write(x))
    requires var e := i + 1 + |Write(x)|; e < |fmt| && Ends(fmt[e])
    ensures SpecFrom(fmt, i, args) == Read(x, args, i + 1 + |Write(x)|)
  {
    hide SpecFrom, Read, Write;
    WrittenPlaced(fmt, i, x);
    CutByEnd(fmt, i, x);
    ReadsPlaced(fmt, i, x, args);
  }

  // ---- everything that is read was written ----

  lemma {:induction false} FlagsSpan(fmt: string, k: nat, f: Flags)
    requires k <= |fmt|
    ensures var e := FlagsFrom(fmt, k, f).1; e <= |fmt| && AllFlags(fmt[k..e]) && !IsFlag(At(fmt, e))
    decreases |fmt| - k
  {
    if k < |fmt| && IsFlag(fmt[k]) {
      FlagsSpan(fmt, k + 1, WithFlag(fmt[k], f));
      var e := FlagsFrom(fmt, k, f).1;
      assert fmt[k..e] == [fmt[k]] + fmt[k + 1..e];
    }
  }

  lemma {:induction false} NumberSpan(fmt: string, k: nat, n: nat)
    requires k <= |fmt|
    ensures var e := NumberFrom(fmt, k, n).1; e <= |fmt| && AllDigits(fmt[k..e]) && !IsDigit(At(fmt, e))
    decreases |fmt| - k
  {
    if k < |fmt| && IsDigit(fmt[k]) {
      NumberSpan(fmt, k + 1, (n * 10 + (fmt[k] as int - '0' as int)) % UINT);
      var e := NumberFrom(fmt, k, n).1;
      assert fmt[k..e] == [fmt[k]] + fmt[k + 1..e];
    }
  }

  lemma CountHere(fmt: string, k: nat) returns (c: Count)
    requires k <= |fmt|
    ensures CountOk(c) && TextAt(fmt, k, WriteCount(c)) && (c.Absent? ==> At(fmt, k) != '*' && !IsDigit(At(fmt, k)))
    ensures c.Number? ==> !IsDigit(At(fmt, k + |WriteCount(c)|)) && c.digits[0] == At(fmt, k)
  {
    if IsDigit(At(fmt, k)) {
      NumberSpan(fmt, k, 0);
      var e := NumberFrom(fmt, k, 0).1;
      c := Number(fmt[k..e]);
      DigitHere(fmt, k);
    } else if At(fmt, k) == '*' {
      c := Star;
    } else {
      c := Absent;
    }
  }

  lemma DigitHere(fmt: string, k: nat)
    requires k < |fmt| && IsDigit(fmt[k])
    ensures NumberFrom(fmt, k, 0).1 > k
  {
    assert NumberFrom(fmt, k, 0).1 == NumberFrom(fmt, k + 1, (0 * 10 + (fmt[k] as int - '0' as int)) % UINT).1;
  }

  lemma LengthHere(fmt: string, k: nat) returns (t: string)
    requires k <= |fmt|
    ensures t in LENGTHS && TextAt(fmt, k, t) && (t == "" ==> !LengthLetter(At(fmt, k)))
    ensures t == "l" || t == "h" ==> At(fmt, k + 1) != t[0]
  {
    var c := At(fmt, k);
    if !LengthLetter(c) {
      t := "";
    } else if (c == 'l' || c == 'h') && At(fmt, k + 1) == c {
      t := [c, c];
      assert fmt[k..k + 2] == t && t in LENGTHS;
    } else {
      t := [c];
      assert fmt[k..k + 1] == t && t in LENGTHS;
    }
  }

  lemma FlagsHere(fmt: string, k: nat) returns (t: string)
    requires k <= |fmt|
    ensures AllFlags(t) && TextAt(fmt, k, t) && !IsFlag(At(fmt, k + |t|))
  {
    FlagsSpan(fmt, k, NO_FLAGS);
    t := fmt[k..FlagsFrom(fmt, k, NO_FLAGS).1];
  }

  lemma PrecisionHere(fmt: string, d: nat) returns (dot: bool, c: Count)
    requires d <= |fmt|
    ensures CountOk(c) && (!dot ==> c.Absent? && At(fmt, d) != '.') && TextAt(fmt, d, WriteDot(dot) + WriteCount(c))
    ensures c.Number? ==> !IsDigit(At(fmt, d + |WriteDot(dot) + WriteCount(c)|))
    ensures dot && c.Absent? ==> At(fmt, d + 1) != '*' && !IsDigit(At(fmt, d + 1))
  {
    hide IsDigit;
    dot, c := At(fmt, d) == '.', Absent;
    if dot { c := CountHere(fmt, d + 1); }
    DotHere(fmt, d, dot, c);
  }

  lemma FieldsHere(fmt: string, i: nat) returns (x: Fields)
    requires i < |fmt|
    ensures WellFormed(x) && Placed(fmt, i, x) && Cut(fmt, i, x) && EndAt(x, i) <= |fmt|
  {
    hide IsFlag, IsDigit, CountOk, AllFlags, TextAt, WriteCount, WriteDot, LengthLetter;
    var flags := FlagsHere(fmt, i + 1);
    var w := i + 1 + |flags|;
    TextEnds(fmt, i + 1, flags);
    var width := CountHere(fmt, w);
    var d := w + |WriteCount(width)|;
    TextEnds(fmt, w, WriteCount(width));
    var dot, precision := PrecisionHere(fmt, d);
    var l := d + |WriteDot(dot) + WriteCount(precision)|;
    TextEnds(fmt, d, WriteDot(dot) + WriteCount(precision));
    var length := LengthHere(fmt, l);
    TextEnds(fmt, l, length);
    x := Fields(flags, width, dot, precision, length);
    NoZero(fmt, w, width);
  }

  lemma TextEnds(fmt: string, k: nat, t: string)
    requires TextAt(fmt, k, t)
    ensures k + |t| <= |fmt|
  {
  }

  lemma DotHere(fmt: string, d: nat, dot: bool, c: Count)
    requires d <= |fmt| && dot == (At(fmt, d) == '.') && (!dot ==> c.Absent?)
    requires (dot ==> TextAt(fmt, d + 1, WriteCount(c)))
    ensures CountOk(Absent) && TextAt(fmt, d, WriteDot(dot) + WriteCount(c))
  {
    if dot { TextJoin(fmt, d, ".", WriteCount(c)); }
  }

  lemma NoZero(fmt: string, k: nat, c: Count)
    requires CountOk(c) && !IsFlag(At(fmt, k)) && (c.Number? ==> c.digits[0] == At(fmt, k))
    ensures c.Number? ==> |c.digits| > 0 && c.digits[0] != '0'
  {
  }

  /** A specification that reaches the end of the format is none. */
  lemma NoEnd(fmt: string, i: nat, x: Fields, args: seq<Arg>)
    requires WellFormed(x) && Placed(fmt, i, x) && Cut(fmt, i, x) && EndAt(x, i) == |fmt|
    ensures SpecFrom(fmt, i, args).End?
  {
    hide FlagsFrom, WidthFrom, PrecisionFrom, LengthFrom, IsFlag, IsDigit, Value, CountOk, NumberFrom, TextAt;
    FlagsRead(fmt, i + 1, x.flags, NO_FLAGS);
    var f, w := AddFlags(NO_FLAGS, x.flags), WidthAt(x, i);
    if x.width.Star? && DotAt(x, i) == |fmt| {
      StarHere(fmt, w, f, args);
    } else {
      WidthRead(fmt, w, f, x.width, args);
      NoEndAfterWidth(fmt, i, x, WidthFrom(fmt, w, f, args));
    }
  }

  lemma StarHere(fmt: string, k: nat, f: Flags, args: seq<Arg>)
    requires TextAt(fmt, k, "*") && k + 1 == |fmt|
    ensures WidthFrom(fmt, k, f, args).End?
  {
    assert fmt[k] == fmt[k..k + 1][0];
  }

  lemma NoEndAfterWidth(fmt: string, i: nat, x: Fields, s: Spec)
    requires WellFormed(x) && Placed(fmt, i, x) && Cut(fmt, i, x) && EndAt(x, i) == |fmt|
    requires s.Spec? && s.i == DotAt(x, i) && s.precision == 0 && !s.f.precision && s.length == Int
    ensures var t := PrecisionFrom(fmt, s); t.Spec? ==> LengthFrom(fmt, t).Spec? ==> LengthFrom(fmt, t).i >= |fmt|
  {
    hide IsDigit, Value, CountOk, NumberFrom, LengthFrom;
    var text := WriteDot(x.dot) + WriteCount(x.precision);
    if x.dot {
      TextSplit(fmt, s.i, ".", WriteCount(x.precision));
      assert fmt[s.i] == fmt[s.i..s.i + 1][0];
    }
    if x.dot && s.i + 1 == |fmt| {
    } else if x.precision.Star? && s.i + 2 == |fmt| {
      assert fmt[s.i + 1] == fmt[s.i + 1..s.i + 2][0];
      StarNotDigit();
    } else {
      PrecisionRead(fmt, s, x.dot, x.precision);
      LengthAtEnd(fmt, PrecisionFrom(fmt, s), x.length);
    }
  }

  lemma StarNotDigit()
    ensures !IsDigit('*')
  {
  }

  lemma LengthAtEnd(fmt: string, s: Spec, t: string)
    requires s.Spec? && t in LENGTHS && TextAt(fmt, s.i, t) && s.i + |t| == |fmt|
    requires (t == "l" || t == "h" ==> At(fmt, s.i + 1) != t[0])
    ensures LengthFrom(fmt, s).Spec? ==> LengthFrom(fmt, s).i >= |fmt|
  {
    if |t| > 0 { assert fmt[s.i] == fmt[s.i..s.i + |t|][0] == t[0]; }
    if |t| > 1 { assert fmt[s.i + 1] == fmt[s.i..s.i + |t|][1] == t[1]; }
  }

  /** Whatever the format loop takes for a specification is one that could have been written, and it is read as such. */
  lemma WrittenSomehow(fmt: string, i: nat, args: seq<Arg>) returns (x: Fields)
    requires SpecFrom(fmt, i, args).Spec?
    ensures WellFormed(x) && fmt[i + 1..SpecFrom(fmt, i, args).i] == Write(x)
    ensures SpecFrom(fmt, i, args) == Read(x, args, SpecFrom(fmt, i, args).i)
  {
    hide SpecFrom, Write, WellFormed, Placed, Cut;
    SpecInside(fmt, i, args);
    x := FieldsHere(fmt, i);
    if EndAt(x, i) == |fmt| { NoEnd(fmt, i, x, args); }
    ReadsPlaced(fmt, i, x, args);
    PlacedWritten(fmt, i, x);
    EndOf(x, args, EndAt(x, i));
  }

  lemma EndOf(x: Fields, args: seq<Arg>, i: nat)
    ensures Read(x, args, i).i == i
  {
  }

  // ---- the integer conversions against C11 ----

  predicate IsSigned(c: char) { c == 'd' || c == 'i' }

  function LetterBase(c: char): nat {
    match c
    case 'x' => 16
    case 'X' => 16
    case 'o' => 8
    case 'b' => 2
    case _ => 10
  }

  function BitsOf(l: Length): nat {
    match l
    case Char => 8
    case Short => 16
    case Int => 32
    case Long => 64
    case LongLong => 64
  }

  /** The value of the argument as an integer of the length given, in two's complement if it is signed. */
  function ValueOf(c: char, m: Meaning): int {
    var n := Pow2(BitsOf(m.length));
    Wrap(NumOf(m.args), n, if IsSigned(c) then -(n / 2) else 0)
  }

  /** + and space are for signed conversions, # is for the others but u, and a precision overrules 0. */
  function C11Flags(c: char, f: Flags): Flags {
    Flags(f.zeropad && !f.precision, f.left, IsSigned(c) && f.plus, IsSigned(c) && f.space,
          !IsSigned(c) && c != 'u' && f.hash, c == 'X', f.precision, f.pointer)
  }

  lemma Widths()
    ensures Pow2(8) == 0x100 && Pow2(16) == 0x1_0000 && Pow2(32) == 0x1_0000_0000 && Pow2(64) == WORD
    ensures Pow2(7) == 0x80 && Pow2(15) == 0x8000 && Pow2(31) == 0x8000_0000 && Pow2(63) == 0x8000_0000_0000_0000
  {
    Pow2Values();
    Pow2Add(16, 15);
    Pow2Add(16, 16);
  }

  /** The code goes by the same letters, widths and flags. */
  lemma SameConversion(c: char, m: Meaning, f: Flags)
    requires IsInteger(c)
    ensures BaseOf(c) == LetterBase(c) && IntegerFlags(c, f) == C11Flags(c, f)
    ensures m.length != LongLong ==>
              ValueOf(c, m) == if IsSigned(c) then SignedArg(NumOf(m.args), m.length)
                               else UnsignedArg(NumOf(m.args), m.length)
  {
    hide Wrap, NumOf, Pow2;
    Widths();
  }

  /** The text C11 asks for. The conversion b is an extension. */
  function C11Out(c: char, x: Fields, args: seq<Arg>): seq<char> {
    var m := C11(x, args);
    var v := ValueOf(c, m);
    Standard(Abs(v), v < 0, LetterBase(c), m.precision, m.width, C11Flags(c, m.f))
  }

  predicate NegativePrecision(x: Fields, args: seq<Arg>) { x.precision.Star? && StarOf(After(x.width, args)) < 0 }

  /**
    When the output is right. For ll, which is not supported, only if there is nothing to put out. Else the numbers have
    to be below 2^32 and the field exact; with a negative precision, read as zero, the numeral must not be that of 0 and
    no padding with zeros may be due.
   */
  predicate Right(c: char, x: Fields, args: seq<Arg>) {
    var m := C11(x, args);
    var f, v, base := C11Flags(c, m.f), ValueOf(c, m), LetterBase(c);
    var taken := Taken(Abs(v), v < 0, base, m.precision, f);
    if m.length == LongLong then m.width == 0 && taken == 0
    else
      && m.width < UINT && m.precision < UINT
      && if NegativePrecision(x, args) then
           && Exact(Abs(v), v < 0, base, 0, m.width, AsZero(f)) && (v != 0 || (base == 8 && f.hash))
           && !(f.zeropad && !f.left && m.width > taken)
         else Exact(Abs(v), v < 0, base, m.precision, m.width, f)
  }

  /**
    Every integer conversion, with any flags, width, precision and length, puts out what C11 asks for if and only if it
    is right.
   */
  lemma ConversionIff(c: char, x: Fields, args: seq<Arg>, i: nat)
    requires WellFormed(x) && IsInteger(c)
    ensures IntegerOut(c, Read(x, args, i)) == C11Out(c, x, args) <==> Right(c, x, args)
  {
    hide IntegerOut, Standard, Exact, Taken, ValueOf;
    var m := C11(x, args);
    var v := ValueOf(c, m);
    if m.length == LongLong {
      NothingDue(Abs(v), v < 0, LetterBase(c), m.precision, m.width, C11Flags(c, m.f));
      SilentOut(c, x, args, i);
    } else if m.width >= UINT || m.precision >= UINT {
      BigIff(c, x, args, i);
    } else {
      SmallIff(c, x, args, i);
    }
  }

  lemma SilentOut(c: char, x: Fields, args: seq<Arg>, i: nat)
    requires C11(x, args).length == LongLong
    ensures IntegerOut(c, Read(x, args, i)) == []
  {
  }

  lemma BigIff(c: char, x: Fields, args: seq<Arg>, i: nat)
    requires IsInteger(c) && C11(x, args).length != LongLong
    requires (C11(x, args).width >= UINT || C11(x, args).precision >= UINT)
    ensures IntegerOut(c, Read(x, args, i)) != C11Out(c, x, args)
  {
    hide Text, Standard, C11, Read, IntegerOut, ValueOf;
    var m, s := C11(x, args), Read(x, args, i);
    var v := ValueOf(c, m);
    ReadArg(c, x, args, i);
    var f, g := C11Flags(c, m.f), C11Flags(c, s.f);
    TooBig(Abs(v), v < 0, LetterBase(c), s.precision, s.width, g, m.precision, m.width, f);
  }

  lemma SmallIff(c: char, x: Fields, args: seq<Arg>, i: nat)
    requires WellFormed(x) && IsInteger(c) && C11(x, args).length != LongLong && C11(x, args).width < UINT
    requires C11(x, args).precision < UINT
    ensures IntegerOut(c, Read(x, args, i)) == C11Out(c, x, args) <==> Right(c, x, args)
  {
    hide Text, Standard, Exact, Taken, C11, Read, IntegerOut, ValueOf, NegativePrecision, C11Flags, Asked, AsZero,
         Sign, LetterBase;
    var m, s := C11(x, args), Read(x, args, i);
    var f, v := C11Flags(c, m.f), ValueOf(c, m);
    ReadArg(c, x, args, i);
    SmallNumbers(x, args, i);
    PlainFlags(x, args);
    GoesOn(c, Abs(v), m.precision, m.f);
    if NegativePrecision(x, args) {
      OmittedIff(Abs(v), v < 0, LetterBase(c), m.width, f);
    } else {
      TextIsStandardIff(Abs(v), v < 0, LetterBase(c), m.precision, m.width, f);
    }
  }

  lemma GoesOn(c: char, value: nat, precision: nat, f: Flags)
    requires IsInteger(c) && !f.pointer && (!f.precision ==> precision == 0)
    ensures var g := C11Flags(c, f);
            && 2 <= LetterBase(c) <= 36 && Asked(value, LetterBase(c), precision, g)
            && g.precision == f.precision && !g.pointer
            && (!f.precision ==> C11Flags(c, f.(precision := true)) == AsZero(g))
  {
    hide Asked, AsZero;
    AskedFor(c, value, precision, f);
    ZeroFlags(c, f);
  }

  lemma AskedFor(c: char, value: nat, precision: nat, f: Flags)
    requires IsInteger(c) && !f.pointer && (!f.precision ==> precision == 0)
    ensures Asked(value, LetterBase(c), precision, C11Flags(c, f))
  {
  }

  lemma ZeroFlags(c: char, f: Flags)
    ensures C11Flags(c, f.(precision := true)) == AsZero(C11Flags(c, f))
  {
  }

  lemma PlainFlags(x: Fields, args: seq<Arg>)
    ensures !C11(x, args).f.pointer
  {
  }

  lemma NothingDue(value: nat, negative: bool, base: nat, precision: nat, width: nat, f: Flags)
    requires 2 <= base <= 36
    ensures Standard(value, negative, base, precision, width, f) == [] <==>
        width == 0 && Taken(value, negative, base, precision, f) == 0
  {
    hide Standard, Sign, Prefix, Numeral;
    StandardLength(value, negative, base, precision, width, f);
  }

  /** A width or a precision from 2^32 up is more than the code can put out. */
  lemma TooBig(value: nat, negative: bool, base: nat, p: nat, w: nat, g: Flags, precision: nat, width: nat, f: Flags)
    requires 2 <= base <= 36 && w < UINT && (width >= UINT || (f.precision && precision >= UINT))
    ensures Text(value, negative, base, p, w, g) != Standard(value, negative, base, precision, width, f)
  {
    hide Text, Standard, Sign, Prefix, Numeral;
    TextBound(value, negative, base, p, w, g);
    StandardLength(value, negative, base, precision, width, f);
    if f.precision { NumeralAtLeast(value, base, precision, f); }
  }

  lemma NumeralAtLeast(value: nat, base: nat, precision: nat, f: Flags)
    requires 2 <= base <= 36 && f.precision
    ensures |Numeral(value, base, precision, f)| >= precision
  {
    hide Full, Reverse;
  }

  lemma ReadArg(c: char, x: Fields, args: seq<Arg>, i: nat)
    requires IsInteger(c) && C11(x, args).length != LongLong
    ensures var m, s := C11(x, args), Read(x, args, i);
            var v := ValueOf(c, m);
            && s.Spec? && s.width < UINT && (m.precision > 0 ==> m.f.precision) && (!m.f.precision ==> m.precision == 0)
            && IntegerOut(c, s) == Text(Abs(v), v < 0, LetterBase(c), s.precision, s.width, C11Flags(c, s.f))
  {
    hide Text, Wrap, Value, ValueOf, C11Flags, BaseOf, IntegerFlags;
    SameConversion(c, C11(x, args), Read(x, args, i).f);
  }

  /** With numbers in range, the two readings differ in a negative precision only. */
  lemma SmallNumbers(x: Fields, args: seq<Arg>, i: nat)
    requires WellFormed(x) && C11(x, args).width < UINT && C11(x, args).precision < UINT
    ensures var m, s := C11(x, args), Read(x, args, i);
            && s.width == m.width
            && if NegativePrecision(x, args)
                then !m.f.precision && m.precision == 0 == s.precision && s.f == m.f.(precision := true)
               else s.f == m.f && s.precision == m.precision
  {
    hide Wrap, Parse;
    if x.precision.Number? { ParseNat(x.precision.digits); }
  }

  /** For every format: each integer conversion in it is right, or its output is not what C11 asks for. */
  lemma IntegerConversion(fmt: string, i: nat, args: seq<Arg>) returns (x: Fields)
    requires var s := SpecFrom(fmt, i, args); s.Spec? && IsInteger(fmt[s.i])
    ensures var s := SpecFrom(fmt, i, args);
            var c := fmt[s.i];
            && WellFormed(x) && fmt[i + 1..s.i] == Write(x)
            && (IntegerOut(c, s) == C11Out(c, x, args) <==> Right(c, x, args))
            && ConversionOut(c, s).1 == if x.length == "ll" then s.args else Tail(s.args)
  {
    hide SpecFrom, Write, WellFormed, IntegerOut, C11Out, Right;
    x := WrittenSomehow(fmt, i, args);
    var s := SpecFrom(fmt, i, args);
    ConversionIff(fmt[s.i], x, args, s.i);
    LengthKept(x, args, s.i);
  }

  lemma LengthKept(x: Fields, args: seq<Arg>, i: nat)
    ensures Read(x, args, i).length == LongLong <==> x.length == "ll"
  {
  }

  /** A negative precision does matter: %.*d of 0 with -1 puts out nothing in place of 0. */
  lemma LosesZero()
    ensures var x, args := Fields("", Absent, true, Star, ""), [Num(-1), Num(0)];
            && WellFormed(x) && "%" + Write(x) + "d" == "%.*d" && IntegerOut('d', SpecFrom("%.*d", 0, args)) == []
            && C11Out('d', x, args) == ['0']
  {
    hide Text, Standard, Parse, SpecFrom, ValueOf, Wrap, C11, Read;
    var x, args, fmt := Fields("", Absent, true, Star, ""), [Num(-1), Num(0)], "%.*d";
    assert Write(x) == ".*" == fmt[1..3];
    ReadsBack(fmt, 0, x, args);
    MinusOne();
    ZeroTexts();
  }

  /** What the two readings make of it. */
  lemma MinusOne()
    ensures var x, args := Fields("", Absent, true, Star, ""), [Num(-1), Num(0)];
            && C11(x, args) == Meaning(NO_FLAGS, 0, 0, Int, [Num(0)])
            && Read(x, args, 3) == Spec(NO_FLAGS.(precision := true), 0, 0, Int, 3, [Num(0)]) && SignedArg(0, Int) == 0
    ensures ValueOf('d', Meaning(NO_FLAGS, 0, 0, Int, [Num(0)])) == 0
  {
    var args := [Num(-1), Num(0)];
    assert StarOf(args) == -1 && Tail(args) == [Num(0)];
    SameConversion('d', Meaning(NO_FLAGS, 0, 0, Int, [Num(0)]), NO_FLAGS);
  }

  lemma ZeroTexts()
    ensures var f := NO_FLAGS;
            Standard(0, false, 10, 0, 0, f) == ['0'] && Text(0, false, 10, 0, 0, f.(precision := true)) == []
  {
    var f := NO_FLAGS;
    ZeroParts(10, f);
    TextIsStandard(0, false, 10, 0, 0, AsZero(f));
    EmptySpaces();
    hide Text, Numeral;
    assert Standard(0, false, 10, 0, 0, f) == ['0'];
  }

  /** %lld puts out nothing and leaves its argument to the next conversion. */
  lemma LongLongSilent(v: int)
    ensures var x, args := Fields("", Absent, false, Absent, "ll"), [Num(v)];
            && WellFormed(x) && "%" + Write(x) + "d" == "%lld" && C11Out('d', x, args) != []
            && SpecFrom("%lld", 0, args).Spec? && ConversionOut('d', SpecFrom("%lld", 0, args)) == ([], args)
  {
    hide Standard, Wrap, ValueOf, SpecFrom, Sign, Prefix, Numeral, Text;
    var x, args, fmt := Fields("", Absent, false, Absent, "ll"), [Num(v)], "%lld";
    assert Write(x) == "ll" == fmt[1..3];
    ReadsBack(fmt, 0, x, args);
    var m := C11(x, args);
    var n := ValueOf('d', m);
    NothingDue(Abs(n), n < 0, 10, 0, 0, C11Flags('d', m.f));
    SomeDigit(Abs(n), 10, C11Flags('d', m.f));
  }

  lemma SomeDigit(value: nat, base: nat, f: Flags)
    requires 2 <= base <= 36 && !f.precision
    ensures |Numeral(value, base, 0, f)| > 0
  {
    hide Full, Reverse;
  }

  // ---- strings and characters against C11 ----

  /** How many of n characters a string conversion shows. */
  function Shown(precise: bool, precision: nat, n: nat): (r: nat)
    ensures r <= n
  {
    if precise && precision < n then precision else n
  }

  /** p is t in a field of the given width, at its left or right end, with spaces elsewhere. */
  ghost predicate InField(p: seq<char>, t: seq<char>, width: nat, left: bool) {
    && |p| == Max(width, |t|)
    && if left then p[..|t|] == t && forall i :: |t| <= i < |p| ==> p[i] == ' '
       else p[|p| - |t|..] == t && forall i :: 0 <= i < |p| - |t| ==> p[i] == ' '
  }

  lemma PaddedField(t: seq<char>, width: nat, left: bool)
    ensures InField(Padded(t, width, left), t, width, left)
  {
  }

  /** The text C11 asks for of %s with the string t. */
  function C11String(x: Fields, args: seq<Arg>, t: string): seq<char> {
    var m := C11(x, args);
    Padded(t[..Shown(m.f.precision, m.precision, |t|)], m.width, m.f.left)
  }

  /** Showing a characters of t in a field looks as if b were shown. */
  predicate SameField(t: string, a: nat, b: nat, left: bool)
    requires a <= b <= |t|
  {
    if left then forall i :: a <= i < b ==> t[i] == ' ' else t[..b] == Spaces(b - a) + t[..a]
  }

  /**
    When the output is right: the field has the same length, and all characters due are shown, or those that are not
    look like the padding.
   */
  predicate StringRight(x: Fields, args: seq<Arg>, t: string) {
    var m, s := C11(x, args), Read(x, args, 0);
    var a, b := Shown(s.f.precision, s.precision, |t|), Shown(m.f.precision, m.precision, |t|);
    a <= b && Max(a, s.width) == Max(b, m.width) && (a == b || SameField(t, a, b, m.f.left))
  }

  lemma PaddedIff(t: string, a: nat, b: nat, w: nat, v: nat, left: bool)
    requires a <= b <= |t|
    ensures Padded(t[..a], w, left) == Padded(t[..b], v, left) <==>
            Max(a, w) == Max(b, v) && (a == b || SameField(t, a, b, left))
  {
    var p, q := Padded(t[..a], w, left), Padded(t[..b], v, left);
    assert |p| == Max(a, w) && |q| == Max(b, v);
    if |p| == |q| {
      var n := |p|;
      assert p == if left then t[..a] + Spaces(n - a) else Spaces(n - a) + t[..a];
      assert q == if left then t[..b] + Spaces(n - b) else Spaces(n - b) + t[..b];
      if left {
        PaddedRight(t, a, b, n);
      } else {
        PaddedLeft(t, a, b, n);
      }
    }
  }

  lemma PaddedRight(t: string, a: nat, b: nat, n: nat)
    requires a <= b <= |t| && b <= n
    ensures t[..a] + Spaces(n - a) == t[..b] + Spaces(n - b) <==> SameField(t, a, b, true)
  {
    var p, q := t[..a] + Spaces(n - a), t[..b] + Spaces(n - b);
    if p == q {
      forall i | a <= i < b ensures t[i] == ' ' { assert q[i] == t[i] && p[i] == ' '; }
    }
  }

  lemma PaddedLeft(t: string, a: nat, b: nat, n: nat)
    requires a <= b <= |t| && b <= n
    ensures Spaces(n - a) + t[..a] == Spaces(n - b) + t[..b] <==> SameField(t, a, b, false)
  {
    var p, q, r := Spaces(n - a) + t[..a], Spaces(n - b) + t[..b], Spaces(b - a) + t[..a];
    assert p == Spaces(n - b) + r;
    assert p[n - b..] == r && q[n - b..] == t[..b];
  }

  /** Every string conversion puts out what C11 asks for if and only if it is right. */
  lemma StringIff(x: Fields, args: seq<Arg>, i: nat, t: string)
    requires WellFormed(x) && |C11(x, args).args| > 0 && C11(x, args).args[0] == Str(t)
    ensures ConversionOut('s', Read(x, args, i)).0 == C11String(x, args, t) <==> StringRight(x, args, t)
    ensures var m := C11(x, args);
            InField(C11String(x, args, t), t[..Shown(m.f.precision, m.precision, |t|)], m.width, m.f.left)
  {
    hide Padded, Value, SameField, Spaces, InField;
    var m, s := C11(x, args), Read(x, args, 0);
    var a, b := Shown(s.f.precision, s.precision, |t|), Shown(m.f.precision, m.precision, |t|);
    ShowsLess(x, args, |t|);
    PaddedIff(t, a, b, s.width, m.width, m.f.left);
    PaddedField(t[..b], m.width, m.f.left);
    assert ConversionOut('s', Read(x, args, i)).0 == StringOut(m.args, Read(x, args, i));
    assert t[..|t|] == t;
  }

  lemma ShowsLess(x: Fields, args: seq<Arg>, n: nat)
    requires WellFormed(x)
    ensures var m, s := C11(x, args), Read(x, args, 0);
            Shown(s.f.precision, s.precision, n) <= Shown(m.f.precision, m.precision, n)
  {
    hide Parse, Wrap;
    if x.precision.Number? { ParseNat(x.precision.digits); }
    var p := Value(x.precision, After(x.width, args));
    if p > 0 { Remainder(p); }
  }

  lemma Remainder(p: int)
    requires p > 0
    ensures 0 <= p % UINT <= p
  {
  }

  /** Every character conversion puts out what C11 asks for if and only if the width is below 2^32. */
  lemma CharacterIff(x: Fields, args: seq<Arg>, i: nat)
    ensures var m := C11(x, args);
            InField(ConversionOut('c', Read(x, args, i)).0, [(NumOf(m.args) % 256) as char], m.width, m.f.left)
            <==> m.width < UINT
  {
    hide Value, InField, Padded;
    var m, s := C11(x, args), Read(x, args, i);
    PaddedWidth([(NumOf(m.args) % 256) as char], s.width, m.width, m.f.left);
  }

  lemma PaddedWidth(t: seq<char>, w: nat, v: nat, left: bool)
    ensures InField(Padded(t, w, left), t, v, left) <==> Max(|t|, w) == Max(|t|, v)
  {
  }

  /** The same for every string and character conversion of every format. */
  lemma TextConversion(fmt: string, i: nat, args: seq<Arg>) returns (x: Fields)
    requires SpecFrom(fmt, i, args).Spec?
    ensures var s, m := SpecFrom(fmt, i, args), C11(x, args);
            && WellFormed(x) && fmt[i + 1..s.i] == Write(x)
            && (fmt[s.i] == 'c' ==>
                  (InField(ConversionOut('c', s).0, [(NumOf(s.args) % 256) as char], m.width, m.f.left)
                   <==> m.width < UINT))
            && (fmt[s.i] == 's' && |s.args| > 0 && s.args[0].Str? ==>
                  (ConversionOut('s', s).0 == C11String(x, args, s.args[0].s) <==> StringRight(x, args, s.args[0].s)))
  {
    hide SpecFrom, Write, WellFormed, ConversionOut, C11String, StringRight, InField, Value;
    SpecInside(fmt, i, args);
    x := WrittenSomehow(fmt, i, args);
    var s := SpecFrom(fmt, i, args);
    CharacterIff(x, args, s.i);
    if |s.args| > 0 && s.args[0].Str? { StringIff(x, args, s.i, s.args[0].s); }
  }

  /** A negative precision does matter here too: %.*s of a string with -1 puts out nothing. */
  lemma LosesString(t: string)
    requires t != ""
    ensures var x, args := Fields("", Absent, true, Star, ""), [Num(-1), Str(t)];
            && WellFormed(x) && "%" + Write(x) + "s" == "%.*s" && SpecFrom("%.*s", 0, args).Spec?
            && ConversionOut('s', SpecFrom("%.*s", 0, args)).0 == [] && C11String(x, args, t) == t
  {
    hide Parse, SpecFrom;
    var x, args, fmt := Fields("", Absent, true, Star, ""), [Num(-1), Str(t)], "%.*s";
    assert Write(x) == ".*" == fmt[1..3];
    ReadsBack(fmt, 0, x, args);
    assert StarOf(args) == -1 && Tail(args) == [Str(t)];
    assert t[..|t|] == t && t[..0] == [] && Spaces(0) == [];
  }
}
