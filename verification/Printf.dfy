/** The formatted output routines: the output gadget, the format loop and vsnprintf. */
module Printf {
  import opened Words
  import opened IntegerText

  // ---- what a format means ----

  datatype Arg = Num(v: int) | Str(s: string) | Null

  function NumOf(args: seq<Arg>): int { if |args| > 0 && args[0].Num? then args[0].v else 0 }

  function Tail(args: seq<Arg>): seq<Arg> { if |args| > 0 then args[1..] else [] }

  function At(fmt: string, i: nat): char { if i < |fmt| then fmt[i] else NUL }

  predicate IsDigit(c: char) { '0' <= c <= '9' }

  const NO_FLAGS: Flags := Flags(false, false, false, false, false, false, false, false)

  function WithFlag(c: char, f: Flags): Flags {
    if c == '0' then f.(zeropad := true) else if c == '-' then f.(left := true) else if c == '+' then f.(plus := true)
    else if c == ' ' then f.(space := true) else f.(hash := true)
  }

  predicate IsFlag(c: char) { c == '0' || c == '-' || c == '+' || c == ' ' || c == '#' }

  /** The flags from i on, and where they end. */
  function FlagsFrom(fmt: string, i: nat, f: Flags): (r: (Flags, nat))
    ensures i <= r.1
    decreases |fmt| - i
  {
    if i < |fmt| && IsFlag(fmt[i]) then FlagsFrom(fmt, i + 1, WithFlag(fmt[i], f)) else (f, i)
  }

  const UINT: int := 0x1_0000_0000

  /** The decimal number from i on, in 32 bits, and where it ends. */
  function NumberFrom(fmt: string, i: nat, n: nat): (r: (nat, nat))
    ensures i <= r.1
    decreases |fmt| - i
  {
    if i < |fmt| && IsDigit(fmt[i]) then NumberFrom(fmt, i + 1, (n * 10 + (fmt[i] as int - '0' as int)) % UINT)
    else (n, i)
  }

  /** How an integer argument is to be read. */
  datatype Length = Int | Char | Short | Long | LongLong

  /** A conversion specification up to its final character, or the end of the format. */
  datatype Spec = End | Spec(f: Flags, width: nat, precision: nat, length: Length, i: nat, args: seq<Arg>)

  function Abs(n: int): nat { if n < 0 then -n else n }

  /** v as a value of the given number of values, from lo up. */
  function Wrap(v: int, count: int, lo: int): int
    requires count > 0
  {
    (v - lo) % count + lo
  }

  /** The int that a * takes from the arguments. */
  function StarOf(args: seq<Arg>): int { Wrap(NumOf(args), UINT, -0x8000_0000) }

  function WidthFrom(fmt: string, i: nat, f: Flags, args: seq<Arg>): (s: Spec)
    ensures s.Spec? ==> i <= s.i
  {
    if IsDigit(At(fmt, i)) then
      var (w, k) := NumberFrom(fmt, i, 0);
      Spec(f, w, 0, Int, k, args)
    else if At(fmt, i) == '*' then
      var w := StarOf(args);
      if i + 1 >= |fmt| then End else Spec(if w < 0 then f.(left := true) else f, Abs(w), 0, Int, i + 1, Tail(args))
    else Spec(f, 0, 0, Int, i, args)
  }

  function PrecisionFrom(fmt: string, s: Spec): (r: Spec)
    requires s.Spec?
    ensures r.Spec? ==> s.i <= r.i
  {
    if At(fmt, s.i) != '.' then s
    else if s.i + 1 >= |fmt| then End
    else
      var t := s.(f := s.f.(precision := true), i := s.i + 1);
      if IsDigit(At(fmt, t.i)) then
        var (p, k) := NumberFrom(fmt, t.i, 0);
        t.(precision := p, i := k)
      else if At(fmt, t.i) == '*' then
        if t.i + 1 >= |fmt| then End
        else t.(precision := if StarOf(s.args) > 0 then StarOf(s.args) else 0, i := t.i + 1, args := Tail(s.args))
      else t
  }

  function LengthFrom(fmt: string, s: Spec): (r: Spec)
    requires s.Spec?
    ensures r.Spec? ==> s.i <= r.i
  {
    var c := At(fmt, s.i);
    if c != 'l' && c != 'h' && c != 't' && c != 'j' && c != 'z' then s
    else if s.i + 1 >= |fmt| then End
    else if c == 'l' && At(fmt, s.i + 1) == 'l' then
      (if s.i + 2 >= |fmt| then End else s.(length := LongLong, i := s.i + 2))
    else if c == 'h' && At(fmt, s.i + 1) == 'h' then
      (if s.i + 2 >= |fmt| then End else s.(length := Char, i := s.i + 2))
    else s.(length := if c == 'h' then Short else Long, i := s.i + 1)
  }

  /** The specification whose % is at i. A format that ends inside it ends the output. */
  function SpecFrom(fmt: string, i: nat, args: seq<Arg>): (r: Spec)
    ensures r.Spec? ==> i < r.i < |fmt|
  {
    if i + 1 >= |fmt| then End
    else
      var (f, k) := FlagsFrom(fmt, i + 1, NO_FLAGS);
      var s := WidthFrom(fmt, k, f, args);
      if s.End? then End
      else
        var t := PrecisionFrom(fmt, s);
        if t.End? then End
        else
          var r := LengthFrom(fmt, t);
          if r.Spec? && r.i < |fmt| then r else End
  }

  predicate IsInteger(c: char) { c == 'd' || c == 'i' || c == 'u' || c == 'x' || c == 'X' || c == 'o' || c == 'b' }

  function SignedArg(v: int, l: Length): int {
    match l
    case Char => Wrap(v, 0x100, -0x80)
    case Short => Wrap(v, 0x1_0000, -0x8000)
    case Long => Wrap(v, 0x1_0000_0000_0000_0000, -0x8000_0000_0000_0000)
    case _ => Wrap(v, 0x1_0000_0000, -0x8000_0000)
  }

  function UnsignedArg(v: int, l: Length): nat {
    match l
    case Char => Wrap(v, 0x100, 0)
    case Short => Wrap(v, 0x1_0000, 0)
    case Long => Wrap(v, 0x1_0000_0000_0000_0000, 0)
    case _ => Wrap(v, 0x1_0000_0000, 0)
  }

  function BaseOf(c: char): nat {
    if c == 'x' || c == 'X' then 16 else if c == 'o' then 8 else if c == 'b' then 2 else 10
  }

  /** The flags an integer conversion goes on with. */
  function IntegerFlags(c: char, f: Flags): Flags {
    var g := f.(hash := f.hash && BaseOf(c) != 10, upper := c == 'X', zeropad := f.zeropad && !f.precision);
    if c == 'd' || c == 'i' then g else g.(plus := false, space := false)
  }

  /** The text of an integer conversion; long long is not supported and gives nothing. */
  function IntegerOut(c: char, s: Spec): seq<char>
    requires s.Spec?
  {
    if s.length == LongLong then []
    else if c == 'd' || c == 'i' then
      var v := SignedArg(NumOf(s.args), s.length);
      Text(Abs(v), v < 0, 10, s.precision, s.width, IntegerFlags(c, s.f))
    else Text(UnsignedArg(NumOf(s.args), s.length), false, BaseOf(c), s.precision, s.width, IntegerFlags(c, s.f))
  }

  function Padded(t: seq<char>, width: nat, left: bool): seq<char> {
    if left then t + Spaces(Sub(width, |t|)) else Spaces(Sub(width, |t|)) + t
  }

  function CharArg(v: int): char { (v % 256) as char }

  function StringOut(a: seq<Arg>, s: Spec): seq<char>
    requires s.Spec?
  {
    if |a| > 0 && a[0].Str? then
      var t := a[0].s;
      Padded(if s.f.precision then t[..Min(|t|, s.precision)] else t, s.width, s.f.left)
    else OutRev(")llun(", s.width, s.f)
  }

  const PTR_WIDTH: nat := 18

  function PointerOut(v: int, s: Spec): seq<char>
    requires s.Spec?
  {
    var f := s.f.(zeropad := true, pointer := true);
    var n := UnsignedArg(v, Long);
    if n == 0 then OutRev(")lin(", PTR_WIDTH, f) else Text(n, false, 16, s.precision, PTR_WIDTH, f)
  }

  /** The text of one conversion with final character c, and the arguments left. */
  function ConversionOut(c: char, s: Spec): (seq<char>, seq<Arg>)
    requires s.Spec?
  {
    if IsInteger(c) then (IntegerOut(c, s), if s.length == LongLong then s.args else Tail(s.args))
    else if c == 'c' then (Padded([CharArg(NumOf(s.args))], s.width, s.f.left), Tail(s.args))
    else if c == 's' then (StringOut(s.args, s), Tail(s.args))
    else if c == 'p' then (PointerOut(NumOf(s.args), s), Tail(s.args))
    else if c == 'n' then ([], Tail(s.args))
    else ([c], s.args)
  }

  /** Everything the format puts out from i on. */
  function Render(fmt: string, i: nat, args: seq<Arg>): seq<char>
    decreases |fmt| - i
  {
    if i >= |fmt| then []
    else if fmt[i] != '%' then [fmt[i]] + Render(fmt, i + 1, args)
    else
      var s := SpecFrom(fmt, i, args);
      if s.End? then []
      else
        var (text, rest) := ConversionOut(fmt[s.i], s);
        text + Render(fmt, s.i + 1, rest)
  }

  // ---- the gadget ----

  /** output_gadget_t over a buffer: it counts everything and stores what fits. */
  class Gadget {
    const buffer: array<char>
    const max: nat
    var pos: nat
    ghost var out: seq<char>
    ghost const before: seq<char>

    /** The first characters put out are in the buffer, nothing else in it has changed. */
    ghost predicate Valid()
      reads this, buffer
    {
      && max <= buffer.Length && pos == |out| && |before| == buffer.Length
      && (forall i :: 0 <= i < pos && i < max ==> buffer[i] == out[i])
      && (forall i :: 0 <= i < buffer.Length && (i >= pos || i >= max) ==> buffer[i] == before[i])
    }

    constructor (b: array<char>, n: nat)
      requires n <= b.Length
      ensures Valid() && buffer == b && max == n && out == [] && before == b[..] && pos == 0
    {
      buffer, max, pos, out, before := b, n, 0, [], b[..];
    }

    /** putchar_via_gadget */
    method Put(c: char)
      requires Valid()
      modifies this, buffer
      ensures Valid() && out == old(out) + [c]
    {
      var writePos := pos;
      pos := pos + 1;
      out := out + [c];
      if writePos >= max {
        return;
      }
      buffer[writePos] := c;
    }

    method PutSpaces(n: nat)
      requires Valid()
      modifies this, buffer
      ensures Valid() && out == old(out) + Spaces(n)
    {
      assert out == out + Spaces(0);
      for i := 0 to n
        invariant Valid() && out == old(out) + Spaces(i)
      {
        Put(' ');
        assert Spaces(i + 1) == Spaces(i) + [' '];
      }
    }

    method PutAll(s: seq<char>)
      requires Valid()
      modifies this, buffer
      ensures Valid() && out == old(out) + s
    {
      assert out == out + s[..0];
      for i := 0 to |s|
        invariant Valid() && out == old(out) + s[..i]
      {
        Put(s[i]);
        assert s[..i + 1] == s[..i] + [s[i]];
      }
      assert s[..|s|] == s;
    }

    /** out_rev_ */
    method PutReversed(b: seq<char>, width: nat, f: Flags)
      requires Valid()
      modifies this, buffer
      ensures Valid() && out == old(out) + OutRev(b, width, f)
    {
      hide Reverse;
      ghost var start := out;
      var startPos := pos;
      ghost var lead: seq<char> := [];
      if !f.left && !f.zeropad {
        PutSpaces(if width > |b| then width - |b| else 0);
        lead := Spaces(Sub(width, |b|));
      }
      var len := |b|;
      assert b[len..] == [] && Reverse([]) == [] by { EmptyReversed(); }
      while len > 0
        invariant 0 <= len <= |b| && Valid() && out == start + lead + Reverse(b[len..])
      {
        len := len - 1;
        assert b[len..] == [b[len]] + b[len + 1..];
        ReverseConcat([b[len]], b[len + 1..]);
        One(b[len]);
        Put(b[len]);
      }
      assert b[0..] == b;
      ReverseLength(b);
      if f.left {
        ghost var k := 0;
        assert out == start + Reverse(b) + Spaces(0);
        while pos - startPos < width
          invariant Valid() && k == |out| - |start| - |b| && k >= 0 && out == start + Reverse(b) + Spaces(k)
          invariant (k > 0 ==> |b| + k <= width)
          decreases width - k
        {
          Put(' ');
          assert Spaces(k + 1) == Spaces(k) + [' '];
          k := k + 1;
        }
        assert k == Sub(width, |b|);
      }
    }
  }

  // ---- integers ----

  /** Appends zeros up to a length, as far as the buffer goes. */
  method PadZeros(buf: array<char>, len0: nat, n: nat) returns (len: nat)
    requires buf.Length == SIZE && len0 <= SIZE
    modifies buf
    ensures len == PadTo(len0, n) <= SIZE && buf[..len] == old(buf[..len0]) + Rep('0', len - len0)
  {
    len := len0;
    assert buf[..len] == old(buf[..len0]) + Rep('0', 0);
    while len < n && len < SIZE
      invariant len0 <= len <= SIZE && (len > len0 ==> len <= n)
      invariant buf[..len] == old(buf[..len0]) + Rep('0', len - len0)
    {
      buf[len] := '0';
      assert buf[..len + 1] == buf[..len] + ['0'];
      assert Rep('0', len + 1 - len0) == Rep('0', len - len0) + ['0'];
      len := len + 1;
    }
  }

  method Append(buf: array<char>, len0: nat, c: char) returns (len: nat)
    requires buf.Length == SIZE && len0 <= SIZE
    modifies buf
    ensures len <= SIZE && buf[..len] == old(buf[..len0]) + if len0 < SIZE then [c] else []
  {
    len := len0;
    if len < SIZE {
      buf[len] := c;
      len := len + 1;
      assert buf[..len] == old(buf[..len0]) + [c];
    } else {
      assert buf[..len] == old(buf[..len0]) + [];
    }
  }

  lemma LowEnds(v: nat, base: nat, upper: bool, n: nat)
    requires 2 <= base <= 36 && (v == 0 || n == 0)
    ensures Low(v, base, upper, n) == []
  {
  }

  lemma LowStep(done: seq<char>, v: nat, base: nat, upper: bool, n: nat, all: seq<char>)
    requires 2 <= base <= 36 && v > 0 && n > 0 && done + Low(v, base, upper, n) == all
    ensures 0 <= v / base && 0 <= v % base < 36
    ensures (done + [Digit(v % base, upper)]) + Low(v / base, base, upper, n - 1) == all
  {
    hide Digit;
    var digit, more := Digit(v % base, upper), Low(v / base, base, upper, n - 1);
    assert done + ([digit] + more) == (done + [digit]) + more;
  }

  /** The digit loop of print_integer. */
  method StoreDigits(buf: array<char>, value: nat, base: nat, f: Flags) returns (len: nat)
    requires buf.Length == SIZE && 2 <= base <= 36
    modifies buf
    ensures len <= SIZE && buf[..len] == Stored(value, base, f)
  {
    hide Digit, Low;
    len := 0;
    if value == 0 {
      if !f.precision {
        buf[0] := '0';
        len := 1;
        assert buf[..1] == ['0'];
      }
    } else {
      ghost var all := Low(value, base, f.upper, SIZE);
      var v: nat := value;
      assert buf[..0] + all == all;
      while v > 0 && len < SIZE
        invariant len <= SIZE && buf[..len] + Low(v, base, f.upper, SIZE - len) == all
        decreases SIZE - len
      {
        ghost var done := buf[..len];
        LowStep(done, v, base, f.upper, SIZE - len, all);
        buf[len] := Digit(v % base, f.upper);
        assert buf[..len + 1] == done + [buf[len]];
        len, v := len + 1, v / base;
      }
      LowEnds(v, base, f.upper, SIZE - len);
    }
  }

  /** The zero padding of print_integer_finalization. */
  method PadInteger(buf: array<char>, len0: nat, width: nat, precision: nat, f: Flags) returns (len: nat)
    requires buf.Length == SIZE && len0 <= SIZE
    modifies buf
    ensures len == Len2(len0, width, precision, f) && len0 <= len <= SIZE
    ensures buf[..len] == old(buf[..len0]) + Rep('0', len - len0)
  {
    ghost var lsd := buf[..len0];
    len := len0;
    assert buf[..len] == lsd + Rep('0', 0);
    if !f.left && f.zeropad {
      len := PadZeros(buf, len, width);
    }
    ghost var n1 := len;
    assert buf[..n1] == lsd + Rep('0', n1 - len0);
    len := PadZeros(buf, len, precision);
    RepSum('0', n1 - len0, len - n1);
    assert buf[..len] == lsd + (Rep('0', n1 - len0) + Rep('0', len - n1));
  }

  /** The prefix of print_integer_finalization. */
  method AddPrefix(buf: array<char>, len0: nat, base: nat, f: Flags) returns (len: nat)
    requires buf.Length == SIZE && len0 <= SIZE
    modifies buf
    ensures len <= SIZE && buf[..len] == old(buf[..len0]) + PrefixRev(len0, base, true, f)
  {
    len := len0;
    if base == 16 && !f.upper && len < SIZE {
      len := Append(buf, len, 'x');
    } else if base == 16 && f.upper && len < SIZE {
      len := Append(buf, len, 'X');
    } else if base == 2 && len < SIZE {
      len := Append(buf, len, 'b');
    }
    ghost var p := PrefixRev(len0, base, true, f);
    len := Append(buf, len, '0');
  }

  /** The alternate form: some padding is taken back and the prefix goes on. */
  method AddAlternate(buf: array<char>, n2: nat, len0: nat, width: nat, precision: nat, base: nat, f: Flags)
    returns (len: nat)
    requires buf.Length == SIZE && len0 <= n2 <= SIZE && buf[..n2] == buf[..len0] + Rep('0', n2 - len0)
    modifies buf
    ensures var n3 := Len3(len0, n2, width, precision, base, f);
            && len0 <= n3 && len <= SIZE
            && buf[..len] ==
               old(buf[..len0]) + Rep('0', n3 - len0) + PrefixRev(n3, base, Alternate(len0, n2, base, f), f)
  {
    hide PrefixRev;
    ghost var lsd, padded := buf[..len0], buf[..n2];
    len := n2;
    var hash := f.hash;
    if base == 8 && len > len0 {
      hash := false;
    }
    if hash || f.pointer {
      if !f.precision && len > 0 && (len == precision || len == width) {
        if len0 < len {
          len := len - 1;
        }
        if len > 0 && (base == 16 || base == 2) && len0 < len {
          len := len - 1;
        }
      }
      TakenBack(padded, lsd, n2, len);
      assert buf[..len] == padded[..len];
      len := AddPrefix(buf, len, base, f);
    } else {
      NoPrefix(len, base, f);
    }
  }

  method AddSign(buf: array<char>, len0: nat, negative: bool, f: Flags) returns (len: nat)
    requires buf.Length == SIZE && len0 <= SIZE
    modifies buf
    ensures len <= SIZE && buf[..len] == old(buf[..len0]) + SignRev(len0, negative, f)
  {
    len := len0;
    if len < SIZE {
      if negative {
        len := Append(buf, len, '-');
      } else if f.plus {
        len := Append(buf, len, '+');
      } else if f.space {
        len := Append(buf, len, ' ');
      }
    }
  }

  /** print_integer_finalization */
  method Finalize(g: Gadget, buf: array<char>, len0: nat, negative: bool, base: nat, precision: nat, width0: nat,
                  f: Flags)
    requires g.Valid() && buf.Length == SIZE && len0 <= SIZE && buf != g.buffer
    modifies g, g.buffer, buf
    ensures g.Valid()
    ensures var b := Buffer(old(buf[..len0]), negative, base, precision, width0, f);
            g.out == old(g.out) + OutRev(b, Width1(width0, negative, f), f)
  {
    hide PrefixRev, OutRev, Len2, Rep, Len3, Alternate, SignRev;
    ghost var lsd := buf[..len0];
    var width := width0;
    if !f.left && width > 0 && f.zeropad && (negative || f.plus || f.space) {
      width := width - 1;
    }
    var n2 := PadInteger(buf, len0, width, precision, f);
    assert buf[..len0] == buf[..n2][..len0] == lsd;
    var n := AddAlternate(buf, n2, len0, width, precision, base, f);
    ghost var n3 := Len3(len0, n2, width, precision, base, f);
    RepLength('0', n3 - len0);
    var len := AddSign(buf, n, negative, f);
    g.PutReversed(buf[..len], width, f);
  }

  lemma TakenBack(b: seq<char>, lsd: seq<char>, n2: nat, n3: nat)
    requires |lsd| <= n3 <= n2 && |b| == n2 && b == lsd + Rep('0', n2 - |lsd|)
    ensures b[..n3] == lsd + Rep('0', n3 - |lsd|)
  {
  }

  lemma NoPrefix(n: nat, base: nat, f: Flags)
    ensures PrefixRev(n, base, false, f) == []
  {
  }

  /** print_integer */
  method PrintInteger(g: Gadget, value: nat, negative: bool, base: nat, precision: nat, width: nat, f: Flags)
    requires g.Valid() && 2 <= base <= 36
    modifies g, g.buffer
    ensures g.Valid() && g.out == old(g.out) + Text(value, negative, base, precision, width, f)
  {
    hide Buffer, OutRev, Stored;
    var buf := new char[SIZE];
    var len := StoreDigits(buf, value, base, f);
    var flags := f;
    if value == 0 && (!f.precision || base == 16) {
      flags := f.(hash := false);
    }
    Finalize(g, buf, len, negative, base, precision, width, flags);
  }

  lemma EmptyReversed()
    ensures Reverse([]) == []
  {
  }

  // ---- the format loop ----

  /** parse_flags */
  method ParseFlags(fmt: string, i0: nat) returns (f: Flags, i: nat)
    requires i0 <= |fmt|
    ensures (f, i) == FlagsFrom(fmt, i0, NO_FLAGS)
  {
    f, i := NO_FLAGS, i0;
    while i < |fmt| && IsFlag(fmt[i])
      invariant i <= |fmt| && FlagsFrom(fmt, i, f) == FlagsFrom(fmt, i0, NO_FLAGS)
    {
      f, i := WithFlag(fmt[i], f), i + 1;
    }
  }

  /** atou_ */
  method Atou(fmt: string, i0: nat) returns (n: nat, i: nat)
    requires i0 <= |fmt|
    ensures (n, i) == NumberFrom(fmt, i0, 0) && i <= |fmt|
  {
    n, i := 0, i0;
    while i < |fmt| && IsDigit(fmt[i])
      invariant i <= |fmt| && NumberFrom(fmt, i, n) == NumberFrom(fmt, i0, 0)
    {
      n, i := (n * 10 + (fmt[i] as int - '0' as int)) % UINT, i + 1;
    }
  }

  /** The field width: a number, a * or nothing. */
  method ParseWidth(fmt: string, i: nat, f: Flags, args: seq<Arg>) returns (s: Spec)
    requires i <= |fmt|
    ensures s == WidthFrom(fmt, i, f, args) && (s.Spec? ==> s.i <= |fmt|)
  {
    s := Spec(f, 0, 0, Int, i, args);
    if IsDigit(At(fmt, i)) {
      var w, k := Atou(fmt, i);
      s := s.(width := w, i := k);
    } else if At(fmt, i) == '*' {
      var w := StarOf(args);
      if i + 1 >= |fmt| {
        return End;
      }
      if w < 0 {
        s := s.(f := f.(left := true), width := -w);
      } else {
        s := s.(width := w);
      }
      s := s.(i := i + 1, args := Tail(args));
    }
  }

  /** The precision: a period and a number, a * or nothing. */
  method ParsePrecision(fmt: string, s: Spec) returns (r: Spec)
    requires s.Spec? && s.i <= |fmt|
    ensures r == PrecisionFrom(fmt, s) && (r.Spec? ==> r.i <= |fmt|)
  {
    r := s;
    if At(fmt, r.i) == '.' {
      if r.i + 1 >= |fmt| {
        return End;
      }
      r := r.(f := r.f.(precision := true), i := r.i + 1);
      if IsDigit(At(fmt, r.i)) {
        var p, k := Atou(fmt, r.i);
        r := r.(precision := p, i := k);
      } else if At(fmt, r.i) == '*' {
        if r.i + 1 >= |fmt| {
          return End;
        }
        var p := StarOf(r.args);
        r := r.(precision := if p > 0 then p else 0, i := r.i + 1, args := Tail(r.args));
      }
    }
  }

  /** The length modifier. */
  method ParseLength(fmt: string, s: Spec) returns (r: Spec)
    requires s.Spec? && s.i <= |fmt|
    ensures r == LengthFrom(fmt, s)
  {
    r := s;
    var c := At(fmt, r.i);
    if c == 'l' || c == 'h' || c == 't' || c == 'j' || c == 'z' {
      if r.i + 1 >= |fmt| {
        return End;
      }
      r := r.(length := if c == 'h' then Short else Long, i := r.i + 1);
      if (c == 'l' || c == 'h') && At(fmt, r.i) == c {
        if r.i + 1 >= |fmt| {
          return End;
        }
        r := r.(length := if c == 'l' then LongLong else Char, i := r.i + 1);
      }
    }
  }

  /** Flags, width, precision and length of the specification whose % is at i. */
  method ParseSpec(fmt: string, i: nat, args: seq<Arg>) returns (s: Spec)
    requires i < |fmt|
    ensures s == SpecFrom(fmt, i, args)
  {
    hide WidthFrom, PrecisionFrom, LengthFrom;
    if i + 1 >= |fmt| {
      return End;
    }
    var f, k := ParseFlags(fmt, i + 1);
    FlagsEnd(fmt, i + 1, NO_FLAGS);
    s := ParseWidth(fmt, k, f, args);
    if s.Spec? {
      s := ParsePrecision(fmt, s);
    }
    if s.Spec? {
      s := ParseLength(fmt, s);
    }
    if s.Spec? && s.i >= |fmt| {
      s := End;
    }
  }

  lemma {:induction false} FlagsEnd(fmt: string, i: nat, f: Flags)
    requires i <= |fmt|
    ensures FlagsFrom(fmt, i, f).1 <= |fmt|
    decreases |fmt| - i
  {
    if i < |fmt| && IsFlag(fmt[i]) { FlagsEnd(fmt, i + 1, WithFlag(fmt[i], f)); }
  }

  method PutPadded(g: Gadget, t: seq<char>, width: nat, left: bool)
    requires g.Valid()
    modifies g, g.buffer
    ensures g.Valid() && g.out == old(g.out) + Padded(t, width, left)
  {
    var pad := if width > |t| then width - |t| else 0;
    if !left {
      g.PutSpaces(pad);
    }
    g.PutAll(t);
    if left {
      g.PutSpaces(pad);
    }
  }

  /** The cases of the specifier switch. */
  method Conversion(g: Gadget, c: char, s: Spec) returns (rest: seq<Arg>)
    requires g.Valid() && s.Spec?
    modifies g, g.buffer
    ensures g.Valid() && g.out == old(g.out) + ConversionOut(c, s).0 && rest == ConversionOut(c, s).1
  {
    hide Text, OutRev, Padded, Wrap;
    rest := Tail(s.args);
    if IsInteger(c) {
      var f := IntegerFlags(c, s.f);
      if s.length == LongLong {
        rest := s.args;
        assert g.out == g.out + [];
      } else if c == 'd' || c == 'i' {
        var v := SignedArg(NumOf(s.args), s.length);
        PrintInteger(g, Abs(v), v < 0, 10, s.precision, s.width, f);
      } else {
        PrintInteger(g, UnsignedArg(NumOf(s.args), s.length), false, BaseOf(c), s.precision, s.width, f);
      }
    } else if c == 'c' {
      PutPadded(g, [CharArg(NumOf(s.args))], s.width, s.f.left);
    } else if c == 's' {
      if |s.args| > 0 && s.args[0].Str? {
        var t := s.args[0].s;
        PutPadded(g, if s.f.precision then t[..Min(|t|, s.precision)] else t, s.width, s.f.left);
      } else {
        g.PutReversed(")llun(", s.width, s.f);
      }
    } else if c == 'p' {
      var f := s.f.(zeropad := true, pointer := true);
      var n := UnsignedArg(NumOf(s.args), Long);
      if n == 0 {
        g.PutReversed(")lin(", PTR_WIDTH, f);
      } else {
        PrintInteger(g, n, false, 16, s.precision, PTR_WIDTH, f);
      }
    } else if c == 'n' {
      assert g.out == g.out + [];
    } else {
      rest := s.args;
      g.Put(c);
    }
  }

  /** format_string_loop */
  method FormatLoop(g: Gadget, fmt: string, args0: seq<Arg>)
    requires g.Valid()
    modifies g, g.buffer
    ensures g.Valid() && g.out == old(g.out) + Render(fmt, 0, args0)
  {
    hide SpecFrom, ConversionOut;
    var i, args := 0, args0;
    while i < |fmt|
      invariant 0 <= i <= |fmt| && g.Valid() && g.out + Render(fmt, i, args) == old(g.out) + Render(fmt, 0, args0)
      decreases |fmt| - i
    {
      ghost var before := g.out;
      if fmt[i] != '%' {
        g.Put(fmt[i]);
        assert before + ([fmt[i]] + Render(fmt, i + 1, args)) == g.out + Render(fmt, i + 1, args);
        i := i + 1;
      } else {
        var s := ParseSpec(fmt, i, args);
        if s.End? {
          assert before + [] == before;
          return;
        }
        SpecInside(fmt, i, args);
        ghost var text := ConversionOut(fmt[s.i], s).0;
        ghost var later := Render(fmt, s.i + 1, ConversionOut(fmt[s.i], s).1);
        args := Conversion(g, fmt[s.i], s);
        assert before + (text + later) == g.out + later;
        i := s.i + 1;
      }
    }
    assert g.out + [] == g.out;
  }

  lemma SpecInside(fmt: string, i: nat, args: seq<Arg>)
    ensures SpecFrom(fmt, i, args).Spec? ==> i < SpecFrom(fmt, i, args).i < |fmt|
  {
  }

  const INT_MAX: int := 0x7fff_ffff

  /**
    vsnprintf: the result does not depend on the buffer size n, the buffer holds as much of the output as fits in front
    of the terminator, and nothing at or beyond n is written.
   */
  method Vsnprintf(buffer: array<char>, n: nat, fmt: string, args: seq<Arg>) returns (r: int)
    requires n <= buffer.Length && n <= INT_MAX && |Render(fmt, 0, args)| <= INT_MAX
    modifies buffer
    ensures r == |Render(fmt, 0, args)|
    ensures n > 0 ==>
      && (forall i :: 0 <= i < r && i < n - 1 ==> buffer[i] == Render(fmt, 0, args)[i])
      && buffer[Min(r, n - 1)] == NUL
    ensures forall i :: 0 <= i < buffer.Length && (i >= n || i > r) ==> buffer[i] == old(buffer[i])
  {
    hide Render;
    var g := new Gadget(buffer, n);
    FormatLoop(g, fmt, args);
    assert g.out == Render(fmt, 0, args);
    if g.max != 0 {
      var end := if g.pos < g.max then g.pos else g.max - 1;
      buffer[end] := NUL;
    }
    r := g.pos;
  }
}
