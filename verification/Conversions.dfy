/** What the formatter prints, stated on whole formats. */
module Conversions {
  import opened Options
  import opened NumberText
  import opened NumberReading
  import opened Format
  import opened FormatSpecs

  // ---------------------------------------------------------------- one conversion

  /** The text followed by the rendering of what remains of the format. */
  function Then(text: string, rest: Option<string>): (r: Option<string>)
    ensures rest == Some([]) ==> r == Some(text)
  {
    match rest
    case None => None
    case Some(r) => assert text + [] == text; Some(text + r)
  }

  /** A written specification with its conversion character. */
  function Conversion(w: Written, c: char): string {
    "%" + (SpecText(w) + [c])
  }

  /** A written specification that starts at `pos`. */
  lemma SpecAt(fmt: string, pos: nat, w: Written, c: char, args: seq<Arg>)
    requires At(fmt, pos, Conversion(w, c)) && WellFormed(w) && EndsSpec(c) && StarsServed(w, args)
    ensures var end := pos + 1 + |SpecText(w)|;
      end < |fmt| && fmt[pos] == '%' && fmt[end] == c && ParseSpec(fmt, pos + 1, args) == Some(Meaning(w, end, args))
  {
    hide At, ParseSpec, Meaning, SpecText, WellFormed, EndsSpec, StarsServed;
    AtInside(fmt, pos, Conversion(w, c));
    FirstAt(fmt, pos, Conversion(w, c));
    AtAppend(fmt, pos, "%", SpecText(w) + [c]);
    SpecParses(fmt, pos + 1, w, c, args);
  }

  lemma MeaningKeepsArgs(w: Written, pos: nat, args: seq<Arg>)
    requires !w.width.Star? && w.prec != Some(Star)
    ensures StarsServed(w, args) && Meaning(w, pos, args).args == args && Meaning(w, pos, args).pos == pos
  {
  }

  /** An integer conversion renders as its field, takes one argument, and the rest follows. */
  lemma RenderField(fmt: string, pos: nat, w: Written, c: char, x: int, more: seq<Arg>)
    requires At(fmt, pos, Conversion(w, c)) && WellFormed(w) && !w.width.Star? && w.prec != Some(Star)
    requires IsIntegerConversion(c)
    ensures var end := pos + 1 + |SpecText(w)|;
      && end < |fmt|
      && var field := IntegerField(c, Meaning(w, end, [IntArg(x)] + more), x);
         field.Some? ==> Render(fmt, pos, [IntArg(x)] + more) == Then(field.value, Render(fmt, end + 1, more))
  {
    var args, end := [IntArg(x)] + more, pos + 1 + |SpecText(w)|;
    hide At, ParseSpec, Meaning, SpecText, WellFormed, StarsServed, IntegerField, Render, Then;
    MeaningKeepsArgs(w, end, args);
    SpecAt(fmt, pos, w, c, args);
    OneConversion(fmt, pos, c, Meaning(w, end, args), x, more);
  }

  lemma OneConversion(fmt: string, pos: nat, c: char, s: Spec, x: int, more: seq<Arg>)
    requires pos < s.pos < |fmt| && fmt[pos] == '%' && fmt[s.pos] == c && IsIntegerConversion(c)
    requires s.args == [IntArg(x)] + more && ParseSpec(fmt, pos + 1, s.args) == Some(s)
    ensures var field := IntegerField(c, s, x);
      field.Some? ==> Render(fmt, pos, s.args) == Then(field.value, Render(fmt, s.pos + 1, more))
  {
    hide ParseSpec, IntegerField;
    assert s.args[1..] == more;
  }

  // ---------------------------------------------------------------- the value that is printed

  /** The number of values of the type that a length selects. */
  function Modulus(l: Length): nat {
    if l.L? || l.LL? || l.T? || l.J? || l.Z? then 0x1_0000_0000_0000_0000
    else if l.HH? then 0x100 else if l.H? then 0x1_0000 else 0x1_0000_0000
  }

  /** `v` is the value that conversion `c` with length `l` takes from the argument `x`: the signed or
      unsigned value of the type that is congruent to it. Plain `char` is unsigned; the least
      `int` and `long` have no negation and are left out. */
  predicate Selects(l: Length, c: char, x: int, v: int) {
    && (x - v) % Modulus(l) == 0
    && if (c == 'd' || c == 'i') && !l.HH? then
         2 * v < Modulus(l) && (if l.H? then 0 <= 2 * v + Modulus(l) else 0 < 2 * v + Modulus(l))
       else 0 <= v < Modulus(l)
  }

  lemma Congruent(x: int, v: int, m: nat)
    requires m > 0 && (x - v) % m == 0
    ensures x % m == v % m
  {
    var k, q := (x - v) / m, v / m;
    Distribute(m, q, k);
    OnlyRemainder(x, q + k, m, v % m);
  }

  lemma Distribute(m: int, q: int, k: int)
    ensures q * m + k * m == (q + k) * m
  {
  }

  lemma InRange(v: int, l: Length)
    ensures 0 <= v < Modulus(l) ==> v % Modulus(l) == v
    ensures 0 <= 2 * v + Modulus(l) && 2 * v < Modulus(l) ==> ToSigned(v, Modulus(l)) == v
  {
    if l.L? || l.LL? || l.T? || l.J? || l.Z? {
    } else if l.HH? {
    } else if l.H? {
    }
  }

  lemma ToSignedMod(x: int, v: int, m: nat)
    requires m > 0 && x % m == v % m
    ensures ToSigned(x, m) == ToSigned(v, m)
  {
  }

  lemma SelectedArg(w: Written, c: char, x: int, v: int)
    requires !w.width.Star? && w.prec != Some(Star) && Selects(w.length, c, x, v)
    ensures var flags := IntegerFlags(c, Meaning(w, 0, []).flags);
      if c == 'd' || c == 'i' then v == SignedArg(flags, x) && !Unnegatable(flags, v) else v == UnsignedArg(flags, x)
  {
    hide Has, ToSigned;
    var m := Modulus(w.length);
    Congruent(x, v, m);
    InRange(v, w.length);
    ToSignedMod(x, v, m);
  }

  // ---------------------------------------------------------------- the text that is printed

  predicate IsDecimal(c: char) {
    c == 'd' || c == 'i' || c == 'u'
  }

  function PrecOf(w: Written): nat {
    if w.prec.Some? then NumberOf(w.prec.value) else 0
  }

  /** The sign due before a number: signed conversions show `-`, and `+` or a blank if asked for. */
  function SignDue(w: Written, c: char, v: int): string {
    if v < 0 then "-"
    else if c != 'd' && c != 'i' then ""
    else if Has(w.flags, '+') then "+"
    else if Has(w.flags, ' ') then " "
    else ""
  }

  /** Zeros fill up to the width: `0` was given, and neither `-` nor a precision. */
  predicate ZeroFilled(w: Written) {
    Has(w.flags, '0') && w.prec.None? && !Has(w.flags, '-')
  }

  /** The number of digits and leading zeros: at least the precision, or the width less the sign
      if zeros fill it, but at most 32 unless there are more digits. */
  function BodyLength(w: Written, digits: nat, sign: string): nat {
    if Has(w.flags, '-') then digits
    else if ZeroFilled(w) then Max(digits, Min(Max(0, NumberOf(w.width) - |sign|), 32))
    else Max(digits, Min(PrecOf(w), 32))
  }

  /** The text of a number: blanks, sign, zeros, digits, blanks. The sign is dropped when digits and
      zeros take 32 characters; blanks fill up to the width, after the number for `-`, and before it
      unless zeros fill it. */
  function LaidOut(w: Written, digits: string, sign: string): string {
    var body := BodyLength(w, |digits|, sign);
    var sign := if body < 32 then sign else "";
    var blanks := Repeat(' ', NumberOf(w.width) - body - |sign|);
    (if Has(w.flags, '-') || ZeroFilled(w) then "" else blanks)
    + (sign + (Repeat('0', body - |digits|) + digits))
    + (if Has(w.flags, '-') then blanks else "")
  }

  /** The text of every integer conversion without `*` and without `#`, from the format as written,
      wherever it stands in a format; one argument is taken, and the rest follows. */
  lemma IntegerFormat(fmt: string, pos: nat, w: Written, c: char, x: int, v: int, more: seq<Arg>)
    returns (digits: string)
    requires At(fmt, pos, Conversion(w, c)) && WellFormed(w) && !w.width.Star? && w.prec != Some(Star)
    requires IsIntegerConversion(c) && (IsDecimal(c) || !Has(w.flags, '#'))
    requires Selects(w.length, c, x, v) && (c == 'b' ==> v < 0x1_0000_0000)
    ensures if v == 0 && w.prec.Some? then digits == "" else
      IsNumeral(digits, if c == 'x' || c == 'X' then 16 else if c == 'o' then 8 else if c == 'b' then 2 else 10,
                c == 'X', Magnitude(v))
    ensures c != 'b' ==> |digits| <= 22
    ensures pos + |Conversion(w, c)| <= |fmt|
    ensures Render(fmt, pos, [IntArg(x)] + more)
         == Then(LaidOut(w, digits, SignDue(w, c, v)), Render(fmt, pos + |Conversion(w, c)|, more))
  {
    hide Has, Ntoa, NtoaDigits, Reverse, IsNumeral, SignedArg, UnsignedArg, SpecText, Render, At, Then;
    RenderField(fmt, pos, w, c, x, more);
    SelectedArg(w, c, x, v);
    var s := Meaning(w, pos + 1 + |SpecText(w)|, [IntArg(x)] + more);
    var flags := IntegerFlags(c, s.flags);
    digits := Reverse(NtoaDigits(Magnitude(v), BaseOf(c), flags));
    if c != 'b' {
      Digits64(Magnitude(v), BaseOf(c), flags);
    }
    if v != 0 || w.prec.None? {
      DigitsAreNumeral(Magnitude(v), BaseOf(c), flags);
    } else {
      SuppressedZero(BaseOf(c), flags);
    }
    FieldLaidOut(w, c, v, s);
  }

  /** A format that consists of one conversion. */
  lemma WholeFormat(w: Written, c: char, x: int, v: int) returns (digits: string)
    requires WellFormed(w) && !w.width.Star? && w.prec != Some(Star)
    requires IsIntegerConversion(c) && (IsDecimal(c) || !Has(w.flags, '#'))
    requires Selects(w.length, c, x, v) && (c == 'b' ==> v < 0x1_0000_0000)
    ensures if v == 0 && w.prec.Some? then digits == "" else
      IsNumeral(digits, if c == 'x' || c == 'X' then 16 else if c == 'o' then 8 else if c == 'b' then 2 else 10,
                c == 'X', Magnitude(v))
    ensures c != 'b' ==> |digits| <= 22
    ensures Render(Conversion(w, c), 0, [IntArg(x)]) == Some(LaidOut(w, digits, SignDue(w, c, v)))
  {
    hide Has, IsNumeral, SpecText, Render, Selects, LaidOut, SignDue, WellFormed, IsIntegerConversion, IsDecimal;
    var fmt := Conversion(w, c);
    assert At(fmt, 0, fmt);
    digits := IntegerFormat(fmt, 0, w, c, x, v, []);
    RenderEnd(fmt, |fmt|, []);
    assert [IntArg(x)] + [] == [IntArg(x)];
  }

  lemma SuppressedZero(base: nat, flags: Flags)
    requires IsBase(base) && flags.precision
    ensures Reverse(NtoaDigits(0, base, flags)) == ""
  {
  }

  lemma FieldLaidOut(w: Written, c: char, v: int, s: Spec)
    requires !w.width.Star? && w.prec != Some(Star) && s == Meaning(w, s.pos, s.args)
    requires IsIntegerConversion(c) && (IsDecimal(c) || !Has(w.flags, '#')) && (v < 0 ==> c == 'd' || c == 'i')
    ensures var flags := IntegerFlags(c, s.flags);
      Ntoa(Magnitude(v), v < 0, BaseOf(c), s.prec, s.width, flags)
      == LaidOut(w, Reverse(NtoaDigits(Magnitude(v), BaseOf(c), flags)), SignDue(w, c, v))
  {
    hide Has, Ntoa, NtoaDigits, Reverse, Repeat, PaddedLength, BodyLength, SignText, SignDue, ZeroFilled;
    hide Meaning, IntegerFlags, BaseOf;
    var flags, sign := IntegerFlags(c, s.flags), SignDue(w, c, v);
    var d := NtoaDigits(Magnitude(v), BaseOf(c), flags);
    SameFlags(w, c, v, s, flags);
    SameBody(w, c, v, s, flags, |d|);
    var pre, zeros, post := FieldShape(Magnitude(v), v < 0, BaseOf(c), s.prec, s.width, flags);
    var body := BodyLength(w, |d|, sign);
    var shown := if body < 32 then sign else "";
    BlanksFrom(s.width - body - |shown|);
    NoBlanks();
  }

  lemma SameFlags(w: Written, c: char, v: int, s: Spec, flags: Flags)
    requires !w.width.Star? && w.prec != Some(Star) && s == Meaning(w, s.pos, s.args)
    requires IsIntegerConversion(c) && (IsDecimal(c) || !Has(w.flags, '#')) && (v < 0 ==> c == 'd' || c == 'i')
    requires flags == IntegerFlags(c, s.flags)
    ensures flags.left == Has(w.flags, '-') && !flags.hash && SignText(v < 0, flags) == SignDue(w, c, v)
    ensures (flags.left || flags.zeropad) == (Has(w.flags, '-') || ZeroFilled(w))
    ensures s.width == NumberOf(w.width)
  {
    hide Has;
  }

  lemma SameBody(w: Written, c: char, v: int, s: Spec, flags: Flags, n: nat)
    requires !w.width.Star? && w.prec != Some(Star) && s == Meaning(w, s.pos, s.args)
    requires flags == IntegerFlags(c, s.flags) && SignText(v < 0, flags) == SignDue(w, c, v)
    ensures PaddedLength(n, v < 0, s.prec, s.width, flags) == BodyLength(w, n, SignDue(w, c, v))
  {
    hide Has, SignDue;
    var f := s.flags;
    assert flags.left == Has(w.flags, '-') && flags.zeropad == (Has(w.flags, '0') && w.prec.None?);
    assert s.prec == PrecOf(w) && s.width == NumberOf(w.width);
    hide Meaning, IntegerFlags;
  }

  lemma BlanksFrom(n: int)
    ensures Repeat(' ', n) == Repeat(' ', Max(0, n))
  {
  }

  lemma NoBlanks()
    ensures Repeat(' ', 0) == ""
  {
  }

  // ---------------------------------------------------------------- literal formats

  /** The format prints the number `v` in `base` with nothing around it, and so reads back as `v`. */
  ghost predicate Prints(fmt: string, x: int, v: int, base: nat, uppercase: bool) {
    exists digits ::
      && IsNumeral(digits, base, uppercase, Magnitude(v))
      && Render(fmt, 0, [IntArg(x)]) == Some((if v < 0 then "-" else "") + digits)
      && ReadNumber((if v < 0 then "-" else "") + digits, base) == Some(v)
  }

  lemma PrintsPlain(fmt: string, l: Length, c: char, x: int, v: int, base: nat)
    requires fmt == "%" + (LengthText(l) + [c]) && IsIntegerConversion(c)
    requires Selects(l, c, x, v) && (c == 'b' ==> v < 0x1_0000_0000)
    requires base == if c == 'x' || c == 'X' then 16 else if c == 'o' then 8 else if c == 'b' then 2 else 10
    ensures Prints(fmt, x, v, base, c == 'X')
  {
    hide LengthText, Selects, Render, IsNumeral, ReadNumber;
    var w := Written("", Absent, None, l);
    assert SpecText(w) == LengthText(l);
    var digits := WholeFormat(w, c, x, v);
    assert !Has("", '-') && !Has("", '0') && !Has("", '+') && !Has("", ' ');
    SignIsMinus(w, c, v, l, x);
    var sign := if v < 0 then "-" else "";
    assert LaidOut(w, digits, sign) == sign + digits;
    ReadsNumeral(sign, digits, base, c == 'X', Magnitude(v));
  }

  lemma SignIsMinus(w: Written, c: char, v: int, l: Length, x: int)
    requires w.flags == "" && Selects(l, c, x, v)
    ensures SignDue(w, c, v) == if v < 0 then "-" else ""
    ensures v < 0 ==> c == 'd' || c == 'i'
  {
  }

  lemma ReadsNumeral(sign: string, digits: string, base: nat, uppercase: bool, n: nat)
    requires IsBase(base) && IsNumeral(digits, base, uppercase, n) && (sign == "-" || sign == "")
    ensures ReadNumber(sign + digits, base) == Some(SignedValue(sign == "-", n))
  {
    hide ReadNumber;
    ReadField(0, sign, digits, 0, base);
    assert Repeat(' ', 0) + (sign + digits) + Repeat(' ', 0) == sign + digits;
  }

  /** `%d` and `%i` print the `int` that is congruent to the argument. */
  lemma IntPrints(x: int, v: int)
    requires (x - v) % 0x1_0000_0000 == 0 && -0x8000_0000 < v < 0x8000_0000
    ensures Prints("%d", x, v, 10, false) && Prints("%i", x, v, 10, false)
  {
    hide Prints;
    PrintsPlain("%d", NoLength, 'd', x, v, 10);
    PrintsPlain("%i", NoLength, 'i', x, v, 10);
  }

  /** The unsigned conversions of `unsigned int`. */
  lemma UnsignedPrints(x: int, v: nat)
    requires (x - v) % 0x1_0000_0000 == 0 && v < 0x1_0000_0000
    ensures Prints("%u", x, v, 10, false) && Prints("%x", x, v, 16, false) && Prints("%X", x, v, 16, true)
    ensures Prints("%o", x, v, 8, false) && Prints("%b", x, v, 2, false)
  {
    hide Prints;
    PrintsPlain("%u", NoLength, 'u', x, v, 10);
    PrintsPlain("%x", NoLength, 'x', x, v, 16);
    PrintsPlain("%X", NoLength, 'X', x, v, 16);
    PrintsPlain("%o", NoLength, 'o', x, v, 8);
    PrintsPlain("%b", NoLength, 'b', x, v, 2);
  }

  /** `l` and `ll`: 64-bit values. */
  lemma LongPrints(x: int, v: int)
    requires (x - v) % 0x1_0000_0000_0000_0000 == 0 && -0x8000_0000_0000_0000 < v < 0x8000_0000_0000_0000
    ensures Prints("%ld", x, v, 10, false) && Prints("%lld", x, v, 10, false) && Prints("%zd", x, v, 10, false)
  {
    hide Prints;
    PrintsPlain("%ld", L, 'd', x, v, 10);
    PrintsPlain("%lld", LL, 'd', x, v, 10);
    PrintsPlain("%zd", Z, 'd', x, v, 10);
  }

  lemma UnsignedLongPrints(x: int, v: nat)
    requires (x - v) % 0x1_0000_0000_0000_0000 == 0 && v < 0x1_0000_0000_0000_0000
    ensures Prints("%lu", x, v, 10, false) && Prints("%lx", x, v, 16, false) && Prints("%lX", x, v, 16, true)
    ensures Prints("%lo", x, v, 8, false) && Prints("%llx", x, v, 16, false) && Prints("%zu", x, v, 10, false)
  {
    hide Prints;
    PrintsPlain("%lu", L, 'u', x, v, 10);
    PrintsPlain("%lx", L, 'x', x, v, 16);
    PrintsPlain("%lX", L, 'X', x, v, 16);
    PrintsPlain("%lo", L, 'o', x, v, 8);
    PrintsPlain("%llx", LL, 'x', x, v, 16);
    PrintsPlain("%zu", Z, 'u', x, v, 10);
  }

  /** `h` and `hh`: 16-bit values, and 8-bit values, which are unsigned. */
  lemma ShortPrints(x: int, v: int, u: nat, b: nat)
    requires (x - v) % 0x1_0000 == 0 && -0x8000 <= v < 0x8000
    requires (x - u) % 0x1_0000 == 0 && u < 0x1_0000 && (x - b) % 0x100 == 0 && b < 0x100
    ensures Prints("%hd", x, v, 10, false) && Prints("%hu", x, u, 10, false) && Prints("%hx", x, u, 16, false)
    ensures Prints("%hhd", x, b, 10, false) && Prints("%hhu", x, b, 10, false) && Prints("%hhx", x, b, 16, false)
  {
    hide Prints;
    PrintsPlain("%hd", H, 'd', x, v, 10);
    PrintsPlain("%hu", H, 'u', x, u, 10);
    PrintsPlain("%hx", H, 'x', x, u, 16);
    PrintsPlain("%hhd", HH, 'd', x, b, 10);
    PrintsPlain("%hhu", HH, 'u', x, b, 10);
    PrintsPlain("%hhx", HH, 'x', x, b, 16);
  }

  lemma OneDigit(c: char)
    requires IsDigit(c, 10)
    ensures NumberOf(Number([c])) == DigitOf(c) && GoodField(Number([c]))
  {
    var d := [c];
    assert d[..|d| - 1] == [] && Value([], 10) == 0;
    assert Value(d, 10) == DigitOf(c);
  }

  /** A 32-bit signed decimal, from the format as written, with the numeral of its magnitude. */
  lemma DecimalFormat(w: Written, x: int, v: int, digits: string)
    requires WellFormed(w) && !w.width.Star? && w.prec != Some(Star) && w.length.NoLength?
    requires (x - v) % 0x1_0000_0000 == 0 && -0x8000_0000 < v < 0x8000_0000 && (v == 0 ==> w.prec.None?)
    requires IsNumeral(digits, 10, false, Magnitude(v))
    ensures Render(Conversion(w, 'd'), 0, [IntArg(x)]) == Some(LaidOut(w, digits, SignDue(w, 'd', v)))
    ensures |digits| <= 22
  {
    hide WellFormed, Render, IsNumeral, LaidOut, SignDue;
    var same := WholeFormat(w, 'd', x, v);
    NumeralUnique(digits, same, 10, false, Magnitude(v));
  }

  /** What `-`, a width, `0` and a precision do to `%d`: blanks after the number, blanks before it,
      zeros after the sign up to the width, or up to that many digits. */
  lemma WidthFormats(x: int, v: int, digits: string)
    requires (x - v) % 0x1_0000_0000 == 0 && -0x8000_0000 < v < 0x8000_0000
    requires IsNumeral(digits, 10, false, Magnitude(v))
    ensures var sign := if v < 0 then "-" else "";
      var n := |sign| + |digits|;
      && Render("%-5d", 0, [IntArg(x)]) == Some(sign + digits + Repeat(' ', 5 - n))
      && Render("%5d", 0, [IntArg(x)]) == Some(Repeat(' ', 5 - n) + (sign + digits))
      && Render("%05d", 0, [IntArg(x)]) == Some(sign + (Repeat('0', 5 - n) + digits))
      && (v >= 0 ==> Render("%+d", 0, [IntArg(x)]) == Some("+" + digits))
  {
    hide Render, IsNumeral;
    LeftFormat(x, v, digits);
    RightFormat(x, v, digits);
    ZeroFormat(x, v, digits);
    PlusFormat(x, v, digits);
  }

  lemma LeftFormat(x: int, v: int, digits: string)
    requires (x - v) % 0x1_0000_0000 == 0 && -0x8000_0000 < v < 0x8000_0000
    requires IsNumeral(digits, 10, false, Magnitude(v))
    ensures var sign := if v < 0 then "-" else "";
      Render("%-5d", 0, [IntArg(x)]) == Some(sign + digits + Repeat(' ', 5 - |sign| - |digits|))
  {
    hide Render, IsNumeral, Value;
    OneDigit('5');
    var w := Written("-", Number("5"), None, NoLength);
    assert Conversion(w, 'd') == "%-5d";
    DecimalFormat(w, x, v, digits);
    FlagsOf("-");
    var sign := SignDue(w, 'd', v);
    assert LaidOut(w, digits, sign) == sign + digits + Repeat(' ', 5 - |sign| - |digits|);
  }

  /** The flags among those of a short text. */
  lemma FlagsOf(fs: string)
    requires |fs| <= 1
    ensures forall c :: Has(fs, c) <==> fs == [c]
  {
  }

  lemma RightFormat(x: int, v: int, digits: string)
    requires (x - v) % 0x1_0000_0000 == 0 && -0x8000_0000 < v < 0x8000_0000
    requires IsNumeral(digits, 10, false, Magnitude(v))
    ensures var sign := if v < 0 then "-" else "";
      Render("%5d", 0, [IntArg(x)]) == Some(Repeat(' ', 5 - |sign| - |digits|) + (sign + digits))
  {
    hide Render, IsNumeral, Value;
    OneDigit('5');
    var w := Written("", Number("5"), None, NoLength);
    assert Conversion(w, 'd') == "%5d";
    DecimalFormat(w, x, v, digits);
    FlagsOf("");
    var sign := SignDue(w, 'd', v);
    assert LaidOut(w, digits, sign) == Repeat(' ', 5 - |sign| - |digits|) + (sign + digits);
  }

  lemma ZeroFormat(x: int, v: int, digits: string)
    requires (x - v) % 0x1_0000_0000 == 0 && -0x8000_0000 < v < 0x8000_0000
    requires IsNumeral(digits, 10, false, Magnitude(v))
    ensures var sign := if v < 0 then "-" else "";
      Render("%05d", 0, [IntArg(x)]) == Some(sign + (Repeat('0', 5 - |sign| - |digits|) + digits))
  {
    hide Render, IsNumeral, Value;
    OneDigit('5');
    var w := Written("0", Number("5"), None, NoLength);
    assert Conversion(w, 'd') == "%05d";
    DecimalFormat(w, x, v, digits);
    FlagsOf("0");
    var sign := SignDue(w, 'd', v);
    assert LaidOut(w, digits, sign) == sign + (Repeat('0', 5 - |sign| - |digits|) + digits);
  }

  lemma PlusFormat(x: int, v: int, digits: string)
    requires (x - v) % 0x1_0000_0000 == 0 && -0x8000_0000 < v < 0x8000_0000
    requires IsNumeral(digits, 10, false, Magnitude(v))
    ensures v >= 0 ==> Render("%+d", 0, [IntArg(x)]) == Some("+" + digits)
  {
    hide Render, IsNumeral;
    var w := Written("+", Absent, None, NoLength);
    assert Conversion(w, 'd') == "%+d";
    DecimalFormat(w, x, v, digits);
    FlagsOf("+");
    assert v >= 0 ==> LaidOut(w, digits, "+") == "+" + digits;
  }

  /** A precision of 3: at least three digits, also for zero. */
  lemma PrecisionFormat(x: int, v: int, digits: string)
    requires (x - v) % 0x1_0000_0000 == 0 && -0x8000_0000 < v < 0x8000_0000
    requires IsNumeral(digits, 10, false, Magnitude(v))
    ensures var sign := if v < 0 then "-" else "";
      Render("%.3d", 0, [IntArg(x)]) == Some(sign + (Repeat('0', 3 - |digits|) + digits))
  {
    hide Render, IsNumeral, Value;
    OneDigit('3');
    var w := Written("", Absent, Some(Number("3")), NoLength);
    assert Conversion(w, 'd') == "%.3d";
    FlagsOf("");
    var sign := SignDue(w, 'd', v);
    if v == 0 {
      var none := WholeFormat(w, 'd', x, v);
      ZeroNumeral(digits);
      assert LaidOut(w, none, sign) == "000" == sign + (Repeat('0', 2) + "0");
    } else {
      DecimalFormat(w, x, v, digits);
      assert LaidOut(w, digits, sign) == sign + (Repeat('0', 3 - |digits|) + digits);
    }
  }

  lemma ZeroNumeral(digits: string)
    requires IsNumeral(digits, 10, false, 0)
    ensures digits == "0"
  {
    assert "0"[..0] == [] && Value("0", 10) == 0;
    NumeralUnique(digits, "0", 10, false, 0);
  }

  /** The prefixes of `#`: `0x`, `0X` and `0` before a positive number. */
  lemma HashFormats(x: int, v: nat)
    requires (x - v) % 0x1_0000_0000 == 0 && 0 < v < 0x1_0000_0000
    ensures HashPrints("%#x", x, v, "0x", 16, false) && HashPrints("%#X", x, v, "0X", 16, true)
    ensures HashPrints("%#o", x, v, "0", 8, false)
  {
    hide HashPrints;
    HashFormat("%#x", 'x', x, v, "0x", 16);
    HashFormat("%#X", 'X', x, v, "0X", 16);
    HashFormat("%#o", 'o', x, v, "0", 8);
  }

  ghost predicate HashPrints(fmt: string, x: int, v: nat, prefix: string, base: nat, uppercase: bool) {
    exists digits :: IsNumeral(digits, base, uppercase, v) && Render(fmt, 0, [IntArg(x)]) == Some(prefix + digits)
  }

  lemma HashFormat(fmt: string, c: char, x: int, v: nat, prefix: string, base: nat)
    requires fmt == ['%', '#', c] && (c == 'x' || c == 'X' || c == 'o')
    requires prefix == if c == 'x' then "0x" else if c == 'X' then "0X" else "0"
    requires base == if c == 'o' then 8 else 16
    requires (x - v) % 0x1_0000_0000 == 0 && 0 < v < 0x1_0000_0000
    ensures HashPrints(fmt, x, v, prefix, base, c == 'X')
  {
    hide Render, IsNumeral, Ntoa, NtoaDigits, Has, IntegerField, Then, Meaning, Selects;
    var w := Written("#", Absent, None, NoLength);
    assert Conversion(w, c) == fmt && WellFormed(w);
    assert At(fmt, 0, fmt) && [IntArg(x)] + [] == [IntArg(x)];
    RenderField(fmt, 0, w, c, x, []);
    RenderEnd(fmt, 3, []);
    var flags := HashField(w, c, x, v, 2);
    DigitsAreNumeral(v, base, flags);
    HashedText(v, base, flags, prefix);
  }

  lemma HashField(w: Written, c: char, x: int, v: nat, pos: nat) returns (flags: Flags)
    requires w == Written("#", Absent, None, NoLength) && (c == 'x' || c == 'X' || c == 'o')
    requires (x - v) % 0x1_0000_0000 == 0 && v < 0x1_0000_0000
    ensures flags == NO_FLAGS.(hash := true, uppercase := c == 'X')
    ensures IntegerField(c, Meaning(w, pos, [IntArg(x)]), x)
         == Some(Ntoa(v, false, if c == 'o' then 8 else 16, 0, 0, flags))
  {
    hide Ntoa, UnsignedArg;
    FlagsOf("#");
    SelectedArg(w, c, x, v);
    flags := IntegerFlags(c, Meaning(w, pos, [IntArg(x)]).flags);
  }

  lemma HashedText(v: nat, base: nat, flags: Flags, prefix: string)
    requires (base == 8 || base == 16) && 0 < v < TWO_64
    requires flags == NO_FLAGS.(hash := true, uppercase := flags.uppercase)
    requires prefix == if base == 8 then "0" else if flags.uppercase then "0X" else "0x"
    ensures Ntoa(v, false, base, 0, 0, flags) == prefix + Reverse(NtoaDigits(v, base, flags))
  {
    hide NtoaDigits, Ntoa, WithZeros, WithHash, WithSign, OutRev, Reverse;
    var d := NtoaDigits(v, base, flags);
    Digits64(v, base, flags);
    DigitsCanonical(v, base, flags);
    NtoaHashed(v, false, base, 0, 0, flags);
    var mark := if flags.uppercase then 'X' else 'x';
    var back := if base == 8 then "0" else [mark, '0'];
    HashedDigits(d, base, flags, back);
    ReverseConcat(d, back);
    assert Reverse(back) == prefix by {
      ReverseShort(back, prefix);
    }
  }

  lemma HashedDigits(d: string, base: nat, flags: Flags, back: string)
    requires (base == 8 || base == 16) && 0 < |d| <= 22
    requires flags == NO_FLAGS.(hash := true, uppercase := flags.uppercase)
    requires back == if base == 8 then "0" else [if flags.uppercase then 'X' else 'x', '0']
    ensures OutRev(WithSign(WithHash(WithZeros(d, 0, 0, flags), base, 0, 0, flags), false, flags), 0, flags)
         == Reverse(d + back)
  {
    assert WithZeros(d, 0, 0, flags) == d;
    assert WithHash(d, base, 0, 0, flags) == d + back;
    hide WithHash, WithZeros, Reverse;
    var t := Reverse(d + back);
    assert [] + t + [] == t;
  }

  lemma ReverseConcat(a: string, b: string)
    ensures Reverse(a + b) == Reverse(b) + Reverse(a)
  {
  }

  lemma ReverseShort(back: string, prefix: string)
    requires |back| == |prefix| <= 2 && (|back| == 1 ==> prefix == back)
    requires |back| == 2 ==> prefix == [back[1], back[0]]
    ensures Reverse(back) == prefix
  {
  }

  // ---------------------------------------------------------------- text

  /** Text without `%` renders as itself, and the rest follows; the format ends with the string or
      at a NUL in it. */
  lemma {:induction false} OrdinaryText(fmt: string, pos: nat, text: string, args: seq<Arg>)
    requires At(fmt, pos, text) && forall i :: 0 <= i < |text| ==> text[i] != '%' && text[i] != '\0'
    ensures pos + |text| <= |fmt|
    ensures Render(fmt, pos, args) == Then(text, Render(fmt, pos + |text|, args))
    ensures pos + |text| == |fmt| || fmt[pos + |text|] == '\0' ==> Render(fmt, pos, args) == Some(text)
    decreases |text|
  {
    hide ParseSpec, Convert;
    if text == [] {
      NothingThen(Render(fmt, pos, args));
    } else {
      assert text == [text[0]] + text[1..];
      AtAppend(fmt, pos, [text[0]], text[1..]);
      FirstAt(fmt, pos, text);
      OrdinaryText(fmt, pos + 1, text[1..], args);
      ThenThen([text[0]], text[1..], Render(fmt, pos + |text|, args));
    }
  }

  lemma NothingThen(rest: Option<string>)
    ensures Then([], rest) == rest
  {
    assert rest.Some? ==> [] + rest.value == rest.value;
  }

  lemma ThenThen(a: string, b: string, rest: Option<string>)
    ensures Then(a, Then(b, rest)) == Then(a + b, rest)
  {
    assert rest.Some? ==> a + (b + rest.value) == (a + b) + rest.value;
  }

  /** Text in a field: blanks fill up to the width, after the text for `-`. */
  function InField(w: Written, text: string): string {
    var blanks := Repeat(' ', NumberOf(w.width) - |text|);
    if Has(w.flags, '-') then text + blanks else blanks + text
  }

  /** `%s` prints the string, cut at the precision if one is given. */
  lemma StringFormat(fmt: string, pos: nat, w: Written, text: string, more: seq<Arg>)
    requires At(fmt, pos, Conversion(w, 's')) && WellFormed(w) && !w.width.Star? && w.prec != Some(Star)
    requires '\0' !in text
    ensures pos + |Conversion(w, 's')| <= |fmt|
    ensures Render(fmt, pos, [StrArg(text)] + more)
         == Then(InField(w, if w.prec.Some? && PrecOf(w) < |text| then text[..PrecOf(w)] else text),
                 Render(fmt, pos + |Conversion(w, 's')|, more))
  {
    hide SpecText, ParseSpec, WellFormed, Has, At, Render, Then, Convert, InField, Clipped, Padded;
    var args := [StrArg(text)] + more;
    var s := TextSpec(fmt, pos, w, 's', args);
    var cut := if w.prec.Some? && PrecOf(w) < |text| then text[..PrecOf(w)] else text;
    assert args[1..] == more;
    StringConvert(fmt, s, text);
    assert Clipped(text, s) == cut;
    SameField(w, cut);
    RenderConvert(fmt, pos, s, InField(w, cut), more);
  }

  lemma StringConvert(fmt: string, s: Spec, text: string)
    requires s.pos < |fmt| && fmt[s.pos] == 's' && s.args != [] && s.args[0] == StrArg(text) && '\0' !in text
    ensures Convert(fmt, s) == Some((Padded(Clipped(text, s), s.width, s.flags.left), s.args[1..]))
  {
  }

  lemma CharConvert(fmt: string, s: Spec, x: int)
    requires s.pos < |fmt| && fmt[s.pos] == 'c' && s.args != [] && s.args[0] == IntArg(x)
    ensures Convert(fmt, s) == Some((Padded([(x % 0x100) as char], s.width, s.flags.left), s.args[1..]))
  {
  }

  lemma SameField(w: Written, text: string)
    ensures Padded(text, NumberOf(w.width), Has(w.flags, '-')) == InField(w, text)
  {
  }

  /** A conversion is followed by the rest. */
  lemma RenderConvert(fmt: string, pos: nat, s: Spec, text: string, more: seq<Arg>)
    requires pos < s.pos < |fmt| && fmt[pos] == '%' && ParseSpec(fmt, pos + 1, s.args) == Some(s)
    requires Convert(fmt, s) == Some((text, more))
    ensures Render(fmt, pos, s.args) == Then(text, Render(fmt, s.pos + 1, more))
  {
    hide ParseSpec, Convert;
  }

  /** `%c` prints one character. */
  lemma CharFormat(fmt: string, pos: nat, w: Written, x: int, more: seq<Arg>)
    requires At(fmt, pos, Conversion(w, 'c')) && WellFormed(w) && !w.width.Star? && w.prec != Some(Star)
    ensures pos + |Conversion(w, 'c')| <= |fmt|
    ensures Render(fmt, pos, [IntArg(x)] + more)
         == Then(InField(w, [(x % 0x100) as char]), Render(fmt, pos + |Conversion(w, 'c')|, more))
  {
    hide SpecText, ParseSpec, WellFormed, Has, At, Render, Then, Convert, InField, Padded;
    var args := [IntArg(x)] + more;
    var s := TextSpec(fmt, pos, w, 'c', args);
    assert args[1..] == more;
    CharConvert(fmt, s, x);
    SameField(w, [(x % 0x100) as char]);
    RenderConvert(fmt, pos, s, InField(w, [(x % 0x100) as char]), more);
  }

  lemma TextSpec(fmt: string, pos: nat, w: Written, c: char, args: seq<Arg>) returns (s: Spec)
    requires At(fmt, pos, Conversion(w, c)) && WellFormed(w) && !w.width.Star? && w.prec != Some(Star) && EndsSpec(c)
    ensures fmt[pos..] != [] && fmt[pos] == '%' && ParseSpec(fmt, pos + 1, args) == Some(s)
    ensures s.pos == pos + |Conversion(w, c)| - 1 < |fmt| && fmt[s.pos] == c && s.args == args
    ensures s.flags.left == Has(w.flags, '-') && s.width == NumberOf(w.width)
    ensures s.flags.precision == w.prec.Some? && s.prec == PrecOf(w)
  {
    hide SpecText, ParseSpec, WellFormed, Has, EndsSpec, At;
    SpecAt(fmt, pos, w, c, args);
    s := Meaning(w, pos + 1 + |SpecText(w)|, args);
  }

  /** `%p` prints the pointer as 16 hexadecimal digits in upper case. */
  lemma PointerFormat(fmt: string, pos: nat, x: int, more: seq<Arg>) returns (digits: string)
    requires At(fmt, pos, "%p")
    ensures IsNumeral(digits, 16, true, x % 0x1_0000_0000_0000_0000)
    ensures pos + 2 <= |fmt|
    ensures Render(fmt, pos, [IntArg(x)] + more)
         == Then(Repeat('0', 16 - |digits|) + digits, Render(fmt, pos + 2, more))
  {
    hide IsNumeral, Ntoa, NtoaDigits, ParseSpec, At, Has, Render, Then;
    var args := [IntArg(x)] + more;
    var s := PlainSpec(fmt, pos, 'p', args);
    var flags := s.flags.(zeropad := true, uppercase := true);
    var v := x % TWO_64;
    digits := Reverse(NtoaDigits(v, 16, flags));
    DigitsAreNumeral(v, 16, flags);
    Digits64(v, 16, flags);
    var pre, zeros, post := FieldShape(v, false, 16, 0, 16, flags);
    assert PointerField(s, x) == Repeat('0', 16 - |digits|) + digits;
    assert s.args[1..] == more;
    RenderConvert(fmt, pos, s, PointerField(s, x), more);
  }

  /** A conversion character right after `%`. */
  lemma PlainSpec(fmt: string, pos: nat, c: char, args: seq<Arg>) returns (s: Spec)
    requires At(fmt, pos, ['%', c]) && EndsSpec(c)
    ensures pos + 1 < |fmt| && fmt[pos] == '%' && fmt[pos + 1] == c
    ensures s == Spec(NO_FLAGS, 0, 0, pos + 1, args) && ParseSpec(fmt, pos + 1, args) == Some(s)
  {
    hide At, ParseSpec;
    var w := Written("", Absent, None, NoLength);
    FlagsOf("");
    assert Conversion(w, c) == ['%', c];
    SpecAt(fmt, pos, w, c, args);
    s := Meaning(w, pos + 1, args);
  }

  /** `%%` prints a percent sign and takes no argument. */
  lemma PercentFormat(fmt: string, pos: nat, args: seq<Arg>)
    requires At(fmt, pos, "%%")
    ensures pos + 2 <= |fmt| && Render(fmt, pos, args) == Then("%", Render(fmt, pos + 2, args))
  {
    hide At, ParseSpec;
    var s := PlainSpec(fmt, pos, '%', args);
  }
}
