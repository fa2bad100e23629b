/** Reading a conversion specification undoes writing it. */
module FormatSpecs {
  import opened Options
  import opened NumberText
  import opened NumberReading
  import opened Format

  /** A width or precision: not given, decimal digits, or taken from the arguments. */
  datatype Field = Absent | Number(text: string) | Star

  datatype Length = NoLength | L | LL | H | HH | T | J | Z

  /** A specification as written between `%` and the conversion character. */
  datatype Written = Written(flags: string, width: Field, prec: Option<Field>, length: Length)

  function FieldText(f: Field): string {
    match f
    case Absent => ""
    case Number(text) => text
    case Star => "*"
  }

  function PrecText(prec: Option<Field>): string {
    match prec
    case None => ""
    case Some(f) => "." + FieldText(f)
  }

  function LengthText(l: Length): string {
    match l
    case NoLength => ""
    case L => "l"
    case LL => "ll"
    case H => "h"
    case HH => "hh"
    case T => "t"
    case J => "j"
    case Z => "z"
  }

  function SpecText(w: Written): string {
    w.flags + (FieldText(w.width) + (PrecText(w.prec) + LengthText(w.length)))
  }

  ghost predicate GoodField(f: Field) {
    f.Number? ==> f.text != [] && AllDigits(f.text, 10)
  }

  /** The number that digits stand for, in 32 bits. */
  function NumberOf(f: Field): nat {
    if f.Number? then Value(f.text, 10) % 0x1_0000_0000 else 0
  }

  predicate IsFlag(c: char) {
    c == '0' || c == '-' || c == '+' || c == ' ' || c == '#'
  }

  predicate AllFlags(fs: string) {
    forall i :: 0 <= i < |fs| ==> IsFlag(fs[i])
  }

  /** The flag `c` is among those written. */
  predicate Has(fs: string, c: char) {
    c in fs
  }

  /** Flags from `0-+ #`, digits of any number, and a width that does not start with the flag `0`. */
  ghost predicate WellFormed(w: Written) {
    && AllFlags(w.flags)
    && GoodField(w.width) && (w.width.Number? ==> w.width.text[0] != '0')
    && (w.prec.Some? ==> GoodField(w.prec.value))
  }

  /** Characters that do not continue a specification. */
  predicate EndsSpec(c: char) {
    !IsFlag(c) && !IsDigit(c, 10) && c != '*' && c != '.' && c != 'l' && c != 'h' && c != 't' && c != 'j' && c != 'z'
  }

  /** A character that neither a flag nor a number can continue with. */
  predicate Stops(c: char) {
    !IsFlag(c) && !IsDigit(c, 10) && c != '*'
  }

  /** The arguments that `*` takes are integers, and a width is not the one without a negation. */
  predicate StarsServed(w: Written, args: seq<Arg>) {
    && (w.width.Star? ==> args != [] && args[0].IntArg? && args[0].value % 0x1_0000_0000 != 0x8000_0000)
    && (w.prec == Some(Star) ==>
          var rest := if w.width.Star? && args != [] then args[1..] else args; rest != [] && rest[0].IntArg?)
  }

  /** What the specification means. A negative width argument means left-justification, a negative
      precision argument a precision of 0. */
  function Meaning(w: Written, pos: nat, args: seq<Arg>): Spec
    requires StarsServed(w, args)
  {
    var width, rest := StarWidth(w, args), AfterStar(w, args);
    Spec(
      NO_FLAGS.(
        zeropad := Has(w.flags, '0'), left := Has(w.flags, '-') || width < 0, plus := Has(w.flags, '+'),
        space := Has(w.flags, ' '), hash := Has(w.flags, '#'), precision := w.prec.Some?,
        chr := w.length.HH?, short := w.length.H? || w.length.HH?,
        long := w.length.L? || w.length.LL? || w.length.T? || w.length.J? || w.length.Z?, longLong := w.length.LL?),
      if w.width.Number? then NumberOf(w.width) else Magnitude(width),
      match w.prec
      case None => 0
      case Some(Absent) => 0
      case Some(Number(text)) => NumberOf(Number(text))
      case Some(Star) => Max(0, ToSigned(rest[0].value, 0x1_0000_0000)),
      pos,
      if w.prec == Some(Star) then rest[1..] else rest)
  }

  // ---------------------------------------------------------------- pieces of a format

  ghost predicate At(fmt: string, pos: nat, text: string) {
    pos + |text| <= |fmt| && fmt[pos..pos + |text|] == text
  }

  lemma AtAppend(fmt: string, pos: nat, a: string, b: string)
    requires At(fmt, pos, a + b)
    ensures At(fmt, pos, a) && At(fmt, pos + |a|, b)
    ensures b != [] ==> fmt[pos + |a|] == b[0]
  {
    assert fmt[pos..pos + |a|] == fmt[pos..pos + |a + b|][..|a|];
    assert fmt[pos + |a|..pos + |a| + |b|] == fmt[pos..pos + |a + b|][|a|..];
    assert b != [] ==> fmt[pos + |a|] == fmt[pos + |a|..pos + |a| + |b|][0];
  }

  function AddFlags(flags: Flags, fs: string): Flags {
    flags.(zeropad := flags.zeropad || Has(fs, '0'), left := flags.left || Has(fs, '-'),
           plus := flags.plus || Has(fs, '+'), space := flags.space || Has(fs, ' '),
           hash := flags.hash || Has(fs, '#'))
  }

  lemma {:induction false} FlagsParse(fmt: string, pos: nat, fs: string, flags: Flags)
    requires At(fmt, pos, fs) && pos + |fs| < |fmt| && !IsFlag(fmt[pos + |fs|])
    requires AllFlags(fs)
    ensures ParseFlags(fmt, pos, flags) == (AddFlags(flags, fs), pos + |fs|)
    decreases |fs|
  {
    hide AddFlags, FlagOf, IsFlag;
    if fs == [] {
      FlagOrNot(fmt[pos], flags);
      AddNone(flags);
    } else {
      var c, rest := fs[0], fs[1..];
      assert fs == [c] + rest;
      AtAppend(fmt, pos, [c], rest);
      FirstAt(fmt, pos, fs);
      hide At;
      FlagOrNot(c, flags);
      AddOne(flags, c, rest);
      FlagsParse(fmt, pos + 1, rest, FlagOf(c, flags).value);
    }
  }

  lemma FirstAt(fmt: string, pos: nat, text: string)
    requires At(fmt, pos, text) && text != []
    ensures fmt[pos] == text[0]
  {
    assert fmt[pos] == fmt[pos..pos + |text|][0];
  }

  lemma FlagOrNot(c: char, flags: Flags)
    ensures FlagOf(c, flags).Some? <==> IsFlag(c)
  {
  }

  lemma AddNone(flags: Flags)
    ensures AddFlags(flags, []) == flags
  {
  }

  lemma HasCons(c: char, rest: string, d: char)
    ensures Has([c] + rest, d) <==> c == d || Has(rest, d)
  {
  }

  lemma AddOne(flags: Flags, c: char, rest: string)
    requires IsFlag(c)
    ensures FlagOf(c, flags).Some? && AddFlags(FlagOf(c, flags).value, rest) == AddFlags(flags, [c] + rest)
  {
    hide Has;
    HasCons(c, rest, '0');
    HasCons(c, rest, '-');
    HasCons(c, rest, '+');
    HasCons(c, rest, ' ');
    HasCons(c, rest, '#');
  }

  lemma AtInside(fmt: string, pos: nat, t: string)
    requires At(fmt, pos, t)
    ensures pos + |t| <= |fmt|
  {
  }

  lemma SplitsAt(fmt: string, pos: nat, t: string)
    requires At(fmt, pos, t)
    ensures fmt == fmt[..pos] + t + fmt[pos + |t|..]
  {
  }

  lemma NumberParses(fmt: string, pos: nat, f: Field)
    requires f.Number? && GoodField(f) && At(fmt, pos, f.text)
    requires pos + |f.text| < |fmt| && !IsDigit(fmt[pos + |f.text|], 10)
    ensures pos < |fmt| && IsDigit(fmt[pos], 10)
    ensures AtoiFrom(fmt, pos, 0) == (NumberOf(f), pos + |f.text|)
  {
    hide AtoiFrom, Value, IsDigit, At;
    var t := f.text;
    FirstAt(fmt, pos, t);
    SplitsAt(fmt, pos, t);
    var before, after := fmt[..pos], fmt[pos + |t|..];
    assert after[0] == fmt[pos + |t|];
    AtoiText(t, before, after);
  }

  /** The width that an argument for `*` gives. */
  function StarWidth(w: Written, args: seq<Arg>): int
    requires StarsServed(w, args)
  {
    if w.width.Star? then ToSigned(args[0].value, 0x1_0000_0000) else 0
  }

  function AfterStar(w: Written, args: seq<Arg>): seq<Arg>
    requires StarsServed(w, args)
  {
    if w.width.Star? then args[1..] else args
  }

  lemma WidthParses(fmt: string, s: Spec, w: Written) returns (r: Spec)
    requires WellFormed(w) && StarsServed(w, s.args) && s.width == 0
    requires At(fmt, s.pos, FieldText(w.width))
    requires var end := s.pos + |FieldText(w.width)|; end < |fmt| && Stops(fmt[end])
    ensures ParseWidth(fmt, s) == Some(r) && r.pos == s.pos + |FieldText(w.width)| && r.prec == s.prec
    ensures r.flags == s.flags.(left := s.flags.left || StarWidth(w, s.args) < 0)
    ensures r.width == if w.width.Number? then NumberOf(w.width) else Magnitude(StarWidth(w, s.args))
    ensures r.args == AfterStar(w, s.args)
  {
    hide AtoiFrom, Value, At;
    match w.width {
      case Absent =>
      case Star => FirstAt(fmt, s.pos, "*");
      case Number(_) => NumberParses(fmt, s.pos, w.width);
    }
    r := ParseWidth(fmt, s).value;
  }

  lemma PrecParses(fmt: string, s: Spec, f: Field)
    requires GoodField(f) && s.prec == 0 && (f.Star? ==> s.args != [] && s.args[0].IntArg?)
    requires At(fmt, s.pos, "." + FieldText(f))
    requires var end := s.pos + 1 + |FieldText(f)|;
      end < |fmt| && !IsDigit(fmt[end], 10) && (f.Absent? ==> fmt[end] != '*')
    ensures ParsePrecision(fmt, s) == Some(s.(
      flags := s.flags.(precision := true),
      prec := match f
              case Absent => 0
              case Number(_) => NumberOf(f)
              case Star => Max(0, ToSigned(s.args[0].value, 0x1_0000_0000)),
      pos := s.pos + 1 + |FieldText(f)|,
      args := if f.Star? then s.args[1..] else s.args))
  {
    hide AtoiFrom, Value, At;
    AtAppend(fmt, s.pos, ".", FieldText(f));
    FirstAt(fmt, s.pos, "." + FieldText(f));
    match f
    case Absent =>
    case Star => FirstAt(fmt, s.pos + 1, "*");
    case Number(_) => NumberParses(fmt, s.pos + 1, f);
  }

  lemma LengthParses(fmt: string, s: Spec, l: Length)
    requires At(fmt, s.pos, LengthText(l))
    requires var end := s.pos + |LengthText(l)|; end < |fmt| && EndsSpec(fmt[end])
    requires !s.flags.chr && !s.flags.short && !s.flags.long && !s.flags.longLong
    ensures ParseLength(fmt, s) == s.(
      flags := s.flags.(chr := l.HH?, short := l.H? || l.HH?,
                        long := l.L? || l.LL? || l.T? || l.J? || l.Z?, longLong := l.LL?),
      pos := s.pos + |LengthText(l)|)
  {
    var text := LengthText(l);
    var got := fmt[s.pos..s.pos + |text|];
    assert text != [] ==> fmt[s.pos] == got[0];
    assert |text| == 2 ==> fmt[s.pos + 1] == got[1];
  }

  // ---------------------------------------------------------------- the whole specification

  lemma AfterPrec(l: Length, c: char)
    requires EndsSpec(c)
    ensures Stops((LengthText(l) + [c])[0]) && (LengthText(l) + [c])[0] != '.'
  {
  }

  lemma AfterWidth(prec: Option<Field>, tail: string)
    requires tail != [] && Stops(tail[0])
    ensures Stops((PrecText(prec) + tail)[0])
  {
    hide FieldText;
  }

  lemma AfterFlags(width: Field, tail: string)
    requires tail != [] && Stops(tail[0]) && GoodField(width) && (width.Number? ==> width.text[0] != '0')
    ensures !IsFlag((FieldText(width) + tail)[0])
  {
    assert width.Number? ==> IsDigit(width.text[0], 10);
  }

  /** Where the pieces of a written specification stand, and what follows each. */
  lemma Pieces(fmt: string, pos: nat, w: Written, c: char) returns (p1: nat, p2: nat, p3: nat, end: nat)
    requires At(fmt, pos, SpecText(w) + [c]) && WellFormed(w) && EndsSpec(c)
    ensures p1 == pos + |w.flags| && At(fmt, pos, w.flags)
    ensures p2 == p1 + |FieldText(w.width)| && At(fmt, p1, FieldText(w.width))
    ensures p3 == p2 + |PrecText(w.prec)| && At(fmt, p2, PrecText(w.prec))
    ensures end == p3 + |LengthText(w.length)| == pos + |SpecText(w)| < |fmt| && At(fmt, p3, LengthText(w.length))
    ensures !IsFlag(fmt[p1]) && Stops(fmt[p2]) && Stops(fmt[p3]) && fmt[end] == c
    ensures w.prec.None? ==> fmt[p2] != '.'
  {
    hide At, FieldText, PrecText, LengthText, IsFlag, Stops, EndsSpec, WellFormed, SpecText;
    var afterPrec, afterWidth, afterFlags := Regrouped(w, c);
    p1 := pos + |w.flags|;
    p2 := p1 + |FieldText(w.width)|;
    p3 := p2 + |PrecText(w.prec)|;
    end := p3 + |LengthText(w.length)|;
    AtInside(fmt, pos, w.flags + afterFlags);
    AtAppend(fmt, pos, w.flags, afterFlags);
    AtAppend(fmt, p1, FieldText(w.width), afterWidth);
    AtAppend(fmt, p2, PrecText(w.prec), afterPrec);
    AtAppend(fmt, p3, LengthText(w.length), [c]);
  }

  /** The written text, piece by piece, and the characters with which the remainders start. */
  lemma Regrouped(w: Written, c: char) returns (afterPrec: string, afterWidth: string, afterFlags: string)
    requires WellFormed(w) && EndsSpec(c)
    ensures SpecText(w) + [c] == w.flags + afterFlags && afterFlags == FieldText(w.width) + afterWidth
    ensures afterWidth == PrecText(w.prec) + afterPrec && afterPrec == LengthText(w.length) + [c]
    ensures |SpecText(w)| == |w.flags| + |FieldText(w.width)| + |PrecText(w.prec)| + |LengthText(w.length)|
    ensures afterPrec != [] && afterWidth != [] && afterFlags != []
    ensures !IsFlag(afterFlags[0]) && Stops(afterWidth[0]) && Stops(afterPrec[0])
    ensures w.prec.None? ==> afterWidth[0] != '.'
  {
    hide FieldText, PrecText, LengthText, IsFlag, Stops, EndsSpec;
    afterPrec := LengthText(w.length) + [c];
    afterWidth := PrecText(w.prec) + afterPrec;
    afterFlags := FieldText(w.width) + afterWidth;
    AfterPrec(w.length, c);
    AfterWidth(w.prec, afterPrec);
    AfterFlags(w.width, afterWidth);
    NoPrec(w.prec, afterPrec);
    Concat(w.flags, FieldText(w.width), PrecText(w.prec), LengthText(w.length), [c]);
  }

  lemma Concat(a: string, b: string, c: string, d: string, e: string)
    ensures (a + (b + (c + d))) + e == a + (b + (c + (d + e)))
  {
    assert (b + (c + d)) + e == b + ((c + d) + e);
    assert (c + d) + e == c + (d + e);
  }

  lemma NoPrec(prec: Option<Field>, tail: string)
    ensures prec.None? ==> PrecText(prec) + tail == tail
  {
  }

  /** Reading a specification undoes writing it: for every choice of flags in any order and number,
      width, precision and length, the parser finds exactly what they mean and stops at the
      conversion character. */
  lemma SpecParses(fmt: string, pos: nat, w: Written, c: char, args: seq<Arg>)
    requires At(fmt, pos, SpecText(w) + [c]) && WellFormed(w) && EndsSpec(c) && StarsServed(w, args)
    ensures pos + |SpecText(w)| < |fmt| && fmt[pos + |SpecText(w)|] == c
    ensures ParseSpec(fmt, pos, args) == Some(Meaning(w, pos + |SpecText(w)|, args))
  {
    hide At, FieldText, PrecText, LengthText, IsFlag, EndsSpec, SpecText, Stops, AddFlags;
    hide ParseFlags, ParseWidth, ParsePrecision, ParseLength, Meaning, StarWidth, AfterStar, ToSigned;
    var p1, p2, p3, end := Pieces(fmt, pos, w, c);
    FlagsParse(fmt, pos, w.flags, NO_FLAGS);
    NoLengthYet(w.flags);
    var s0 := Spec(AddFlags(NO_FLAGS, w.flags), 0, 0, p1, args);
    var s1 := WidthParses(fmt, s0, w);
    StarsLeft(w, args);
    var s2 := PrecOrNone(fmt, s1, w);
    LengthParses(fmt, s2, w.length);
    Assemble(w, args, s0, s1, s2, end);
  }

  lemma NoLengthYet(fs: string)
    ensures var f := AddFlags(NO_FLAGS, fs); !f.chr && !f.short && !f.long && !f.longLong && !f.precision
  {
  }

  lemma StarsLeft(w: Written, args: seq<Arg>)
    requires StarsServed(w, args)
    ensures w.prec == Some(Star) ==> AfterStar(w, args) != [] && AfterStar(w, args)[0].IntArg?
  {
  }

  lemma Assemble(w: Written, args: seq<Arg>, s0: Spec, s1: Spec, s2: Spec, end: nat)
    requires StarsServed(w, args) && s0 == Spec(AddFlags(NO_FLAGS, w.flags), 0, 0, s0.pos, args)
    requires s1.flags == s0.flags.(left := s0.flags.left || StarWidth(w, args) < 0)
    requires s1.width == (if w.width.Number? then NumberOf(w.width) else Magnitude(StarWidth(w, args)))
    requires s1.args == AfterStar(w, args)
    requires s2.flags == s1.flags.(precision := s1.flags.precision || w.prec.Some?) && s2.width == s1.width
    requires s2.prec == match w.prec
                        case None => 0
                        case Some(Absent) => 0
                        case Some(Number(text)) => NumberOf(Number(text))
                        case Some(Star) => Max(0, ToSigned(s1.args[0].value, 0x1_0000_0000))
    requires s2.args == if w.prec == Some(Star) then s1.args[1..] else s1.args
    ensures var l := w.length;
      Meaning(w, end, args) == s2.(
        flags := s2.flags.(chr := l.HH?, short := l.H? || l.HH?,
                           long := l.L? || l.LL? || l.T? || l.J? || l.Z?, longLong := l.LL?),
        pos := end)
  {
    hide Has, ToSigned;
  }

  lemma PrecOrNone(fmt: string, s: Spec, w: Written) returns (r: Spec)
    requires WellFormed(w) && s.prec == 0 && (w.prec == Some(Star) ==> s.args != [] && s.args[0].IntArg?)
    requires At(fmt, s.pos, PrecText(w.prec))
    requires var end := s.pos + |PrecText(w.prec)|; end < |fmt| && Stops(fmt[end])
    requires w.prec.None? ==> fmt[s.pos] != '.'
    ensures ParsePrecision(fmt, s) == Some(r) && r.pos == s.pos + |PrecText(w.prec)|
    ensures r.flags == s.flags.(precision := s.flags.precision || w.prec.Some?) && r.width == s.width
    ensures r.prec == match w.prec
                      case None => 0
                      case Some(Absent) => 0
                      case Some(Number(text)) => NumberOf(Number(text))
                      case Some(Star) => Max(0, ToSigned(s.args[0].value, 0x1_0000_0000))
    ensures r.args == if w.prec == Some(Star) then s.args[1..] else s.args
  {
    hide FieldText, At;
    if w.prec.Some? {
      PrecParses(fmt, s, w.prec.value);
    }
    r := ParsePrecision(fmt, s).value;
  }
}
